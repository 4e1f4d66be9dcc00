/** The incremental framer of backend messages, and the spans of a query that keeps its frames. */
module Framer {
  import opened Bytes
  import opened Int64
  import opened WriterClass

  datatype Msg = Msg(kind: byte, body: seq<byte>)

  /** Type byte, length of itself and the body, body. */
  function FrameBytes(m: Msg): seq<byte>
  {
    [m.kind] + I32(|m.body| + 4) + m.body
  }

  /** The whole messages at the start of `b`, what is left over, and whether it starts with a length below 4. */
  datatype Framed = Framed(msgs: seq<Msg>, rest: seq<byte>, bad: bool)

  function Split(b: seq<byte>): Framed
  {
    if |b| < 5 then Framed([], b, false)
    else
      var len := ReadI32(b, 1);
      if len < 4 then Framed([], b, true)
      else if |b| < len + 1 then Framed([], b, false)
      else
        var next := Split(b[len + 1..]);
        Framed([Msg(b[0], b[5..len + 1])] + next.msgs, next.rest, next.bad)
  }

  /** Everything that arrives in pieces: the messages so far and what is left over. */
  function FeedAll(chunks: seq<seq<byte>>): Framed
  {
    if chunks == [] then Framed([], [], false)
    else
      var before := FeedAll(chunks[..|chunks| - 1]);
      var now := Split(before.rest + chunks[|chunks| - 1]);
      Framed(before.msgs + now.msgs, now.rest, before.bad || now.bad)
  }

  lemma FirstLength(a: seq<byte>, b: seq<byte>)
    requires |a| >= 5
    ensures ReadI32(a + b, 1) == ReadI32(a, 1)
  {
    assert (a + b)[1..5] == a[1..5];
  }

  /** More bytes after `a` add messages after those of `a`. */
  lemma {:induction false} SplitMore(a: seq<byte>, b: seq<byte>)
    requires !Split(a + b).bad
    ensures !Split(a).bad && !Split(Split(a).rest + b).bad
    ensures Split(a + b).msgs == Split(a).msgs + Split(Split(a).rest + b).msgs
    ensures Split(a + b).rest == Split(Split(a).rest + b).rest
    decreases |a|
  {
    hide ReadI32;
    if |a| >= 5 {
      FirstLength(a, b);
      var len := ReadI32(a, 1);
      if 4 <= len && len + 1 <= |a| {
        assert (a + b)[len + 1..] == a[len + 1..] + b && (a + b)[5..len + 1] == a[5..len + 1];
        SplitMore(a[len + 1..], b);
      }
    }
  }

  /** For every way of cutting a stream without a bad length into chunks, the framer gives the same messages
      and leaves the same rest. */
  lemma {:induction false} ChunksDoNotMatter(chunks: seq<seq<byte>>)
    requires !Split(Concat(chunks)).bad
    ensures FeedAll(chunks) == Split(Concat(chunks))
  {
    hide Split;
    if chunks != [] {
      var before, last := chunks[..|chunks| - 1], chunks[|chunks| - 1];
      SplitMore(Concat(before), last);
      ChunksDoNotMatter(before);
    } else {
      assert Split([]) == Framed([], [], false) by { EmptySplit(); }
    }
  }

  lemma EmptySplit()
    ensures Split([]) == Framed([], [], false)
  {
  }

  function StreamBytes(msgs: seq<Msg>): seq<byte>
  {
    if msgs == [] then [] else FrameBytes(msgs[0]) + StreamBytes(msgs[1..])
  }

  /** `tail` is the beginning of one more message, if anything. */
  predicate Partial(tail: seq<byte>)
  {
    |tail| < 5 || (ReadI32(tail, 1) >= 4 && |tail| < ReadI32(tail, 1) + 1)
  }

  /** The frames of any messages, and the beginning of one more, are split into exactly those messages. */
  lemma {:induction false} SplitStream(msgs: seq<Msg>, tail: seq<byte>)
    requires (forall m :: m in msgs ==> FitsI32(|m.body| + 4)) && Partial(tail)
    ensures Split(StreamBytes(msgs) + tail) == Framed(msgs, tail, false)
  {
    if msgs == [] {
      assert StreamBytes(msgs) + tail == tail;
      SplitStep(tail);
    } else {
      var m := msgs[0];
      assert m in msgs && [m] + msgs[1..] == msgs;
      SplitStream(msgs[1..], tail);
      var rest := StreamBytes(msgs[1..]) + tail;
      assert StreamBytes(msgs) == FrameBytes(m) + StreamBytes(msgs[1..]);
      hide *;
      Assoc(FrameBytes(m), StreamBytes(msgs[1..]), tail);
      FrameStands(m, rest, FrameBytes(m) + rest);
      SplitStep(FrameBytes(m) + rest);
    }
  }

  lemma FrameStands(m: Msg, rest: seq<byte>, b: seq<byte>)
    requires FitsI32(|m.body| + 4) && b == FrameBytes(m) + rest
    ensures |b| >= 5 && ReadI32(b, 1) == |m.body| + 4 && b[0] == m.kind && |b| >= |m.body| + 5
    ensures b[5..|m.body| + 5] == m.body && b[|m.body| + 5..] == rest
  {
    hide I32, ReadI32;
    assert b[1..] == I32(|m.body| + 4) + (m.body + rest);
    I32Reads(b, 1, |m.body| + 4, m.body + rest);
  }

  // ---- buffers and views ----

  /** A stretch of an array buffer; buffers are numbered. */
  datatype View = View(buf: nat, lo: nat, hi: nat)

  predicate Inside(mem: seq<seq<byte>>, v: View)
  {
    v.buf < |mem| && v.lo <= v.hi <= |mem[v.buf]|
  }

  function At(mem: seq<seq<byte>>, v: View): seq<byte>
    requires Inside(mem, v)
  {
    mem[v.buf][v.lo..v.hi]
  }

  predicate Kept(kind: byte)
  {
    kind == 84 || kind == 68 || kind == 67 || kind == 69 || kind == 73
  }

  /** The frames that a query in wire mode keeps. */
  function KeptBytes(msgs: seq<Msg>): seq<byte>
  {
    if msgs == [] then []
    else KeptBytes(msgs[..|msgs| - 1]) + if Kept(msgs[|msgs| - 1].kind) then FrameBytes(msgs[|msgs| - 1]) else []
  }

  lemma {:induction false} KeptAppend(a: seq<Msg>, b: seq<Msg>)
    ensures KeptBytes(a + b) == KeptBytes(a) + KeptBytes(b)
    decreases |b|
  {
    hide FrameBytes, Kept;
    if b == [] {
      assert a + b == a && KeptBytes(a) + [] == KeptBytes(a);
    } else {
      var m := b[|b| - 1];
      assert (a + b)[..|a + b| - 1] == a + b[..|b| - 1];
      KeptAppend(a, b[..|b| - 1]);
      Assoc(KeptBytes(a), KeptBytes(b[..|b| - 1]), if Kept(m.kind) then FrameBytes(m) else []);
    }
  }

  /** RowDescription, DataRow, CommandComplete, ErrorResponse and EmptyQueryResponse, in their order. */
  function Wanted(msgs: seq<Msg>): seq<Msg>
  {
    if msgs == [] then []
    else
      var m := msgs[|msgs| - 1];
      Wanted(msgs[..|msgs| - 1])
      + if m.kind in {'T' as int, 'D' as int, 'C' as int, 'E' as int, 'I' as int} then [m] else []
  }

  lemma {:induction false} StreamAppend(a: seq<Msg>, b: seq<Msg>)
    ensures StreamBytes(a + b) == StreamBytes(a) + StreamBytes(b)
    decreases |a|
  {
    hide FrameBytes;
    if a == [] {
      assert a + b == b;
    } else {
      assert (a + b)[1..] == a[1..] + b;
      StreamAppend(a[1..], b);
      Assoc(FrameBytes(a[0]), StreamBytes(a[1..]), StreamBytes(b));
    }
  }

  /** What a query keeps are the whole frames of those five kinds and of no other. */
  lemma {:induction false} KeptAreWanted(msgs: seq<Msg>)
    ensures KeptBytes(msgs) == StreamBytes(Wanted(msgs))
  {
    hide FrameBytes;
    if msgs != [] {
      var before, m := msgs[..|msgs| - 1], msgs[|msgs| - 1];
      KeptAreWanted(before);
      StreamAppend(Wanted(before), [m]);
      assert StreamBytes([m]) == FrameBytes(m) by { assert [m][1..] == [] && FrameBytes(m) + [] == FrameBytes(m); }
      assert KeptBytes(before) + [] == KeptBytes(before) && Wanted(before) + [] == Wanted(before);
    }
  }

  /** Each message's body stands in memory right behind its type byte and length. */
  ghost predicate Bodies(mem: seq<seq<byte>>, out: seq<(byte, View)>, msgs: seq<Msg>)
  {
    |out| == |msgs| && forall i :: 0 <= i < |out| ==> Body(mem, out[i], msgs[i])
  }

  ghost predicate Body(mem: seq<seq<byte>>, x: (byte, View), m: Msg)
  {
    && Inside(mem, x.1) && x.1.lo >= 5 && x.0 == m.kind && At(mem, x.1) == m.body
    && mem[x.1.buf][x.1.lo - 5..x.1.hi] == FrameBytes(m)
  }

  /** Reading a length and writing it again gives the same four bytes. */
  lemma LengthBytes(b: seq<byte>, p: nat)
    requires p + 4 <= |b| && ReadI32(b, p) >= 0
    ensures I32(ReadI32(b, p)) == b[p..p + 4]
  {
    PowWord();
    var n := FromBe(b[p..p + 4]);
    BeFromBe(b[p..p + 4]);
    DivMod(n, WORD, 0, n);
  }

  lemma BodyStands(mem: seq<seq<byte>>, buf: nat, off: nat, total: nat, hi: nat)
    requires buf < |mem| && off + total <= hi <= |mem[buf]| && total >= 5
    requires ReadI32(mem[buf][off..hi], 1) + 1 == total
    ensures var t := mem[buf][off..hi]; Body(mem, (mem[buf][off], View(buf, off + 5, off + total)), Msg(t[0], t[5..total]))
  {
    var t := mem[buf][off..hi];
    LengthBytes(t, 1);
    hide I32, ReadI32;
    FrameParts(mem[buf], off, total, hi);
  }

  lemma FrameParts(s: seq<byte>, off: nat, total: nat, hi: nat)
    requires off + total <= hi <= |s| && total >= 5
    ensures var t := s[off..hi]; s[off..off + total] == [t[0]] + t[1..5] + t[5..total] && s[off + 5..off + total] == t[5..total]
  {
    var t := s[off..hi];
    assert s[off..off + total] == t[..total];
    assert t[..total] == [t[0]] + t[1..5] + t[5..total];
  }

  lemma SplitStep(t: seq<byte>)
    ensures |t| < 5 ==> Split(t) == Framed([], t, false)
    ensures |t| >= 5 && ReadI32(t, 1) < 4 ==> Split(t) == Framed([], t, true)
    ensures |t| >= 5 && |t| < ReadI32(t, 1) + 1 && ReadI32(t, 1) >= 4 ==> Split(t) == Framed([], t, false)
    ensures |t| >= 5 && 4 <= ReadI32(t, 1) < |t| ==>
              var n := ReadI32(t, 1) + 1;
              Split(t).msgs == [Msg(t[0], t[5..n])] + Split(t[n..]).msgs && Split(t).rest == Split(t[n..]).rest && Split(t).bad == Split(t[n..]).bad
  {
    hide ReadI32;
  }

  lemma BodyKind(mem: seq<seq<byte>>, x: (byte, View), m: Msg)
    requires Body(mem, x, m)
    ensures x.0 == m.kind && Body(mem, (x.0, x.1), m)
  {
  }

  lemma BodiesMore(mem: seq<seq<byte>>, out: seq<(byte, View)>, msgs: seq<Msg>, x: (byte, View), m: Msg)
    requires Bodies(mem, out, msgs) && Body(mem, x, m)
    ensures Bodies(mem, out + [x], msgs + [m])
  {
    hide Body;
  }

  /** The framing of a view has come to `off`: `done` are the messages before it, `out` their bodies. */
  ghost predicate FramedTo(mem: seq<seq<byte>>, all: View, off: nat, out: seq<(byte, View)>, done: seq<Msg>)
  {
    && Inside(mem, all) && all.lo <= off <= all.hi && Bodies(mem, out, done)
    && var f, g := Split(At(mem, all)), Split(mem[all.buf][off..all.hi]);
       f.msgs == done + g.msgs && f.rest == g.rest && f.bad == g.bad
  }

  lemma FramedNone(mem: seq<seq<byte>>, all: View)
    requires Inside(mem, all)
    ensures FramedTo(mem, all, all.lo, [], [])
  {
    hide Split;
    assert [] + Split(At(mem, all)).msgs == Split(At(mem, all)).msgs;
  }

  lemma FramedOne(mem: seq<seq<byte>>, all: View, off: nat, out: seq<(byte, View)>, done: seq<Msg>, total: nat)
    requires FramedTo(mem, all, off, out, done) && 5 <= total && off + total <= all.hi
    requires ReadI32(mem[all.buf][off..all.hi], 1) + 1 == total
    ensures var t := mem[all.buf][off..all.hi];
            FramedTo(mem, all, off + total, out + [(mem[all.buf][off], View(all.buf, off + 5, off + total))], done + [Msg(t[0], t[5..total])])
  {
    hide Split, ReadI32, Body, Bodies;
    var t := mem[all.buf][off..all.hi];
    var m := Msg(t[0], t[5..total]);
    SplitStep(t);
    assert t[total..] == mem[all.buf][off + total..all.hi];
    BodyStands(mem, all.buf, off, total, all.hi);
    Assoc(done, [m], Split(t[total..]).msgs);
    BodiesMore(mem, out, done, (mem[all.buf][off], View(all.buf, off + 5, off + total)), m);
  }

  lemma FramedAll(mem: seq<seq<byte>>, all: View, off: nat, out: seq<(byte, View)>, done: seq<Msg>)
    requires FramedTo(mem, all, off, out, done)
    ensures var t := mem[all.buf][off..all.hi]; var f := Split(At(mem, all));
            && (all.hi - off >= 5 && ReadI32(t, 1) < 4 ==> f.bad)
            && (all.hi - off < 5 || (ReadI32(t, 1) >= 4 && all.hi - off < ReadI32(t, 1) + 1) ==> !f.bad && f.msgs == done && f.rest == t)
  {
    hide ReadI32, Split;
    SplitStep(mem[all.buf][off..all.hi]);
    assert done + [] == done;
  }

  /** The messages that stand whole in a view, and where the rest begins. */
  method Frames(mem: seq<seq<byte>>, all: View) returns (ok: bool, out: seq<(byte, View)>, off: nat)
    requires Inside(mem, all)
    ensures var f := Split(At(mem, all));
            ok == !f.bad && (ok ==> all.lo <= off <= all.hi && Bodies(mem, out, f.msgs) && mem[all.buf][off..all.hi] == f.rest)
  {
    out := [];
    off := all.lo;
    ghost var done: seq<Msg> := [];
    FramedNone(mem, all);
    hide FramedTo, Split, ReadI32, Bodies;
    while all.hi - off >= 5
      invariant all.lo <= off <= all.hi && FramedTo(mem, all, off, out, done)
    {
      FramedAll(mem, all, off, out, done);
      var len := ReadI32(mem[all.buf][off..all.hi], 1);
      if len < 4 { return false, [], off; }
      var total := len + 1;
      if all.hi - off < total { break; }
      FramedOne(mem, all, off, out, done, total);
      ghost var t := mem[all.buf][off..all.hi];
      done := done + [Msg(t[0], t[5..total])];
      out := out + [(mem[all.buf][off], View(all.buf, off + 5, off + total))];
      off := off + total;
    }
    FramedAll(mem, all, off, out, done);
    FramedBodies(mem, all, off, out, done);
    ok := true;
  }

  lemma FramedBodies(mem: seq<seq<byte>>, all: View, off: nat, out: seq<(byte, View)>, done: seq<Msg>)
    requires FramedTo(mem, all, off, out, done)
    ensures Bodies(mem, out, done)
  {
  }

  // ---- memory ----

  /** What was written stays where it is. */
  ghost predicate Extends(mem: seq<seq<byte>>, more: seq<seq<byte>>)
  {
    |mem| <= |more| && forall b :: 0 <= b < |mem| ==> mem[b] <= more[b]
  }

  lemma StillAt(mem: seq<seq<byte>>, more: seq<seq<byte>>, v: View)
    requires Extends(mem, more) && Inside(mem, v)
    ensures Inside(more, v) && At(more, v) == At(mem, v)
  {
    assert mem[v.buf] <= more[v.buf];
  }

  // ---- the queries on one connection ----

  const READY: byte := 90

  /** The messages cut behind each ReadyForQuery; the last stretch is that of the query still open. */
  function Cycles(msgs: seq<Msg>): (r: seq<seq<Msg>>)
    ensures r != []
  {
    if msgs == [] then [[]]
    else
      var before, m := Cycles(msgs[..|msgs| - 1]), msgs[|msgs| - 1];
      var last := before[|before| - 1] + [m];
      before[..|before| - 1] + (if m.kind == READY then [last, []] else [last])
  }

  function Joined(cycles: seq<seq<Msg>>): seq<Msg>
  {
    if cycles == [] then [] else Joined(cycles[..|cycles| - 1]) + cycles[|cycles| - 1]
  }

  predicate IsReady(m: Msg)
  {
    m.kind == 'Z' as int
  }

  /** Ends with its only ReadyForQuery. */
  predicate Answer(c: seq<Msg>)
  {
    c != [] && forall k :: 0 <= k < |c| ==> (IsReady(c[k]) <==> k == |c| - 1)
  }

  predicate Unanswered(c: seq<Msg>)
  {
    forall k :: 0 <= k < |c| ==> !IsReady(c[k])
  }

  /** The messages in order, cut behind each ReadyForQuery and nowhere else. */
  predicate CutAtReady(cycles: seq<seq<Msg>>, msgs: seq<Msg>)
  {
    && Joined(cycles) == msgs && cycles != [] && Unanswered(cycles[|cycles| - 1])
    && forall c :: 0 <= c < |cycles| - 1 ==> Answer(cycles[c])
  }

  lemma JoinedSnoc(cycles: seq<seq<Msg>>, c: seq<Msg>)
    ensures Joined(cycles + [c]) == Joined(cycles) + c
  {
    assert (cycles + [c])[..|cycles|] == cycles;
  }

  lemma CutStep(before: seq<seq<Msg>>, msgs: seq<Msg>, m: Msg)
    requires CutAtReady(before, msgs)
    ensures var n := |before| - 1; var last := before[n] + [m];
            CutAtReady(before[..n] + (if IsReady(m) then [last, []] else [last]), msgs + [m])
  {
    var n := |before| - 1;
    var head, last := before[..n], before[n] + [m];
    assert before == head + [before[n]];
    JoinedSnoc(head, before[n]);
    JoinedSnoc(head, last);
    JoinedSnoc(head + [last], []);
    Assoc(Joined(head), before[n], [m]);
    assert head + [last] + [[]] == head + [last, []] && Joined(head + [last]) + [] == Joined(head + [last]);
    hide Joined;
    assert forall c :: 0 <= c < n ==> Answer(head[c]);
    if IsReady(m) { assert Answer(last); } else { assert Unanswered(last); }
    hide Answer, Unanswered, IsReady;
  }

  /** The stretches are the messages in order; every one but the last ends with its only ReadyForQuery, and the
      last has none. */
  lemma {:induction false} CyclesCut(msgs: seq<Msg>)
    ensures CutAtReady(Cycles(msgs), msgs)
  {
    hide *;
    if msgs == [] {
      NoCycles(msgs);
    } else {
      var i := |msgs| - 1;
      CyclesCut(msgs[..i]);
      CyclesSnoc(msgs);
      CutStep(Cycles(msgs[..i]), msgs[..i], msgs[i]);
      assert msgs[..i] + [msgs[i]] == msgs;
    }
  }

  lemma NoCycles(msgs: seq<Msg>)
    requires msgs == []
    ensures CutAtReady(Cycles(msgs), msgs)
  {
    var one: seq<seq<Msg>> := [[]];
    assert one[..0] == [];
    assert Joined(one) == Joined(one[..0]) + one[0];
  }

  lemma CyclesSnoc(msgs: seq<Msg>)
    requires msgs != []
    ensures var i := |msgs| - 1; var before := Cycles(msgs[..i]); var n := |before| - 1; var last := before[n] + [msgs[i]];
            Cycles(msgs) == before[..n] + (if IsReady(msgs[i]) then [last, []] else [last])
  {
  }

  /** What query `k` keeps of its messages. */
  function KeptBy(inWire: nat -> bool, k: nat, msgs: seq<Msg>): seq<byte>
  {
    if inWire(k) then KeptBytes(msgs) else []
  }

  /** Each settled query got exactly its own kept frames. */
  ghost predicate Answered(inWire: nat -> bool, results: seq<seq<seq<byte>>>, msgs: seq<Msg>)
  {
    var cycles := Cycles(msgs);
    |results| == |cycles| - 1 && forall k :: 0 <= k < |results| ==> Concat(results[k]) == KeptBy(inWire, k, cycles[k])
  }

  lemma OneMore(inWire: nat -> bool, results: seq<seq<seq<byte>>>, msgs: seq<Msg>, m: Msg)
    requires Answered(inWire, results, msgs)
    ensures var old', new' := Cycles(msgs), Cycles(msgs + [m]);
            if m.kind == READY
            then |new'| == |old'| + 1 && new'[|old'|] == [] && new'[..|old'|] == old'[..|old'| - 1] + [old'[|old'| - 1] + [m]]
            else |new'| == |old'| && new' == old'[..|old'| - 1] + [old'[|old'| - 1] + [m]]
    ensures m.kind != READY ==> Answered(inWire, results, msgs + [m])
    ensures KeptBytes(Cycles(msgs)[|Cycles(msgs)| - 1] + [m])
            == KeptBytes(Cycles(msgs)[|Cycles(msgs)| - 1]) + if Kept(m.kind) then FrameBytes(m) else []
  {
    assert (msgs + [m])[..|msgs|] == msgs;
    var last := Cycles(msgs)[|Cycles(msgs)| - 1];
    assert (last + [m])[..|last|] == last;
  }

  /** A query is answered: the spans collected for it are its result. */
  lemma AnsweredOne(inWire: nat -> bool, results: seq<seq<seq<byte>>>, wire: seq<seq<byte>>, msgs: seq<Msg>, m: Msg)
    requires Answered(inWire, results, msgs) && m.kind == READY
    requires Concat(wire) == KeptBy(inWire, |results|, Cycles(msgs)[|results|])
    ensures Answered(inWire, results + [wire], msgs + [m]) && Cycles(msgs + [m])[|results| + 1] == []
  {
    OneMore(inWire, results, msgs, m);
    var old', new', n := Cycles(msgs), Cycles(msgs + [m]), |results|;
    hide Cycles;
    assert KeptBytes(old'[n]) + [] == KeptBytes(old'[n]);
    hide KeptBytes, FrameBytes;
    var all := results + [wire];
    forall k | 0 <= k < |all| ensures Concat(all[k]) == KeptBy(inWire, k, new'[k]) {
      assert new'[k] == new'[..n + 1][k];
      if k < n { assert all[k] == results[k] && new'[k] == old'[k]; } else { assert all[k] == wire && new'[k] == old'[n] + [m]; }
    }
  }

  /** The framer's buffer and the spans of the query whose answer is being read; `mem` is every array buffer
      there is. `inWire`: which of the queries on this connection, in order, are in wire mode. `results`: what
      was handed out for those that are answered. */
  class WireReader {
    const inWire: nat -> bool
    var mem: seq<seq<byte>>
    var view: View
    var wire: seq<seq<byte>>
    var open: Option<View>
    var results: seq<seq<seq<byte>>>
    /** All that arrived. */
    ghost var stream: seq<byte>

    ghost predicate Valid()
      reads this
    {
      && Inside(mem, view)
      && (open.Some? ==> Inside(mem, open.value))
      && !Split(stream).bad && At(mem, view) == Split(stream).rest
      && Collecting(Split(stream).msgs)
    }

    /** Every answered query has its frames, and the one being read those that came so far. */
    ghost predicate Collecting(msgs: seq<Msg>)
      requires open.Some? ==> Inside(mem, open.value)
      reads this
    {
      Answered(inWire, results, msgs) && Collected() == KeptBy(inWire, |results|, Cycles(msgs)[|results|])
    }

    /** What is kept: the closed spans and the open one. */
    ghost function Collected(): seq<byte>
      requires open.Some? ==> Inside(mem, open.value)
      reads this
    {
      Concat(wire) + if open.Some? then At(mem, open.value) else []
    }

    constructor (inWire: nat -> bool)
      ensures Valid() && stream == [] && wire == [] && results == [] && this.inWire == inWire
    {
      this.inWire := inWire;
      mem, view, wire, open, results, stream := [[]], View(0, 0, 0), [], None, [], [];
    }

    /** Bytes come to stand in memory: in a buffer of their own, or right behind what the last one holds. */
    method Place(bytes: seq<byte>, behind: bool) returns (v: View)
      modifies this`mem
      ensures Extends(old(mem), mem) && Inside(mem, v) && At(mem, v) == bytes
    {
      if behind && |mem| > 0 {
        var last := |mem| - 1;
        v := View(last, |mem[last]|, |mem[last]| + |bytes|);
        mem := mem[last := mem[last] + bytes];
      } else {
        v := View(|mem|, 0, |bytes|);
        mem := mem + [bytes];
      }
    }

    /** The framer's push: false where it throws. `behind`: where the joined bytes are put. */
    method Push(chunk: View, behind: bool) returns (ok: bool, out: seq<(byte, View)>)
      requires Inside(mem, view) && Inside(mem, chunk)
      modifies this`mem, this`view
      ensures Extends(old(mem), mem)
      ensures var f := Split(old(At(mem, view)) + old(At(mem, chunk)));
              ok == !f.bad && (ok ==> Inside(mem, view) && Bodies(mem, out, f.msgs) && At(mem, view) == f.rest)
    {
      hide Split, Bodies;
      var all := chunk;
      if view.hi - view.lo > 0 {
        all := Place(At(mem, view) + At(mem, chunk), behind);
      } else {
        assert At(mem, view) + At(mem, chunk) == At(mem, chunk);
      }
      assert At(mem, all) == old(At(mem, view)) + old(At(mem, chunk));
      var off;
      ok, out, off := Frames(mem, all);
      if !ok { return; }
      view := if off == all.hi then View(0, 0, 0) else View(all.buf, off, all.hi);
    }

    /** One message: a frame that its query keeps extends the open span if it stands right behind it; else the
        span is closed and a new one opened. */
    method Keep(kind: byte, body: View, ghost m: Msg)
      requires Inside(mem, view) && (open.Some? ==> Inside(mem, open.value)) && Body(mem, (kind, body), m)
      modifies this`wire, this`open
      ensures (open.Some? ==> Inside(mem, open.value))
      ensures Collected() == old(Collected()) + if inWire(|results|) && Kept(kind) then FrameBytes(m) else []
    {
      if !inWire(|results|) || !Kept(kind) {
        assert Collected() + [] == Collected();
        return;
      }
      ghost var before := Collected();
      var start, end := body.lo - 5, body.hi;
      if open.Some? && open.value.buf == body.buf && start == open.value.hi {
        ghost var span := At(mem, open.value);
        assert mem[body.buf][open.value.lo..end] == span + mem[body.buf][start..end];
        Assoc(Concat(wire), span, FrameBytes(m));
        open := Some(open.value.(hi := end));
      } else {
        Close();
        assert Concat(wire) + [] == Concat(wire);
        open := Some(View(body.buf, start, end));
      }
    }

    method Close()
      requires open.Some? ==> Inside(mem, open.value)
      modifies this`wire, this`open
      ensures open.None? && Concat(wire) == old(Collected())
    {
      if open.Some? {
        assert (wire + [At(mem, open.value)])[..|wire|] == wire;
        wire := wire + [At(mem, open.value)];
        open := None;
      } else {
        assert Concat(wire) + [] == Concat(wire);
      }
    }

    /** ReadyForQuery: the open span is closed, and what is handed out for the query is every kept frame of its
        own, in order, and nothing of the queries before and behind it. */
    method Settle(ghost msgs: seq<Msg>, ghost m: Msg)
      requires Inside(mem, view) && (open.Some? ==> Inside(mem, open.value)) && Collecting(msgs) && m.kind == READY
      modifies this`wire, this`open, this`results
      ensures open.None? && Collecting(msgs + [m])
      ensures |results| == |old(results)| + 1 && results[..|old(results)|] == old(results)
      ensures Concat(results[|old(results)|]) == KeptBy(inWire, |old(results)|, Cycles(msgs)[|old(results)|])
    {
      hide Cycles, KeptBytes;
      Close();
      AnsweredOne(inWire, results, wire, msgs, m);
      assert KeptBytes([]) == [] by { NothingKept(); }
      results, wire := results + [wire], [];
      assert Collected() == [];
    }

    method Handle(kind: byte, body: View, ghost msgs: seq<Msg>, ghost m: Msg)
      requires Inside(mem, view) && (open.Some? ==> Inside(mem, open.value)) && Collecting(msgs) && Body(mem, (kind, body), m)
      modifies this`wire, this`open, this`results
      ensures (open.Some? ==> Inside(mem, open.value)) && Collecting(msgs + [m])
    {
      hide Cycles, KeptBytes, FrameBytes;
      OneMore(inWire, results, msgs, m);
      BodyKind(mem, (kind, body), m);
      hide Body;
      if kind == READY {
        Settle(msgs, m);
      } else {
        Keep(kind, body, m);
        if !inWire(|results|) || !Kept(kind) { assert Collected() + [] == Collected(); }
      }
    }

    lemma MoreBytes(b: seq<byte>)
      requires !Split(stream + b).bad
      ensures !Split(Split(stream).rest + b).bad
      ensures Split(stream + b).msgs == Split(stream).msgs + Split(Split(stream).rest + b).msgs
      ensures Split(stream + b).rest == Split(Split(stream).rest + b).rest
    {
      SplitMore(stream, b);
    }

    /** A chunk arrives: framed, and each message handled. A bad length takes the connection down. */
    method OnData(bytes: seq<byte>, behind: bool) returns (ok: bool)
      requires Valid()
      modifies this
      ensures !Split(old(stream) + bytes).bad ==> ok && Valid() && stream == old(stream) + bytes
      ensures !Split(old(stream) + bytes).bad ==> Answered(inWire, results, Split(stream).msgs)
    {
      hide Split, KeptBytes, Body, FrameBytes, Answered, Cycles;
      ghost var rest := Split(stream).rest;
      ghost var msgs := Split(rest + bytes).msgs;
      ghost var before := Split(stream).msgs;
      if !Split(stream + bytes).bad { MoreBytes(bytes); }
      var out;
      ok, out := Receive(bytes, behind);
      if !ok { return; }
      assert before + msgs[..0] == before;
      ghost var mem1, view1 := mem, view;
      for i := 0 to |out|
        invariant Inside(mem, view) && (open.Some? ==> Inside(mem, open.value))
        invariant mem == mem1 && view == view1 && stream == old(stream)
        invariant Bodies(mem, out, msgs)
        invariant Collecting(before + msgs[..i])
      {
        assert before + msgs[..i] + [msgs[i]] == before + msgs[..i + 1];
        Handle(out[i].0, out[i].1, before + msgs[..i], msgs[i]);
      }
      assert msgs[..|out|] == msgs;
      stream := stream + bytes;
    }

    /** The chunk is placed and pushed; what was collected stays. */
    method Receive(bytes: seq<byte>, behind: bool) returns (ok: bool, out: seq<(byte, View)>)
      requires Valid()
      modifies this`mem, this`view
      ensures var f := Split(Split(stream).rest + bytes);
              ok == !f.bad && (ok ==> Inside(mem, view) && Bodies(mem, out, f.msgs) && At(mem, view) == f.rest)
      ensures (open.Some? ==> Inside(mem, open.value)) && Collecting(Split(stream).msgs)
    {
      hide Split, KeptBytes, Body, FrameBytes, Answered, Cycles, Bodies, Extends;
      ghost var mem0 := mem;
      var chunk := Place(bytes, behind);
      StillAt(mem0, mem, view);
      if open.Some? { StillAt(mem0, mem, open.value); }
      ghost var mem1 := mem;
      ok, out := Push(chunk, behind);
      if open.Some? { StillAt(mem1, mem, open.value); }
    }
  }

  lemma NothingKept()
    ensures KeptBytes([]) == []
  {
  }
}
