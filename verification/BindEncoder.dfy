/** Bind, Execute and Sync of one statement: written by the generic writer, and by an encoder compiled for
    the statement's parameter types. */
module BindEncoder {
  import opened Bytes
  import opened Utf8
  import opened Int64
  import opened WriterClass
  import opened Params
  import opened ParamWriter

  /** One result format for all columns, or one for each. */
  datatype ResultFormat = One(f: int) | PerColumn(fs: seq<int>)

  // ---- the bytes ----

  const EXECUTE: seq<byte> := [69] + I32(9) + ([0] + I32(0))
  const SYNC: seq<byte> := [83] + I32(4)

  /** One 16-bit slot for each number. */
  function Slots(fs: seq<nat>): (r: seq<byte>)
    ensures |r| == 2 * |fs|
  {
    if fs == [] then [] else Slots(fs[..|fs| - 1]) + I16(fs[|fs| - 1])
  }

  predicate IsI16(n: int)
  {
    0 <= n < 65536
  }

  function Codes(rf: ResultFormat): seq<int>
  {
    match rf
    case One(f) => [f]
    case PerColumn(fs) => fs
  }

  function Naturals(ns: seq<int>): (r: seq<nat>)
    requires forall i :: 0 <= i < |ns| ==> ns[i] >= 0
    ensures |r| == |ns| && forall i :: 0 <= i < |ns| ==> r[i] == ns[i]
  {
    seq(|ns|, i requires 0 <= i < |ns| => ns[i])
  }

  predicate GoodCodes(rf: ResultFormat)
  {
    |Codes(rf)| < 65536 && forall i :: 0 <= i < |Codes(rf)| ==> IsI16(Codes(rf)[i])
  }

  function ResultBytes(rf: ResultFormat): seq<byte>
    requires GoodCodes(rf)
  {
    I16(|Codes(rf)|) + Slots(Naturals(Codes(rf)))
  }

  /** The formats that the parameters are written in. */
  function Formats(json: Json, oids: seq<nat>, vals: seq<Value>): (r: seq<nat>)
    requires |oids| == |vals|
    ensures |r| == |vals|
  {
    if vals == [] then []
    else
      var k := |vals| - 1;
      Formats(json, oids[..k], vals[..k]) + [match ParamEnc(json, oids[k], vals[k]) case Fails => 0 case Wrote(format, _) => format]
  }

  /** The lengths and bytes of the parameters, one after the other. */
  function Values(json: Json, oids: seq<nat>, vals: seq<Value>): Option<seq<byte>>
    requires |oids| == |vals|
  {
    if vals == [] then Some([])
    else
      var k := |vals| - 1;
      match (Values(json, oids[..k], vals[..k]), ParamEnc(json, oids[k], vals[k]))
      case (Some(wire), Wrote(_, last)) => Some(wire + last)
      case _ => None
  }

  /** Portal, statement and the number of parameters. */
  function Head(name: jstring, n: nat): seq<byte>
  {
    [0] + Encode(name) + [0] + I16(n)
  }

  function Message(kind: byte, payload: seq<byte>): Option<seq<byte>>
  {
    if FitsI32(|payload| + 4) then Some([kind] + I32(|payload| + 4) + payload) else None
  }

  /** Head, formats, their number again, values, result formats. */
  function Payload(name: jstring, formats: seq<nat>, wire: seq<byte>, rf: ResultFormat): seq<byte>
    requires GoodCodes(rf)
  {
    Head(name, |formats|) + (Slots(formats) + (I16(|formats|) + wire + ResultBytes(rf)))
  }

  /** The whole cycle, or None where serialization throws. */
  function Cycle(json: Json, name: jstring, oids: seq<nat>, vals: seq<Value>, rf: ResultFormat): Option<seq<byte>>
    requires |oids| == |vals|
  {
    if |vals| > 65535 || !GoodCodes(rf) then None
    else match Values(json, oids, vals)
      case None => None
      case Some(wire) =>
        match Message(66, Payload(name, Formats(json, oids, vals), wire, rf))
        case None => None
        case Some(bind) => Some(bind + EXECUTE + SYNC)
  }

  // ---- slots ----

  lemma {:induction false} SlotsAppend(a: seq<nat>, b: seq<nat>)
    ensures Slots(a + b) == Slots(a) + Slots(b)
    decreases |b|
  {
    if b == [] {
      assert a + b == a;
    } else {
      var k := |b| - 1;
      assert (a + b)[..|a + b| - 1] == a + b[..k];
      SlotsAppend(a, b[..k]);
      Assoc(Slots(a), Slots(b[..k]), I16(b[k]));
    }
  }

  lemma PatchedMiddle(a: seq<byte>, s: seq<byte>, z: seq<byte>, pos: nat, b: seq<byte>)
    requires pos + |b| <= |s|
    ensures Patched(a + s + z, |a| + pos, b) == a + Patched(s, pos, b) + z
  {
    var t := a + s + z;
    assert t[..|a| + pos] == a + s[..pos] && t[|a| + pos + |b|..] == s[pos + |b|..] + z;
  }

  lemma OneSlot(f: nat)
    ensures Slots([f]) == I16(f)
  {
    assert [f][..0] == [] && Slots([]) == [];
  }

  /** Patching slot `i` replaces that number. */
  lemma PatchedSlot(fs: seq<nat>, i: nat, f: nat)
    requires i < |fs|
    ensures Patched(Slots(fs), 2 * i, I16(f)) == Slots(fs[i := f])
  {
    var a, b := fs[..i], fs[i + 1..];
    assert fs == a + ([fs[i]] + b) && fs[i := f] == a + ([f] + b);
    SlotsAppend(a, [fs[i]] + b);
    SlotsAppend([fs[i]], b);
    SlotsAppend(a, [f] + b);
    SlotsAppend([f], b);
    OneSlot(f);
    OneSlot(fs[i]);
    hide Slots, I16;
    assert Patched(Slots(a) + I16(fs[i]) + Slots(b), |Slots(a)| + 0, I16(f)) == Slots(a) + I16(f) + Slots(b) by {
      PatchedMiddle(Slots(a), I16(fs[i]), Slots(b), 0, I16(f));
      assert Patched(I16(fs[i]), 0, I16(f)) == I16(f);
    }
    Assoc(Slots(a), I16(fs[i]), Slots(b));
    Assoc(Slots(a), I16(f), Slots(b));
  }

  function Zeros(n: nat): (r: seq<nat>)
    ensures |r| == n
  {
    seq(n, _ => 0)
  }

  // ---- messages ----

  /** A started message with its payload, once its length is patched in. */
  lemma MessagePatched(before: seq<byte>, kind: byte, kept: seq<byte>, payload: seq<byte>)
    requires |kept| == 4 && FitsI32(|payload| + 4)
    ensures Patched(before + [kind] + kept + payload, |before| + 1, I32(|payload| + 4)) == before + Message(kind, payload).value
  {
    hide I32;
    PatchedMiddle(before + [kind], kept, payload, 0, I32(|payload| + 4));
    assert Patched(kept, 0, I32(|payload| + 4)) == I32(|payload| + 4);
    Assoc(before, [kind], I32(|payload| + 4));
    Assoc(before, [kind] + I32(|payload| + 4), payload);
  }

  /** The message is open: its type and four kept bytes follow `before`, then `payload`. */
  ghost predicate Opened(c: seq<byte>, start: nat, before: seq<byte>, kind: byte, payload: seq<byte>)
  {
    start == |before| + 1 && exists kept: seq<byte> :: |kept| == 4 && c == before + [kind] + kept + payload
  }

  method Open(w: Writer, kind: byte)
    requires w.Valid()
    modifies w, w.buf
    ensures w.Valid() && (w.buf == old(w.buf) || fresh(w.buf))
    ensures Opened(w.Contents(), w.msgStart, old(w.Contents()), kind, []) && w.off == old(w.off) + 5
  {
    ghost var before := w.Contents();
    w.Start(kind);
    ghost var kept := w.Contents()[|before| + 1..];
    assert w.Contents() == w.Contents()[..|before| + 1] + kept == before + [kind] + kept + [];
  }

  lemma OpenedMore(c: seq<byte>, start: nat, before: seq<byte>, kind: byte, payload: seq<byte>, more: seq<byte>)
    requires Opened(c, start, before, kind, payload)
    ensures Opened(c + more, start, before, kind, payload + more) && before <= c
  {
    var kept: seq<byte> :| |kept| == 4 && c == before + [kind] + kept + payload;
    Assoc(before + [kind] + kept, payload, more);
    assert before <= before + [kind] + kept + payload;
  }

  method Close(w: Writer, ghost before: seq<byte>, kind: byte, ghost payload: seq<byte>) returns (ok: bool)
    requires w.Valid() && Opened(w.Contents(), w.msgStart, before, kind, payload)
    modifies w.buf
    ensures w.Valid() && before <= w.Contents() && ok == Message(kind, payload).Some?
    ensures ok ==> w.Contents() == before + Message(kind, payload).value
  {
    ghost var kept: seq<byte> :| |kept| == 4 && w.Contents() == before + [kind] + kept + payload;
    hide Patched, I32;
    assert before <= before + [kind] + kept + payload;
    if FitsI32(|payload| + 4) { MessagePatched(before, kind, kept, payload); }
    ok := w.End();
  }

  method WriteExecute(w: Writer) returns (ok: bool)
    requires w.Valid()
    modifies w, w.buf
    ensures w.Valid() && (w.buf == old(w.buf) || fresh(w.buf)) && ok && w.Contents() == old(w.Contents()) + EXECUTE
  {
    hide I32, Opened;
    ghost var before := w.Contents();
    Open(w, 69);
    OpenedMore(w.Contents(), w.msgStart, before, 69, [], Encode([]) + [0]);
    Assoc(w.Contents(), Encode([]), [0]);
    w.Cstr([]);
    OpenedMore(w.Contents(), w.msgStart, before, 69, [] + (Encode([]) + [0]), I32(0));
    var _ := w.Int32(0);
    assert [] + (Encode([]) + [0]) + I32(0) == [0] + I32(0);
    ok := Close(w, before, 69, [0] + I32(0));
    assert Message(69, [0] + I32(0)).value == EXECUTE;
  }

  method WriteSync(w: Writer) returns (ok: bool)
    requires w.Valid()
    modifies w, w.buf
    ensures w.Valid() && (w.buf == old(w.buf) || fresh(w.buf)) && ok && w.Contents() == old(w.Contents()) + SYNC
  {
    hide I32, Opened;
    ghost var before := w.Contents();
    Open(w, 83);
    ok := Close(w, before, 83, []);
    assert Message(83, []).value == SYNC;
  }

  // ---- the generic writer ----

  lemma FormatIsBit(json: Json, oid: nat, v: Value)
    ensures ParamEnc(json, oid, v).Wrote? ==> ParamEnc(json, oid, v).format <= 1
  {
    hide Binary, ElemOid, BinaryArray, Encode, Literal;
  }

  /** What is in the buffer while the parameters are written: `a` up to the format slots, the slots, the rest. */
  ghost predicate Shape(c: seq<byte>, a: seq<byte>, fs: seq<nat>, z: seq<byte>)
  {
    c == a + Slots(fs) + z
  }

  lemma ShapeMore(c: seq<byte>, a: seq<byte>, fs: seq<nat>, z: seq<byte>, more: seq<byte>)
    requires Shape(c, a, fs, z)
    ensures Shape(c + more, a, fs, z + more) && a <= c
  {
    Assoc(a + Slots(fs), z, more);
    assert a <= a + Slots(fs) + z;
  }

  lemma ShapePatched(c: seq<byte>, a: seq<byte>, fs: seq<nat>, z: seq<byte>, i: nat, f: nat)
    requires Shape(c, a, fs, z) && i < |fs|
    ensures |a| + 2 * i + 2 <= |c| && Shape(Patched(c, |a| + 2 * i, I16(f)), a, fs[i := f], z)
  {
    PatchedSlot(fs, i, f);
    hide Slots, I16;
    PatchedMiddle(a, Slots(fs), z, 2 * i, I16(f));
  }

  /** Patches the format of parameter `i`. */
  method PatchFormat(w: Writer, pos: nat, f: nat, ghost a: seq<byte>, ghost fs: seq<nat>, ghost z: seq<byte>, ghost i: nat)
    requires w.Valid() && Shape(w.Contents(), a, fs, z) && i < |fs| && pos == |a| + 2 * i && f < 65536
    modifies w.buf
    ensures w.Valid() && Shape(w.Contents(), a, fs[i := f], z)
  {
    ShapePatched(w.Contents(), a, fs, z, i, f);
    hide Shape, Patched, I16;
    var _ := w.Patch16(pos, f);
  }

  /** The slots after `i` parameters: their formats, and for the others what was there from the start. */
  function SlotsAfter(json: Json, oids: seq<nat>, vals: seq<Value>, initial: seq<nat>, i: nat): (r: seq<nat>)
    requires |oids| == |vals| == |initial| && i <= |vals|
    ensures |r| == |vals|
  {
    Formats(json, oids[..i], vals[..i]) + initial[i..]
  }

  lemma OneMore(json: Json, oids: seq<nat>, vals: seq<Value>, initial: seq<nat>, i: nat)
    requires |oids| == |vals| == |initial| && i < |vals|
    ensures SlotsAfter(json, oids, vals, initial, i)[i] == initial[i]
    ensures var e := ParamEnc(json, oids[i], vals[i]);
            SlotsAfter(json, oids, vals, initial, i + 1) == SlotsAfter(json, oids, vals, initial, i)[i := if e.Wrote? then e.format else 0]
    ensures Values(json, oids[..i + 1], vals[..i + 1]) ==
              match (Values(json, oids[..i], vals[..i]), ParamEnc(json, oids[i], vals[i]))
              case (Some(wire), Wrote(_, last)) => Some(wire + last)
              case _ => None
  {
    hide ParamEnc;
    assert oids[..i + 1][..i] == oids[..i] && vals[..i + 1][..i] == vals[..i];
  }

  lemma {:induction false} ValuesStuck(json: Json, oids: seq<nat>, vals: seq<Value>, i: nat)
    requires |oids| == |vals| && i <= |vals| && Values(json, oids[..i], vals[..i]).None?
    ensures Values(json, oids, vals).None?
    decreases |vals| - i
  {
    hide ParamEnc;
    if i == |vals| {
      assert oids[..i] == oids && vals[..i] == vals;
    } else {
      OneMore(json, oids, vals, Zeros(|vals|), i);
      ValuesStuck(json, oids, vals, i + 1);
    }
  }

  /** The parameters, each with its format patched in where it is not text. */
  method WriteParams(json: Json, w: Writer, fmtPos: nat, oids: seq<nat>, vals: seq<Value>, ghost a: seq<byte>, ghost z: seq<byte>)
    returns (ok: bool)
    requires w.Valid() && |oids| == |vals| && fmtPos == |a| && Shape(w.Contents(), a, Zeros(|vals|), z)
    modifies w`buf, w`off, w.buf
    ensures w.Valid() && (w.buf == old(w.buf) || fresh(w.buf)) && a <= w.Contents() && ok == Values(json, oids, vals).Some?
    ensures ok ==> Shape(w.Contents(), a, Formats(json, oids, vals), z + Values(json, oids, vals).value)
  {
    hide Formats, Values, Slots, ParamEnc, Shape;
    var n := |vals|;
    ghost var wire: seq<byte> := [];
    NoParams(json, oids, vals, Zeros(n));
    assert z + wire == z;
    for i := 0 to n
      invariant w.Valid() && (w.buf == old(w.buf) || fresh(w.buf)) && Values(json, oids[..i], vals[..i]) == Some(wire)
      invariant Shape(w.Contents(), a, SlotsAfter(json, oids, vals, Zeros(n), i), z + wire)
    {
      ghost var e := ParamEnc(json, oids[i], vals[i]);
      ghost var fs := SlotsAfter(json, oids, vals, Zeros(n), i);
      OneMore(json, oids, vals, Zeros(n), i);
      ghost var c := w.Contents();
      ShapeMore(c, a, fs, z + wire, []);
      var written, f := ParamInto(json, w, oids[i], vals[i]);
      if !written {
        ValuesStuck(json, oids, vals, i + 1);
        return false;
      }
      ShapeMore(c, a, fs, z + wire, e.wire);
      Assoc(z, wire, e.wire);
      wire := wire + e.wire;
      if f != 0 {
        FormatIsBit(json, oids[i], vals[i]);
        PatchFormat(w, fmtPos + i * 2, f, a, fs, z + wire, i);
      } else {
        assert fs[i := 0] == fs;
      }
    }
    AllParams(json, oids, vals, Zeros(n));
    ShapeMore(w.Contents(), a, Formats(json, oids, vals), z + wire, []);
    ok := true;
  }

  lemma NoParams(json: Json, oids: seq<nat>, vals: seq<Value>, initial: seq<nat>)
    requires |oids| == |vals| == |initial|
    ensures SlotsAfter(json, oids, vals, initial, 0) == initial && Values(json, oids[..0], vals[..0]) == Some([])
  {
  }

  lemma AllParams(json: Json, oids: seq<nat>, vals: seq<Value>, initial: seq<nat>)
    requires |oids| == |vals| == |initial|
    ensures SlotsAfter(json, oids, vals, initial, |vals|) == Formats(json, oids, vals) && oids[..|vals|] == oids && vals[..|vals|] == vals
  {
    hide ParamEnc, Formats;
    assert oids[..|vals|] == oids && vals[..|vals|] == vals;
  }

  method ReserveSlots(w: Writer, n: nat)
    requires w.Valid()
    modifies w`buf, w`off, w.buf
    ensures w.Valid() && (w.buf == old(w.buf) || fresh(w.buf)) && w.Contents() == old(w.Contents()) + Slots(Zeros(n))
  {
    ghost var before := w.Contents();
    assert Zeros(0) == [] && before + Slots(Zeros(0)) == before;
    for i := 0 to n
      invariant w.Valid() && (w.buf == old(w.buf) || fresh(w.buf)) && w.Contents() == before + Slots(Zeros(i))
    {
      assert Zeros(i + 1)[..i] == Zeros(i);
      hide I16;
      Assoc(before, Slots(Zeros(i)), I16(0));
      var _ := w.Int16(0);
    }
  }

  lemma SlotsSnoc(fs: seq<nat>, f: nat)
    ensures Slots(fs + [f]) == Slots(fs) + I16(f)
  {
    assert (fs + [f])[..|fs|] == fs;
  }

  /** 16-bit numbers one by one; one that does not fit throws. */
  method WriteCodes(w: Writer, codes: seq<int>) returns (ok: bool)
    requires w.Valid()
    modifies w`buf, w`off, w.buf
    ensures w.Valid() && (w.buf == old(w.buf) || fresh(w.buf)) && old(w.Contents()) <= w.Contents()
    ensures ok == forall i :: 0 <= i < |codes| ==> IsI16(codes[i])
    ensures ok ==> w.Contents() == old(w.Contents()) + Slots(Naturals(codes))
  {
    ghost var before := w.Contents();
    ghost var fs: seq<nat> := [];
    assert before + Slots([]) == before;
    hide Slots, I16;
    for i := 0 to |codes|
      invariant (forall k :: 0 <= k < i ==> IsI16(codes[k])) && |fs| == i && forall k :: 0 <= k < i ==> fs[k] == codes[k]
      invariant w.Valid() && (w.buf == old(w.buf) || fresh(w.buf)) && w.Contents() == before + Slots(fs)
    {
      ok := w.Int16(codes[i]);
      if !ok { return; }
      SlotsSnoc(fs, codes[i]);
      Assoc(before, Slots(fs), I16(codes[i]));
      fs := fs + [codes[i]];
    }
    assert fs == Naturals(codes);
    ok := true;
  }

  /** The result formats; a code that is no 16-bit number throws. */
  method WriteResultFormats(w: Writer, rf: ResultFormat) returns (ok: bool)
    requires w.Valid()
    modifies w`buf, w`off, w.buf
    ensures w.Valid() && (w.buf == old(w.buf) || fresh(w.buf)) && old(w.Contents()) <= w.Contents() && ok == GoodCodes(rf)
    ensures ok ==> w.Contents() == old(w.Contents()) + ResultBytes(rf)
  {
    hide I16, Slots, Naturals;
    ghost var before := w.Contents();
    var codes := Codes(rf);
    ok := w.Int16(|codes|);
    if !ok { return; }
    ok := WriteCodes(w, codes);
    if ok { Assoc(before, I16(|codes|), Slots(Naturals(codes))); }
  }

  /** Type, kept length, portal, statement and count; `a` is what the format slots stand after. */
  method WriteHead(w: Writer, name: jstring, n: nat) returns (fmtPos: nat, ghost a: seq<byte>)
    requires w.Valid() && n < 65536
    modifies w, w.buf
    ensures w.Valid() && (w.buf == old(w.buf) || fresh(w.buf)) && w.Contents() == a && fmtPos == |a|
    ensures Opened(a, w.msgStart, old(w.Contents()), 66, Head(name, n))
  {
    hide Opened, I16, Encode;
    ghost var before := w.Contents();
    Open(w, 66);
    ghost var c := w.Contents();
    Assoc(c, Encode([]), [0]);
    w.Cstr([]);
    Assoc(w.Contents(), Encode(name), [0]);
    w.Cstr(name);
    var _ := w.Int16(n);
    ghost var more := (Encode([]) + [0]) + (Encode(name) + [0]) + I16(n);
    Assoc(c, Encode([]) + [0], Encode(name) + [0]);
    Assoc(c, (Encode([]) + [0]) + (Encode(name) + [0]), I16(n));
    OpenedMore(c, w.msgStart, before, 66, [], more);
    assert [] + more == Head(name, n) by { assert Encode([]) == []; }
    a := w.Contents();
    fmtPos := w.Mark();
  }

  /** After the parameters: the result formats and the length. */
  method FinishBind(w: Writer, name: jstring, rf: ResultFormat,
                    ghost before: seq<byte>, ghost a: seq<byte>, ghost formats: seq<nat>, ghost wire: seq<byte>) returns (ok: bool)
    requires w.Valid() && Shape(w.Contents(), a, formats, I16(|formats|) + wire)
    requires Opened(a, w.msgStart, before, 66, Head(name, |formats|))
    modifies w`buf, w`off, w.buf
    ensures w.Valid() && (w.buf == old(w.buf) || fresh(w.buf)) && before <= w.Contents()
    ensures ok == (GoodCodes(rf) && Message(66, Payload(name, formats, wire, rf)).Some?)
    ensures ok ==> w.Contents() == before + Message(66, Payload(name, formats, wire, rf)).value
  {
    hide I16, Slots, Message, Head, Opened;
    ghost var z := I16(|formats|) + wire;
    ShapeMore(w.Contents(), a, formats, z, []);
    OpenedMore(a, w.msgStart, before, 66, Head(name, |formats|), []);
    ok := WriteResultFormats(w, rf);
    if !ok { return; }
    hide ResultBytes;
    Assoc(a, Slots(formats), z);
    Assoc(a, Slots(formats) + z, ResultBytes(rf));
    Assoc(Slots(formats), z, ResultBytes(rf));
    OpenedMore(a, w.msgStart, before, 66, Head(name, |formats|), Slots(formats) + (z + ResultBytes(rf)));
    ok := Close(w, before, 66, Payload(name, formats, wire, rf));
  }

  /** Bind with write-through parameters, under the generic plan for the types `oids`. */
  method WriteBindWith(json: Json, w: Writer, name: jstring, oids: seq<nat>, params: seq<Value>, rf: ResultFormat) returns (ok: bool)
    requires w.Valid() && |oids| == |params|
    modifies w, w.buf
    ensures w.Valid() && (w.buf == old(w.buf) || fresh(w.buf)) && old(w.Contents()) <= w.Contents()
    ensures var wire := Values(json, oids, params);
            && ok == (|params| <= 65535 && wire.Some? && GoodCodes(rf) && Message(66, Payload(name, Formats(json, oids, params), wire.value, rf)).Some?)
            && (ok ==> w.Contents() == old(w.Contents()) + Message(66, Payload(name, Formats(json, oids, params), wire.value, rf)).value)
  {
    hide I16, Slots, Message, Head, Formats, Values, Payload, GoodCodes;
    var n := |params|;
    ghost var before := w.Contents();
    if n > 65535 { return false; }
    var fmtPos, a := WriteHead(w, name, n);
    OpenedMore(a, w.msgStart, before, 66, Head(name, n), []);
    ReserveSlots(w, n);
    var _ := w.Int16(n);
    ok := WriteParams(json, w, fmtPos, oids, params, a, I16(n));
    if !ok { return; }
    ok := FinishBind(w, name, rf, before, a, Formats(json, oids, params), Values(json, oids, params).value);
  }

  /** Bind, Execute and Sync: what the connection writes without a compiled encoder. */
  method WriteCycle(json: Json, w: Writer, name: jstring, oids: seq<nat>, params: seq<Value>, rf: ResultFormat) returns (ok: bool)
    requires w.Valid() && |oids| == |params|
    modifies w, w.buf
    ensures w.Valid() && (w.buf == old(w.buf) || fresh(w.buf)) && old(w.Contents()) <= w.Contents()
    ensures ok == Cycle(json, name, oids, params, rf).Some?
    ensures ok ==> w.Contents() == old(w.Contents()) + Cycle(json, name, oids, params, rf).value
  {
    hide Payload, Message, Values, Formats, GoodCodes;
    ghost var before := w.Contents();
    ok := WriteBindWith(json, w, name, oids, params, rf);
    if !ok { return; }
    ghost var bind := w.Contents()[|before|..];
    Assoc(before, bind, EXECUTE);
    Assoc(before, bind + EXECUTE, SYNC);
    var _ := WriteExecute(w);
    var _ := WriteSync(w);
  }

  // ---- the compiled encoder ----

  /** The constants of a compiled encoder: everything before the values with the intended formats baked in,
      the result formats, Execute and Sync, the offset of the format slots, the types of one row's columns
      and the number of rows. */
  datatype Encoder = Encoder(prefix: seq<byte>, resultFmt: seq<byte>, execSync: seq<byte>, fmt0: nat, columns: seq<nat>, rowCount: nat)

  datatype Compiled = Refused | TooWide | Made(e: Encoder)

  /** The types repeat after `p` columns. */
  predicate IsPeriod(oids: seq<nat>, p: nat)
  {
    1 <= p <= |oids| && |oids| % p == 0 && forall i :: p <= i < |oids| ==> oids[i] == oids[i - p]
  }

  const MAX_PERIOD := 64

  /** The smallest row width. */
  method ParamPeriod(oids: seq<nat>) returns (p: nat)
    requires oids != []
    ensures IsPeriod(oids, p) && forall q: nat :: q < p ==> !IsPeriod(oids, q)
  {
    var n := |oids|;
    p := 1;
    while p < n
      invariant 1 <= p <= n && forall q: nat :: q < p ==> !IsPeriod(oids, q)
    {
      if n % p == 0 {
        var i := p;
        while i < n && oids[i] == oids[i - p]
          invariant p <= i <= n && forall k :: p <= k < i ==> oids[k] == oids[k - p]
        {
          i := i + 1;
        }
        if i == n { return; }
      }
      p := p + 1;
    }
    assert n % n == 0 by { DivMod(n, n, 1, 0); }
  }

  /** Every column has the type of its place in the row. */
  lemma {:induction false} PeriodRepeats(oids: seq<nat>, p: nat, i: nat)
    requires IsPeriod(oids, p) && i < |oids|
    ensures oids[i] == oids[..p][i % p]
    decreases i
  {
    if i < p {
      DivMod(i, p, 0, i);
    } else {
      PeriodRepeats(oids, p, i - p);
      DivMod(i, p, (i - p) / p + 1, (i - p) % p);
    }
  }

  /** The formats that are intended: binary for the types with an encoder of their own. */
  function Baked(oids: seq<nat>): (r: seq<nat>)
    ensures |r| == |oids|
  {
    seq(|oids|, i requires 0 <= i < |oids| => if IsFast(oids[i]) then 1 else 0)
  }

  /** What the constants of an encoder for this statement are. */
  predicate EncoderFor(e: Encoder, name: jstring, oids: seq<nat>, rf: ResultFormat)
  {
    && |oids| < 65536 && GoodCodes(rf)
    && e.prefix == Head(name, |oids|) + Slots(Baked(oids)) + I16(|oids|)
    && e.fmt0 == |Head(name, |oids|)|
    && e.resultFmt == ResultBytes(rf) && e.execSync == EXECUTE + SYNC
    && Covers(e.columns, e.rowCount, oids)
  }

  /** The columns, row after row, have the types of the statement. */
  predicate Covers(columns: seq<nat>, rowCount: nat, oids: seq<nat>)
  {
    && rowCount * |columns| == |oids|
    && forall r: nat, c: nat :: r < rowCount && c < |columns| ==>
         Index(r, |columns|, c) < |oids| && oids[Index(r, |columns|, c)] == columns[c]
  }

  /** The parameter in column `c` of row `r`. */
  function Index(r: nat, p: nat, c: nat): nat
  {
    r * p + c
  }

  lemma RowsCover(oids: seq<nat>, p: nat, r: nat, c: nat)
    requires IsPeriod(oids, p) && r < |oids| / p && c < p
    ensures Index(r, p, c) < |oids| && oids[Index(r, p, c)] == oids[..p][c]
  {
    var k := |oids| / p;
    assert |oids| == p * k;
    assert (r + 1) * p <= k * p;
    PeriodRepeats(oids, p, r * p + c);
    DivMod(r * p + c, p, r, c);
  }

  /** Throws where the parameters or the result formats are too many or no 16-bit numbers; gives up on a row
      wider than 64 columns. */
  method CompileBindEncoder(name: jstring, oids: seq<nat>, rf: ResultFormat) returns (r: Compiled)
    ensures r.Refused? ==> |oids| > 65535 || !GoodCodes(rf)
    ensures r.TooWide? ==> |oids| > MAX_PERIOD && forall q: nat :: q <= MAX_PERIOD ==> !IsPeriod(oids, q)
    ensures r.Made? ==> EncoderFor(r.e, name, oids, rf)
  {
    hide Slots, I16, ResultBytes, IsPeriod, GoodCodes, Baked, Covers;
    var n := |oids|;
    var p := 0;
    if n > 0 { p := ParamPeriod(oids); }
    if p > MAX_PERIOD {
      PeriodWithin(oids, p);
      return TooWide;
    }
    RowsAgree(oids, p);
    var rowCount := if p == 0 then 0 else n / p;
    var formats := BakedFormats(oids, p);
    if n > 65535 || !GoodCodes(rf) { return Refused; }
    var prefix := [0] + Encode(name) + [0] + I16(n) + Slots(formats) + I16(n);
    r := Made(Encoder(prefix, ResultBytes(rf), EXECUTE + SYNC, 1 + |Encode(name)| + 1 + 2, oids[..p], rowCount));
  }

  lemma PeriodWithin(oids: seq<nat>, p: nat)
    requires IsPeriod(oids, p)
    ensures p <= |oids|
  {
  }

  lemma RowsAgree(oids: seq<nat>, p: nat)
    requires if oids == [] then p == 0 else IsPeriod(oids, p)
    ensures p <= |oids| && Covers(oids[..p], if p == 0 then 0 else |oids| / p, oids)
  {
    if p > 0 {
      forall r: nat, c: nat | r < |oids| / p && c < p ensures Index(r, p, c) < |oids| && oids[Index(r, p, c)] == oids[..p][c] {
        RowsCover(oids, p, r, c);
      }
      assert |oids| == p * (|oids| / p);
    }
  }

  method BakedFormats(oids: seq<nat>, p: nat) returns (formats: seq<nat>)
    requires if oids == [] then p == 0 else IsPeriod(oids, p)
    ensures formats == Baked(oids)
  {
    formats := [];
    for i := 0 to |oids|
      invariant |formats| == i && forall k :: 0 <= k < i ==> formats[k] == Baked(oids)[k]
    {
      PeriodRepeats(oids, p, i);
      DivMod(i, p, i / p, i % p);
      formats := formats + [if IsFast(oids[i % p]) then 1 else 0];
    }
  }

  // ---- running it ----

  /** One column of the compiled body: a fast type inline, with its baked binary format patched back if the
      value does not fit; text inline; any other type by its encoder. */
  method Column(json: Json, w: Writer, oid: nat, x: Value, slot: nat, ghost a: seq<byte>, ghost fs: seq<nat>, ghost z: seq<byte>, ghost i: nat)
    returns (ok: bool)
    requires w.Valid() && Shape(w.Contents(), a, fs, z) && i < |fs| && slot == |a| + 2 * i && fs[i] == if IsFast(oid) then 1 else 0
    modifies w`buf, w`off, w.buf
    ensures w.Valid() && (w.buf == old(w.buf) || fresh(w.buf)) && a <= w.Contents() && ok == ParamEnc(json, oid, x).Wrote?
    ensures ok ==> Shape(w.Contents(), a, fs[i := ParamEnc(json, oid, x).format], z + ParamEnc(json, oid, x).wire)
  {
    hide Shape, ParamEnc;
    ghost var c := w.Contents();
    ghost var e := ParamEnc(json, oid, x);
    ShapeMore(c, a, fs, z, []);
    if e.Wrote? { ShapeMore(c, a, fs, z, e.wire); }
    var f;
    ok, f := ColumnValue(json, w, oid, x);
    if !ok { return; }
    FormatIsBit(json, oid, x);
    if f != (if IsFast(oid) then 1 else 0) { PatchFormat(w, slot, f, a, fs, z + e.wire, i); } else { assert fs[i := f] == fs; }
    ShapeMore(w.Contents(), a, fs[i := f], z + e.wire, []);
  }

  method ColumnValue(json: Json, w: Writer, oid: nat, x: Value) returns (ok: bool, f: nat)
    requires w.Valid()
    modifies w`buf, w`off, w.buf
    ensures w.Valid() && (w.buf == old(w.buf) || fresh(w.buf))
    ensures Did(ParamEnc(json, oid, x), ok, f, old(w.Contents()), w.Contents())
  {
    hide TextEnc, Binary, ArrayEnc, ElemOid, JsonEnc;
    if IsFast(oid) {
      var fits := FastColumn(w, oid, x);
      if fits { return true, 1; }
      ok, f := EncodeValueInto(json, w, x);
    } else if oid == 25 || oid == 1043 {
      TextIsText(json, oid, x);
      if x.Str? {
        hide Encode, Lp;
        if 0 in x.s { return false, 0; }
        ok := w.LpStr(x.s);
        f := 0;
      } else {
        ok, f := EncodeValueInto(json, w, x);
      }
    } else {
      ok, f := ParamInto(json, w, oid, x);
    }
  }

  lemma TextIsText(json: Json, oid: nat, x: Value)
    requires oid == 25 || oid == 1043
    ensures ParamEnc(json, oid, x) == TextEnc(json, x)
    ensures x.Str? ==> TextEnc(json, x) == FramedText(NoNul(x.s))
  {
    hide Encode;
  }

  /** The inlined types, written out as in the generated source. */
  method FastColumn(w: Writer, oid: nat, x: Value) returns (fits: bool)
    requires w.Valid() && IsFast(oid)
    modifies w`buf, w`off, w.buf
    ensures w.Valid() && (w.buf == old(w.buf) || fresh(w.buf)) && fits == Binary(oid, x).Some?
    ensures w.Contents() == old(w.Contents()) + if fits then Binary(oid, x).value else []
  {
    hide I32;
    ghost var before := w.Contents();
    fits := true;
    match oid {
      case 16 =>
        if !x.Bool? { return false; }
        Assoc(before, I32(1), [if x.truth then 1 else 0]);
        var _ := w.Int32(1);
        w.Byte(if x.truth then 1 else 0);
      case 21 =>
        if !x.Number? || !InRange(x.n, -32768, 32767) { return false; }
        Unsigned16(x.n.whole.value);
        Assoc(before, I32(2), I16(x.n.whole.value % 65536));
        var _ := w.Int32(2);
        var _ := w.Int16(x.n.whole.value % 65536);
      case 23 =>
        if !x.Number? || !InRange(x.n, -2147483648, 2147483647) { return false; }
        Assoc(before, I32(4), I32(x.n.whole.value));
        var _ := w.Int32(4);
        var _ := w.Int32(x.n.whole.value);
      case 20 =>
        if x.Number? && IsSafe(x.n) {
          Assoc(before, I32(8), TwosComplement(x.n.whole.value, 8));
          w.LpI64(x.n.whole.value);
        } else if x.BigInt? && IsInt64(x.i) {
          Assoc(before, I32(8), TwosComplement(x.i, 8));
          w.LpI64Big(x.i);
        } else {
          fits := false;
        }
      case 701 =>
        if !x.Number? { return false; }
        Assoc(before, I32(8), x.n.bytes);
        w.LpF8(x.n.bytes);
      case _ =>
        if !x.Date? || x.t.None? { return false; }
        MicrosInto(w, x.t.value);
    }
  }

  /** The compiled body: the constants and the rows. */
  method RunEncoder(json: Json, e: Encoder, w: Writer, v: seq<Value>, ghost name: jstring, ghost oids: seq<nat>, ghost rf: ResultFormat)
    returns (ok: bool)
    requires w.Valid() && EncoderFor(e, name, oids, rf) && |v| == |oids|
    modifies w, w.buf
    ensures w.Valid() && (w.buf == old(w.buf) || fresh(w.buf)) && old(w.Contents()) <= w.Contents()
    ensures ok == Cycle(json, name, oids, v, rf).Some?
    ensures ok ==> w.Contents() == old(w.Contents()) + Cycle(json, name, oids, v, rf).value
  {
    hide Slots, I16, Head, ResultBytes, GoodCodes, Covers, Formats, Values, Opened, Message, Payload;
    ghost var before := w.Contents();
    ghost var n := |oids|;
    Open(w, 66);
    ghost var c := w.Contents();
    var base := w.Mark();
    ghost var a := c + Head(name, n);
    Prefixed(c, Head(name, n), Slots(Baked(oids)), I16(n));
    w.BytesOf(e.prefix);
    OpenedMore(c, w.msgStart, before, 66, [], Head(name, n));
    assert [] + Head(name, n) == Head(name, n);
    OpenedMore(a, w.msgStart, before, 66, Head(name, n), []);
    ok := Rows(json, e, w, v, base + e.fmt0, oids, a, I16(n));
    if !ok { return; }
    ghost var wire := Values(json, oids, v).value;
    ok := FinishCompiled(w, e, before, a, name, Formats(json, oids, v), wire, rf);
  }

  lemma Prefixed(c: seq<byte>, head: seq<byte>, slots: seq<byte>, z: seq<byte>)
    ensures c + (head + slots + z) == c + head + slots + z
  {
  }

  method FinishCompiled(w: Writer, e: Encoder, ghost before: seq<byte>, ghost a: seq<byte>, ghost name: jstring, ghost formats: seq<nat>, ghost wire: seq<byte>, ghost rf: ResultFormat)
    returns (ok: bool)
    requires w.Valid() && Shape(w.Contents(), a, formats, I16(|formats|) + wire) && GoodCodes(rf)
    requires Opened(a, w.msgStart, before, 66, Head(name, |formats|)) && e.resultFmt == ResultBytes(rf) && e.execSync == EXECUTE + SYNC
    modifies w`buf, w`off, w.buf
    ensures w.Valid() && (w.buf == old(w.buf) || fresh(w.buf)) && before <= w.Contents()
    ensures ok == Message(66, Payload(name, formats, wire, rf)).Some?
    ensures ok ==> w.Contents() == before + (Message(66, Payload(name, formats, wire, rf)).value + EXECUTE + SYNC)
  {
    hide I16, Slots, Message, Head, Opened, ResultBytes, GoodCodes;
    ghost var z := I16(|formats|) + wire;
    w.BytesOf(e.resultFmt);
    Assoc(a, Slots(formats), z);
    Assoc(a, Slots(formats) + z, ResultBytes(rf));
    Assoc(Slots(formats), z, ResultBytes(rf));
    OpenedMore(a, w.msgStart, before, 66, Head(name, |formats|), Slots(formats) + (z + ResultBytes(rf)));
    ok := Close(w, before, 66, Payload(name, formats, wire, rf));
    if !ok { return; }
    ghost var bind := Message(66, Payload(name, formats, wire, rf)).value;
    Assoc(before, bind, EXECUTE + SYNC);
    Assoc(bind, EXECUTE, SYNC);
    w.BytesOf(e.execSync);
  }

  /** The loop over the rows, each column after the other; slots are addressed by row and column. */
  method Rows(json: Json, e: Encoder, w: Writer, v: seq<Value>, fb0: nat, ghost oids: seq<nat>, ghost a: seq<byte>, ghost z: seq<byte>)
    returns (ok: bool)
    requires w.Valid() && |v| == |oids| && Covers(e.columns, e.rowCount, oids)
    requires fb0 == |a| && Shape(w.Contents(), a, Baked(oids), z)
    modifies w`buf, w`off, w.buf
    ensures w.Valid() && (w.buf == old(w.buf) || fresh(w.buf)) && a <= w.Contents() && ok == Values(json, oids, v).Some?
    ensures ok ==> Shape(w.Contents(), a, Formats(json, oids, v), z + Values(json, oids, v).value)
  {
    hide Formats, Values, Slots, ParamEnc, Shape, Baked, Covers, SlotsAfter;
    var p := |e.columns|;
    ghost var wire: seq<byte> := [];
    ghost var initial := Baked(oids);
    NoParams(json, oids, v, initial);
    assert z + wire == z;
    RowTotal(e, oids);
    for r := 0 to e.rowCount
      invariant Index(r, p, 0) <= |v|
      invariant w.Valid() && (w.buf == old(w.buf) || fresh(w.buf)) && Values(json, oids[..Index(r, p, 0)], v[..Index(r, p, 0)]) == Some(wire)
      invariant Shape(w.Contents(), a, SlotsAfter(json, oids, v, initial, Index(r, p, 0)), z + wire)
    {
      RowBounds(e, oids, r);
      var vb, fb := r * p, fb0 + r * (p * 2);
      assert r * (p * 2) == 2 * (r * p);
      ok, wire := Row(json, e, w, v, vb, fb, r, oids, a, z, wire);
      if !ok { return; }
    }
    AllParams(json, oids, v, initial);
    ShapeMore(w.Contents(), a, Formats(json, oids, v), z + wire, []);
    ok := true;
  }

  lemma RowTotal(e: Encoder, oids: seq<nat>)
    requires Covers(e.columns, e.rowCount, oids)
    ensures Index(e.rowCount, |e.columns|, 0) == |oids|
  {
  }

  lemma RowBounds(e: Encoder, oids: seq<nat>, r: nat)
    requires Covers(e.columns, e.rowCount, oids) && r < e.rowCount
    ensures Index(r, |e.columns|, |e.columns|) == Index(r + 1, |e.columns|, 0) <= |oids|
  {
    assert (r + 1) * |e.columns| <= e.rowCount * |e.columns|;
  }

  method Row(json: Json, e: Encoder, w: Writer, v: seq<Value>, vb: nat, fb: nat, ghost r: nat,
             ghost oids: seq<nat>, ghost a: seq<byte>, ghost z: seq<byte>, ghost wire0: seq<byte>) returns (ok: bool, ghost wire: seq<byte>)
    requires w.Valid() && |v| == |oids| && Covers(e.columns, e.rowCount, oids) && r < e.rowCount
    requires vb == Index(r, |e.columns|, 0) && vb + |e.columns| <= |v| && fb == |a| + 2 * vb
    requires Values(json, oids[..vb], v[..vb]) == Some(wire0) && Shape(w.Contents(), a, SlotsAfter(json, oids, v, Baked(oids), vb), z + wire0)
    modifies w`buf, w`off, w.buf
    ensures w.Valid() && (w.buf == old(w.buf) || fresh(w.buf)) && a <= w.Contents()
    ensures !ok ==> Values(json, oids, v).None?
    ensures ok ==> Values(json, oids[..vb + |e.columns|], v[..vb + |e.columns|]) == Some(wire)
    ensures ok ==> Shape(w.Contents(), a, SlotsAfter(json, oids, v, Baked(oids), vb + |e.columns|), z + wire)
  {
    hide Formats, Values, Slots, ParamEnc, Shape, SlotsAfter, Covers, Baked;
    wire := wire0;
    ghost var initial := Baked(oids);
    ShapeMore(w.Contents(), a, SlotsAfter(json, oids, v, initial, vb), z + wire, []);
    for c := 0 to |e.columns|
      invariant w.Valid() && (w.buf == old(w.buf) || fresh(w.buf)) && a <= w.Contents() && Values(json, oids[..vb + c], v[..vb + c]) == Some(wire)
      invariant Shape(w.Contents(), a, SlotsAfter(json, oids, v, initial, vb + c), z + wire)
    {
      ghost var i := vb + c;
      ghost var x := ParamEnc(json, oids[i], v[i]);
      ghost var fs := SlotsAfter(json, oids, v, initial, i);
      ColumnType(e, oids, r, c, i);
      OneMore(json, oids, v, initial, i);
      ok := Column(json, w, e.columns[c], v[vb + c], fb + c * 2, a, fs, z + wire, i);
      if !ok {
        ValuesStuck(json, oids, v, i + 1);
        return;
      }
      Assoc(z, wire, x.wire);
      wire := wire + x.wire;
    }
    ok := true;
  }

  lemma ColumnType(e: Encoder, oids: seq<nat>, r: nat, c: nat, i: nat)
    requires Covers(e.columns, e.rowCount, oids) && r < e.rowCount && c < |e.columns| && i == Index(r, |e.columns|, 0) + c && i < |oids|
    ensures oids[i] == e.columns[c] && Baked(oids)[i] == if IsFast(e.columns[c]) then 1 else 0
  {
    assert i == Index(r, |e.columns|, c);
  }

  lemma Plain(b: seq<byte>)
    ensures [] + b == b
  {
  }

  /** The two ways to serialize a statement, on writers of their own. Unless the row is too wide to compile,
      they give the same bytes, or both throw: the compiled one when it is compiled or when it runs. */
  method EncodersAgree(json: Json, name: jstring, oids: seq<nat>, params: seq<Value>, rf: ResultFormat)
    returns (generic: Option<seq<byte>>, compiled: Option<seq<byte>>, wide: bool)
    requires |oids| == |params|
    ensures generic == Cycle(json, name, oids, params, rf)
    ensures !wide ==> compiled == generic
    ensures wide ==> |oids| > MAX_PERIOD
  {
    hide Values, Formats, Payload, Message, EncoderFor;
    var w := new Writer(4096);
    var ok := WriteCycle(json, w, name, oids, params, rf);
    if ok { Plain(Cycle(json, name, oids, params, rf).value); }
    generic := if ok then Some(w.buf[..w.off]) else None;
    var c := CompileBindEncoder(name, oids, rf);
    compiled, wide := None, c.TooWide?;
    if c.Made? {
      var x := new Writer(4096);
      ok := RunEncoder(json, c.e, x, params, name, oids, rf);
      if ok {
        Plain(Cycle(json, name, oids, params, rf).value);
        compiled := Some(x.buf[..x.off]);
      }
    }
  }
}
