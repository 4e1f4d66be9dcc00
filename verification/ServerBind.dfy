/** What the server reads from the bytes of one Bind, Execute, Sync cycle. */
module ServerBind {
  import opened Bytes
  import opened Utf8
  import opened Int64
  import opened WriterClass
  import opened Params
  import opened BindEncoder
  import opened ServerReads

  // ---- the messages ----

  /** Kind, payload, and what follows. */
  function MessageIn(b: seq<byte>): Option<(byte, seq<byte>, seq<byte>)>
  {
    if |b| < 5 then None
    else
      var end := 1 + ReadI32(b, 1);
      if 5 <= end <= |b| then Some((b[0], b[5..end], b[end..])) else None
  }

  /** The bytes up to a zero, and what follows it. */
  function CstrIn(b: seq<byte>): Option<(seq<byte>, seq<byte>)>
  {
    if b == [] then None
    else if b[0] == 0 then Some(([], b[1..]))
    else match CstrIn(b[1..])
      case None => None
      case Some((s, rest)) => Some(([b[0]] + s, rest))
  }

  function WordIn(b: seq<byte>): Option<(nat, seq<byte>)>
  {
    if |b| < 2 then None else Some((256 * (b[0] as int) + b[1], b[2..]))
  }

  function WordsIn(b: seq<byte>, n: nat): Option<(seq<nat>, seq<byte>)>
  {
    if n == 0 then Some(([], b))
    else match WordIn(b)
      case None => None
      case Some((w, rest)) => (match WordsIn(rest, n - 1) case None => None case Some((ws, end)) => Some(([w] + ws, end)))
  }

  function ValueIn(b: seq<byte>): Option<(Option<seq<byte>>, seq<byte>)>
  {
    if |b| < 4 then None
    else
      var len := ReadI32(b, 0);
      if len == -1 then Some((Option.None, b[4..]))
      else if 0 <= len && 4 + len <= |b| then Some((Some(b[4..4 + len]), b[4 + len..]))
      else None
  }

  function ValuesIn(b: seq<byte>, n: nat): Option<(seq<Option<seq<byte>>>, seq<byte>)>
  {
    if n == 0 then Some(([], b))
    else match ValueIn(b)
      case None => None
      case Some((v, rest)) => (match ValuesIn(rest, n - 1) case None => None case Some((vs, end)) => Some(([v] + vs, end)))
  }

  datatype Bind = Bind(portal: seq<byte>, name: seq<byte>, formats: seq<nat>, values: seq<Option<seq<byte>>>, results: seq<nat>)

  function BindIn(b: seq<byte>): Option<Bind>
  {
    match CstrIn(b)
    case None => None
    case Some((portal, b1)) =>
      match CstrIn(b1)
      case None => None
      case Some((name, b2)) => BindRest(portal, name, b2)
  }

  function BindRest(portal: seq<byte>, name: seq<byte>, b: seq<byte>): Option<Bind>
  {
    match Counted(b)
    case None => None
    case Some((formats, b1)) =>
      match WordIn(b1)
      case None => None
      case Some((n, b2)) =>
        match ValuesIn(b2, n)
        case None => None
        case Some((values, b3)) =>
          match Counted(b3)
          case None => None
          case Some((results, b4)) => if b4 == [] then Some(Bind(portal, name, formats, values, results)) else None
  }

  /** A number, and that many words. */
  function Counted(b: seq<byte>): Option<(seq<nat>, seq<byte>)>
  {
    match WordIn(b)
    case None => None
    case Some((n, rest)) => WordsIn(rest, n)
  }

  /** Portal and row limit. */
  function ExecuteIn(b: seq<byte>): Option<(seq<byte>, int)>
  {
    match CstrIn(b)
    case None => None
    case Some((portal, rest)) => if |rest| == 4 then Some((portal, ReadI32(rest, 0))) else None
  }

  /** A Bind, an Execute of the unnamed portal without a limit, a Sync, and nothing else. */
  function CycleIn(b: seq<byte>): Option<Bind>
  {
    match MessageIn(b)
    case None => None
    case Some((kind, bind, b1)) =>
      match MessageIn(b1)
      case None => None
      case Some((kind1, execute, b2)) =>
        if kind == 'B' as int && kind1 == 'E' as int && ExecuteIn(execute) == Some(([], 0)) && MessageIn(b2) == Some(('S' as int, [], []))
        then BindIn(bind) else None
  }

  // ---- the parts are read back ----

  lemma I16Word(n: nat, rest: seq<byte>)
    requires n < 65536
    ensures WordIn(I16(n) + rest) == Some((n, rest))
  {
    assert Be(n, 2) == Be(n / 256, 1) + [n % 256] && Be(n / 256, 1) == Be(n / 256 / 256, 0) + [n / 256 % 256];
    assert Be(n / 256 / 256, 0) == [];
    assert I16(n) == [n / 256, n % 256];
    assert (I16(n) + rest)[2..] == rest;
  }

  lemma {:induction false} SlotsWords(fs: seq<nat>, rest: seq<byte>, n: nat)
    requires forall i :: 0 <= i < |fs| ==> fs[i] < 65536
    ensures WordsIn(Slots(fs) + rest, |fs| + n)
            == match WordsIn(rest, n) case None => None case Some((ws, end)) => Some((fs + ws, end))
    decreases |fs|
  {
    hide I16, WordIn;
    if fs == [] {
      assert Slots(fs) + rest == rest;
      if WordsIn(rest, n).Some? { assert [] + WordsIn(rest, n).value.0 == WordsIn(rest, n).value.0; }
    } else {
      var k := |fs| - 1;
      I16Word(fs[k], rest);
      SlotsWords(fs[..k], I16(fs[k]) + rest, n + 1);
      Assoc(Slots(fs[..k]), I16(fs[k]), rest);
      if WordsIn(rest, n).Some? {
        assert fs == fs[..k] + [fs[k]];
        Assoc(fs[..k], [fs[k]], WordsIn(rest, n).value.0);
      }
    }
  }

  lemma CountedReads(fs: seq<nat>, rest: seq<byte>)
    requires |fs| < 65536 && forall i :: 0 <= i < |fs| ==> fs[i] < 65536
    ensures Counted(I16(|fs|) + Slots(fs) + rest) == Some((fs, rest))
  {
    hide I16, WordIn, Slots, WordsIn;
    var slots := Slots(fs);
    Assoc(I16(|fs|), slots, rest);
    I16Word(|fs|, slots + rest);
    AllWords(fs, rest);
  }

  lemma AllWords(fs: seq<nat>, rest: seq<byte>)
    requires forall i :: 0 <= i < |fs| ==> fs[i] < 65536
    ensures WordsIn(Slots(fs) + rest, |fs|) == Some((fs, rest))
  {
    SlotsWords(fs, rest, 0);
    hide Slots, WordIn;
    assert fs + [] == fs && WordsIn(rest, 0) == Some(([], rest));
    hide WordsIn;
  }

  /** The value that a parameter's bytes hold. */
  function Held(wire: seq<byte>): Option<seq<byte>>
    requires |wire| >= 4
  {
    if ReadI32(wire, 0) == -1 then Option.None else Some(wire[4..])
  }

  /** The server's value is the caller's. */
  ghost predicate ValueSays(json: Json, oid: nat, format: nat, value: Option<seq<byte>>, v: Value)
  {
    match value
    case None => v.Null?
    case Some(b) => PayloadSays(json, oid, format, b, v)
  }

  lemma WireReads(json: Json, oid: nat, format: nat, wire: seq<byte>, v: Value, rest: seq<byte>)
    requires WireSays(json, oid, format, wire, v)
    ensures |wire| >= 4 && ValueIn(wire + rest) == Some((Held(wire), rest)) && ValueSays(json, oid, format, Held(wire), v)
  {
    hide PayloadSays;
    var b := wire + rest;
    assert b[0..4] == wire[0..4];
    assert ReadI32(b, 0) == ReadI32(wire, 0);
    hide ReadI32;
    assert b[|wire|..] == rest && b[4..|wire|] == wire[4..];
  }

  function HeldValues(json: Json, oids: seq<nat>, vals: seq<Value>): (r: seq<Option<seq<byte>>>)
    requires |oids| == |vals| && Values(json, oids, vals).Some?
    ensures |r| == |vals|
  {
    if vals == [] then []
    else
      var k := |vals| - 1;
      ParamReads(json, oids[k], vals[k]);
      HeldValues(json, oids[..k], vals[..k]) + [Held(ParamEnc(json, oids[k], vals[k]).wire)]
  }

  lemma ValuesStep(json: Json, oids: seq<nat>, vals: seq<Value>)
    requires |oids| == |vals| && vals != [] && Values(json, oids, vals).Some?
    ensures var k := |vals| - 1; var e := ParamEnc(json, oids[k], vals[k]);
            && Values(json, oids[..k], vals[..k]).Some? && e.Wrote? && |e.wire| >= 4
            && Values(json, oids, vals).value == Values(json, oids[..k], vals[..k]).value + e.wire
            && HeldValues(json, oids, vals) == HeldValues(json, oids[..k], vals[..k]) + [Held(e.wire)]
            && Formats(json, oids, vals) == Formats(json, oids[..k], vals[..k]) + [e.format]
            && WireSays(json, oids[k], e.format, e.wire, vals[k])
  {
    hide ParamEnc, Held, PayloadSays;
    var k := |vals| - 1;
    ParamReads(json, oids[k], vals[k]);
  }

  lemma {:induction false} ValuesRead(json: Json, oids: seq<nat>, vals: seq<Value>, rest: seq<byte>, n: nat, vs: seq<Option<seq<byte>>>, end: seq<byte>)
    requires |oids| == |vals| && Values(json, oids, vals).Some? && ValuesIn(rest, n) == Some((vs, end))
    ensures ValuesIn(Values(json, oids, vals).value + rest, |vals| + n) == Some((HeldValues(json, oids, vals) + vs, end))
    decreases |vals|
  {
    hide *;
    if vals == [] {
      NoneSent(json, oids, vals);
      assert [] + rest == rest && [] + vs == vs;
    } else {
      var k := |vals| - 1;
      var e := ParamEnc(json, oids[k], vals[k]);
      ValuesStep(json, oids, vals);
      WireReads(json, oids[k], e.format, e.wire, vals[k], rest);
      NextValue(e.wire, rest, n, vs, end);
      var before, held := Values(json, oids[..k], vals[..k]).value, HeldValues(json, oids[..k], vals[..k]);
      ValuesRead(json, oids[..k], vals[..k], e.wire + rest, n + 1, [Held(e.wire)] + vs, end);
      Joined(before, e.wire, rest, held, Held(e.wire), vs, end, |vals| + n);
    }
  }

  lemma NoneSent(json: Json, oids: seq<nat>, vals: seq<Value>)
    requires |oids| == |vals| && vals == []
    ensures Values(json, oids, vals) == Some([]) && HeldValues(json, oids, vals) == []
  {
  }

  lemma Joined(before: seq<byte>, wire: seq<byte>, rest: seq<byte>, held: seq<Option<seq<byte>>>, x: Option<seq<byte>>, vs: seq<Option<seq<byte>>>, end: seq<byte>, n: nat)
    requires ValuesIn(before + (wire + rest), n) == Some((held + ([x] + vs), end))
    ensures ValuesIn((before + wire) + rest, n) == Some(((held + [x]) + vs, end))
  {
    hide *;
    Assoc(before, wire, rest);
    Assoc(held, [x], vs);
  }

  lemma NextValue(wire: seq<byte>, rest: seq<byte>, n: nat, vs: seq<Option<seq<byte>>>, end: seq<byte>)
    requires |wire| >= 4 && ValueIn(wire + rest) == Some((Held(wire), rest)) && ValuesIn(rest, n) == Some((vs, end))
    ensures ValuesIn(wire + rest, n + 1) == Some(([Held(wire)] + vs, end))
  {
    hide ValueIn, Held;
  }

  /** Every value the server got is the caller's. */
  ghost predicate AllSay(json: Json, oids: seq<nat>, formats: seq<nat>, held: seq<Option<seq<byte>>>, vals: seq<Value>)
  {
    && |oids| == |formats| == |held| == |vals|
    && (forall i :: 0 <= i < |vals| ==> formats[i] < 65536)
    && forall i :: 0 <= i < |vals| ==> ValueSays(json, oids[i], formats[i], held[i], vals[i])
  }

  lemma OneMoreSays(json: Json, oids: seq<nat>, formats: seq<nat>, held: seq<Option<seq<byte>>>, vals: seq<Value>, f: nat, x: Option<seq<byte>>)
    requires |oids| == |vals| && vals != [] && f < 65536
    requires var k := |vals| - 1; AllSay(json, oids[..k], formats, held, vals[..k]) && ValueSays(json, oids[k], f, x, vals[k])
    ensures AllSay(json, oids, formats + [f], held + [x], vals)
  {
    hide ValueSays;
    var k := |vals| - 1;
    forall i | 0 <= i < |vals| ensures ValueSays(json, oids[i], (formats + [f])[i], (held + [x])[i], vals[i]) {
      if i < k { assert oids[..k][i] == oids[i] && vals[..k][i] == vals[i]; }
    }
  }

  lemma NoneSay(json: Json, oids: seq<nat>, vals: seq<Value>)
    requires |oids| == |vals| && vals == []
    ensures AllSay(json, oids, Formats(json, oids, vals), [], vals)
  {
  }

  lemma {:induction false} ValuesSay(json: Json, oids: seq<nat>, vals: seq<Value>)
    requires |oids| == |vals| && Values(json, oids, vals).Some?
    ensures AllSay(json, oids, Formats(json, oids, vals), HeldValues(json, oids, vals), vals)
    decreases |vals|
  {
    hide *;
    if vals == [] {
      NoneSent(json, oids, vals);
      NoneSay(json, oids, vals);
    } else {
      var k := |vals| - 1;
      var e := ParamEnc(json, oids[k], vals[k]);
      ValuesStep(json, oids, vals);
      WireReads(json, oids[k], e.format, e.wire, vals[k], []);
      SmallFormat(json, oids[k], vals[k]);
      ValuesSay(json, oids[..k], vals[..k]);
      OneMoreSays(json, oids, Formats(json, oids[..k], vals[..k]), HeldValues(json, oids[..k], vals[..k]), vals, e.format, Held(e.wire));
    }
  }

  lemma SmallFormat(json: Json, oid: nat, v: Value)
    requires ParamEnc(json, oid, v).Wrote?
    ensures ParamEnc(json, oid, v).format < 65536
  {
    FormatIsBit(json, oid, v);
  }

  lemma {:induction false} CstrReads(s: seq<byte>, rest: seq<byte>)
    requires 0 !in s
    ensures CstrIn(s + [0] + rest) == Some((s, rest))
    decreases |s|
  {
    var b := s + [0] + rest;
    if s == [] {
      assert b[1..] == rest;
    } else {
      assert b[1..] == s[1..] + [0] + rest && b[0] == s[0];
      CstrReads(s[1..], rest);
      assert [s[0]] + s[1..] == s;
    }
  }

  lemma {:induction false} NoZeros(s: jstring)
    requires 0 !in s
    ensures 0 !in Encode(s)
  {
    if s != [] {
      NoZeros(s[Step(s)..]);
      assert 0 !in First(s) by { assert s[0] in s; }
      hide First;
    }
  }

  lemma MessageReads(kind: byte, payload: seq<byte>, rest: seq<byte>)
    requires FitsI32(|payload| + 4)
    ensures MessageIn([kind] + I32(|payload| + 4) + payload + rest) == Some((kind, payload, rest))
  {
    hide I32, ReadI32;
    var b := [kind] + I32(|payload| + 4) + payload + rest;
    assert b[1..] == I32(|payload| + 4) + (payload + rest);
    I32Reads(b, 1, |payload| + 4, payload + rest);
    assert b[5..5 + |payload|] == payload && b[5 + |payload|..] == rest;
  }

  // ---- the cycle ----

  lemma HeadReads(name: jstring, rest: seq<byte>)
    requires 0 !in name
    ensures BindIn([0] + (Encode(name) + [0] + rest)) == BindRest([], Encode(name), rest)
  {
    hide Encode, CstrIn, BindRest;
    NoZeros(name);
    var b := Encode(name) + [0] + rest;
    assert [] + [0] + b == [0] + b;
    CstrReads([], b);
    CstrReads(Encode(name), rest);
  }

  lemma RestReads(json: Json, name: seq<byte>, oids: seq<nat>, vals: seq<Value>, rf: ResultFormat)
    requires |oids| == |vals| < 65536 && Values(json, oids, vals).Some? && GoodCodes(rf)
    ensures var fs := Formats(json, oids, vals);
            BindRest([], name, I16(|fs|) + Slots(fs) + (I16(|fs|) + (Values(json, oids, vals).value + ResultBytes(rf))))
            == Some(Bind([], name, fs, HeldValues(json, oids, vals), Naturals(Codes(rf))))
  {
    var fs, wire := Formats(json, oids, vals), Values(json, oids, vals).value;
    var results := ResultBytes(rf);
    hide Values, Formats, HeldValues, Counted, I16, Slots, ValuesIn, WordIn, Naturals, Codes, GoodCodes, ResultBytes, ValueSays;
    ValuesSay(json, oids, vals);
    CountedReads(fs, I16(|fs|) + (wire + results));
    I16Word(|fs|, wire + results);
    NoValues(results);
    ValuesRead(json, oids, vals, results, 0, [], results);
    assert HeldValues(json, oids, vals) + [] == HeldValues(json, oids, vals);
    ResultsRead(rf);
  }

  lemma NoValues(rest: seq<byte>)
    ensures ValuesIn(rest, 0) == Some(([], rest))
  {
  }

  lemma PayloadReads(json: Json, name: jstring, oids: seq<nat>, vals: seq<Value>, rf: ResultFormat)
    requires |oids| == |vals| < 65536 && Values(json, oids, vals).Some? && GoodCodes(rf) && 0 !in name
    ensures BindIn(Payload(name, Formats(json, oids, vals), Values(json, oids, vals).value, rf))
            == Some(Bind([], Encode(name), Formats(json, oids, vals), HeldValues(json, oids, vals), Naturals(Codes(rf))))
  {
    var fs, wire := Formats(json, oids, vals), Values(json, oids, vals).value;
    var tail := I16(|fs|) + (wire + ResultBytes(rf));
    PayloadIs(name, fs, wire, rf);
    hide *;
    HeadReads(name, I16(|fs|) + Slots(fs) + tail);
    RestReads(json, Encode(name), oids, vals, rf);
  }

  lemma PayloadIs(name: jstring, fs: seq<nat>, wire: seq<byte>, rf: ResultFormat)
    requires GoodCodes(rf)
    ensures Payload(name, fs, wire, rf)
            == [0] + (Encode(name) + [0] + (I16(|fs|) + Slots(fs) + (I16(|fs|) + (wire + ResultBytes(rf)))))
  {
    hide Encode, I16, Slots, ResultBytes, GoodCodes;
    var a, n, slots := Encode(name), I16(|fs|), Slots(fs);
    Assoc(n, wire, ResultBytes(rf));
    var tail := n + (wire + ResultBytes(rf));
    assert Payload(name, fs, wire, rf) == [0] + a + [0] + n + (slots + tail);
    Assoc(n, slots, tail);
    Pieces(a, n, slots + tail);
  }

  lemma Pieces(a: seq<byte>, n: seq<byte>, z: seq<byte>)
    ensures [0] + a + [0] + n + z == [0] + (a + [0] + (n + z))
  {
  }

  lemma ResultsRead(rf: ResultFormat)
    requires GoodCodes(rf)
    ensures Counted(ResultBytes(rf)) == Some((Naturals(Codes(rf)), []))
  {
    hide I16, Slots, Counted;
    var codes := Naturals(Codes(rf));
    CountedReads(codes, []);
    assert I16(|codes|) + Slots(codes) + [] == ResultBytes(rf);
  }

  lemma TailReads()
    ensures MessageIn(EXECUTE + SYNC) == Some((69, [0] + I32(0), SYNC)) && MessageIn(SYNC) == Some((83, [], []))
    ensures ExecuteIn([0] + I32(0)) == Some(([], 0))
  {
    hide I32, ReadI32;
    MessageReads(69, [0] + I32(0), SYNC);
    MessageReads(83, [], []);
    assert [83] + I32(4) + [] + [] == SYNC;
    CstrReads([], I32(0));
    assert [] + [0] + I32(0) == [0] + I32(0);
    I32Reads(I32(0), 0, 0, []);
    assert I32(0)[0..] == I32(0) + [];
  }

  /** Whatever cycle is sent, the server reads it as one Bind of the named statement to the unnamed portal, an
      Execute of that portal without a row limit, and a Sync, and nothing more; every parameter, in its format and
      its type, is the caller's value, and the result formats are the ones that were asked for. */
  lemma CycleReads(json: Json, name: jstring, oids: seq<nat>, vals: seq<Value>, rf: ResultFormat)
    requires |oids| == |vals| && Cycle(json, name, oids, vals, rf).Some? && 0 !in name
    ensures match CycleIn(Cycle(json, name, oids, vals, rf).value)
            case None => false
            case Some(bind) =>
              && bind.portal == [] && Spells(bind.name, name)
              && |bind.formats| == |bind.values| == |vals|
              && (forall i :: 0 <= i < |vals| ==> ValueSays(json, oids[i], bind.formats[i], bind.values[i], vals[i]))
              && bind.results == (match rf case One(f) => [f] case PerColumn(fs) => fs)
  {
    hide Values, Formats, HeldValues, Encode, BindIn, MessageIn, ExecuteIn, Payload, I32, PayloadSays, Spells;
    var wire := Values(json, oids, vals).value;
    var payload := Payload(name, Formats(json, oids, vals), wire, rf);
    MessageReads(66, payload, EXECUTE + SYNC);
    Assoc([66] + I32(|payload| + 4) + payload, EXECUTE, SYNC);
    TailReads();
    PayloadReads(json, name, oids, vals, rf);
    ValuesSay(json, oids, vals);
    SpellsText(name);
  }
}
