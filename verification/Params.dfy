/** Parameter values of a Bind message: their text and binary forms, and the encoders that write them. */
module Params {
  import opened Bytes
  import opened Utf8
  import opened Int64
  import opened ArrayText
  import opened WriterClass
  import Calendar
  import TemporalText

  type double = s: seq<byte> | |s| == 8 witness [0, 0, 0, 0, 0, 0, 0, 0]
  type time = t: int | -Calendar.MAX_TIME <= t <= Calendar.MAX_TIME

  /** A number: its value if it is an integer, its String() text, its eight bytes. */
  datatype Num = Num(whole: Option<int>, shown: numeral, bytes: double)

  /** A JavaScript value. A Date is None when invalid; `Other` is a symbol or a function. */
  datatype Value = Null(undef: bool) | Buffer(b: seq<byte>) | Bool(truth: bool) | Number(n: Num) | BigInt(i: int) | Str(s: jstring)
                 | Date(t: Option<time>) | Array(elems: seq<Value>) | Object(id: nat) | Other(shown: jstring)

  /** JSON.stringify: None where it throws or has no text. */
  type Json = Value -> Option<jstring>

  predicate IsSafe(n: Num)
  {
    n.whole.Some? && -SAFE < n.whole.value < SAFE
  }

  lemma DecimalIsNumeral(v: int)
    ensures IsNumeral(Decimal(v))
  {
    var d := Decimal(v);
    assert d[0] != 78;
  }

  function DecimalNumeral(v: int): (r: numeral)
    ensures r == Decimal(v)
  {
    DecimalIsNumeral(v);
    Decimal(v)
  }

  /** String(n): the digits of a safe integer. */
  function Shown(n: Num): numeral
  {
    if IsSafe(n) then DecimalNumeral(n.whole.value) else n.shown
  }

  lemma NumeralIsAscii(s: numeral)
    ensures IsAscii(s)
  {
    forall i | 0 <= i < |s| ensures s[i] < 128 { assert NumeralChar(s[i]); }
  }

  function IsoText(t: time): (r: jstring)
    ensures IsAscii(r)
  {
    TemporalText.IsoIsPlain(t);
    TemporalText.Iso(t)
  }

  function HexDigit(n: nat): unit
    requires n < 16
  {
    if n < 10 then 48 + n else 87 + n
  }

  function Hex(b: seq<byte>): jstring
  {
    if b == [] then [] else [HexDigit(b[0] / 16), HexDigit(b[0] % 16)] + Hex(b[1..])
  }

  // ---- the text of an array ----

  /** The text inside the quotes of an element. */
  function QuotedText(json: Json, v: Value): Option<jstring>
  {
    match v
    case Date(t) => if t.Some? then Some(IsoText(t.value)) else None
    case Buffer(b) => Some([BACKSLASH, 120] + Hex(b))
    case Object(_) => json(v)
    case Str(s) => Some(s)
    case Other(shown) => Some(shown)
    case _ => None
  }

  function ElementOf(json: Json, v: Value): Option<Lit>
    decreases v, 1
  {
    match v
    case Null(_) => Some(Lit.Null)
    case Array(elems) => (match ElementsOf(json, elems) case None => None case Some(xs) => Some(Nested(xs)))
    case Number(n) => Some(Bare(Shown(n)))
    case BigInt(i) => Some(Bare(DecimalNumeral(i)))
    case Bool(b) => Some(Bare(if b then [116] else [102]))
    case _ => (match QuotedText(json, v) case None => None case Some(s) => Some(Quoted(s)))
  }

  /** The elements as they are printed; None where the text of one throws. */
  function ElementsOf(json: Json, elems: seq<Value>): (r: Option<seq<Lit>>)
    ensures r.Some? ==> |r.value| == |elems|
    decreases elems, 0
  {
    if elems == [] then Some([])
    else match ElementOf(json, elems[0])
      case None => None
      case Some(x) => (match ElementsOf(json, elems[1..]) case None => None case Some(xs) => Some([x] + xs))
  }

  /** The literal of an array. */
  function Literal(json: Json, elems: seq<Value>): Option<jstring>
  {
    match ElementsOf(json, elems)
    case None => None
    case Some(xs) => Some(Print(Nested(xs), COMMA))
  }

  lemma {:induction false} LitIsGood(json: Json, v: Value)
    ensures ElementOf(json, v).Some? ==> Good(ElementOf(json, v).value, COMMA)
    decreases v, 1
  {
    match v
    case Array(elems) => LitsAreGood(json, elems);
    case Number(n) => NumeralIsGood(Shown(n), COMMA);
    case BigInt(i) => NumeralIsGood(DecimalNumeral(i), COMMA);
    case _ =>
  }

  lemma {:induction false} LitsAreGood(json: Json, elems: seq<Value>)
    ensures ElementsOf(json, elems).Some? ==> AllGood(ElementsOf(json, elems).value, COMMA)
    decreases elems, 0
  {
    if elems != [] {
      LitIsGood(json, elems[0]);
      LitsAreGood(json, elems[1..]);
    }
  }

  /** The literal printed for any array of values, nested ones included, is parsed back to the texts of
      its elements in the same nesting, with nulls where there were nulls. */
  lemma LiteralRoundTrip(json: Json, elems: seq<Value>)
    requires ElementsOf(json, elems).Some?
    ensures Parse(Literal(json, elems).value, COMMA) == Trees(ElementsOf(json, elems).value)
  {
    LitsAreGood(json, elems);
    RoundTrip(ElementsOf(json, elems).value, COMMA);
  }

  /** The elements of an array one by one. */
  lemma {:induction false} ElementsAt(json: Json, elems: seq<Value>)
    ensures ElementsOf(json, elems).Some? <==> forall i :: 0 <= i < |elems| ==> ElementOf(json, elems[i]).Some?
    ensures ElementsOf(json, elems).Some? ==> forall i :: 0 <= i < |elems| ==> ElementsOf(json, elems).value[i] == ElementOf(json, elems[i]).value
  {
    if elems != [] {
      ElementsAt(json, elems[1..]);
      assert forall i :: 0 < i < |elems| ==> elems[i] == elems[1..][i - 1];
      assert ElementOf(json, elems[0]).Some? && ElementsOf(json, elems[1..]).Some? ==>
          ElementsOf(json, elems).value[1..] == ElementsOf(json, elems[1..]).value;
    }
  }

  // ---- one value on the wire ----

  /** What an encoder does with a value: it throws, or writes a length and bytes in a format (0 text, 1 binary). */
  datatype Encoded = Fails | Wrote(format: nat, wire: seq<byte>)

  function Framed(format: nat, b: seq<byte>): Encoded
  {
    match Lp(b)
    case None => Fails
    case Some(wire) => Wrote(format, wire)
  }

  function FramedText(s: Option<jstring>): Encoded
  {
    match s
    case None => Fails
    case Some(t) => Framed(0, Encode(t))
  }

  /** Text cannot hold a NUL. */
  function NoNul(s: jstring): Option<jstring>
  {
    if 0 in s then None else Some(s)
  }

  /** The text form of a value; a buffer goes out as it is. */
  function TextEnc(json: Json, v: Value): Encoded
  {
    match v
    case Null(_) => Wrote(0, I32(-1))
    case Buffer(b) => Framed(1, b)
    case Number(n) => Framed(0, Latin1(Shown(n)))
    case Str(s) => FramedText(NoNul(s))
    case Bool(b) => Wrote(0, I32(1) + [if b then 116 else 102])
    case Date(t) => if t.Some? then Framed(0, Latin1(IsoText(t.value))) else Fails
    case Array(elems) => FramedText(Literal(json, elems))
    case Object(_) => FramedText(json(v))
    case BigInt(i) => Framed(0, Latin1(Decimal(i)))
    case Other(shown) => FramedText(NoNul(shown))
  }

  predicate InRange(n: Num, lo: int, hi: int)
  {
    n.whole.Some? && lo <= n.whole.value <= hi
  }

  /** The microseconds since 2000 of a Date fit an int64. */
  function Micros(t: time): (v: int)
    ensures IsInt64(v)
  {
    SentMicros(t)
  }

  /** The binary form of a scalar of type `oid`, if the value fits the type. */
  function Binary(oid: nat, v: Value): Option<seq<byte>>
  {
    if oid == 16 && v.Bool? then Some(I32(1) + [if v.truth then 1 else 0])
    else if oid == 21 && v.Number? && InRange(v.n, -32768, 32767) then Some(I32(2) + TwosComplement(v.n.whole.value, 2))
    else if oid == 23 && v.Number? && InRange(v.n, -2147483648, 2147483647) then Some(I32(4) + I32(v.n.whole.value))
    else if oid == 20 && v.Number? && IsSafe(v.n) then Some(I32(8) + TwosComplement(v.n.whole.value, 8))
    else if oid == 20 && v.BigInt? && IsInt64(v.i) then Some(I32(8) + TwosComplement(v.i, 8))
    else if oid == 701 && v.Number? then Some(I32(8) + v.n.bytes)
    else if (oid == 1114 || oid == 1184) && v.Date? && v.t.Some? then Some(I32(8) + TwosComplement(Micros(v.t.value), 8))
    else None
  }

  /** Types with a binary encoder of their own. */
  predicate IsFast(oid: nat)
  {
    oid in {16, 21, 23, 20, 701, 1114, 1184}
  }

  // ---- binary arrays ----

  /** The element type of a built-in array type. */
  function ElemOid(oid: nat): Option<nat>
  {
    match oid
    case 1000 => Some(16) case 1005 => Some(21) case 1007 => Some(23) case 1028 => Some(26) case 1016 => Some(20)
    case 1021 => Some(700) case 1022 => Some(701) case 1231 => Some(1700) case 791 => Some(790) case 1009 => Some(25)
    case 1015 => Some(1043) case 1014 => Some(1042) case 1002 => Some(18) case 1003 => Some(19) case 199 => Some(114)
    case 3807 => Some(3802) case 1001 => Some(17) case 2951 => Some(2950) case 1182 => Some(1082) case 1183 => Some(1083)
    case 1115 => Some(1114) case 1185 => Some(1184) case 1187 => Some(1186) case 629 => Some(628) case 1017 => Some(600)
    case _ => None
  }

  /** What an element encoder does: bytes, no fit for the declared type, or an exception. */
  datatype Elem = Fits(wire: seq<byte>) | Mismatch | Throws

  function ElemEnc(oid: nat, v: Value): Elem
  {
    if v.Null? then Fits(I32(-1))
    else if (oid == 25 || oid == 1043) && v.Str? then
      if 0 in v.s then Mismatch else match Lp(Encode(v.s)) case None => Throws case Some(wire) => Fits(wire)
    else match Binary(oid, v)
      case None => Mismatch
      case Some(wire) => Fits(wire)
  }

  /** The elements in order, up to the first that does not fit. */
  function ElemsEnc(oid: nat, elems: seq<Value>): Elem
  {
    if elems == [] then Fits([])
    else match ElemsEnc(oid, elems[..|elems| - 1])
      case Fits(wire) =>
        (match ElemEnc(oid, elems[|elems| - 1]) case Fits(last) => Fits(wire + last) case other => other)
      case other => other
  }

  predicate HasNull(elems: seq<Value>)
  {
    exists i :: 0 <= i < |elems| && elems[i].Null?
  }

  /** The dimension header. */
  function ArrayHeader(oid: nat, elems: seq<Value>): seq<byte>
  {
    if elems == [] then I32(0) + I32(0) + I32(oid)
    else I32(1) + I32(if HasNull(elems) then 1 else 0) + I32(oid) + I32(|elems|) + I32(1)
  }

  function BinaryArray(oid: nat, elems: seq<Value>): Elem
  {
    if !FitsI32(|elems|) then Throws
    else match ElemsEnc(oid, elems)
      case Fits(wire) => (match Lp(ArrayHeader(oid, elems) + wire) case None => Throws case Some(all) => Fits(all))
      case other => other
  }

  /** A declared array type: binary, or the text literal as soon as an element does not fit. */
  function ArrayEnc(json: Json, oid: nat, v: Value): Encoded
  {
    if !v.Array? then TextEnc(json, v)
    else match BinaryArray(oid, v.elems)
      case Fits(wire) => Wrote(1, wire)
      case Mismatch => TextEnc(json, v)
      case Throws => Fails
  }

  /** A declared json type takes a string as it is, and the JSON text of anything else. */
  function JsonEnc(json: Json, v: Value): Encoded
  {
    FramedText(if v.Str? then Some(v.s) else json(v))
  }

  /** A value as a parameter of type `oid` under the generic plan. */
  function ParamEnc(json: Json, oid: nat, v: Value): Encoded
  {
    if IsFast(oid) then (match Binary(oid, v) case Some(wire) => Wrote(1, wire) case None => TextEnc(json, v))
    else if oid == 114 || oid == 3802 then JsonEnc(json, v)
    else match ElemOid(oid)
      case Some(elem) => ArrayEnc(json, elem, v)
      case None => TextEnc(json, v)
  }

  /** A null goes out as an SQL null for every type except json and jsonb. */
  lemma NullIsSqlNullIff(json: Json, oid: nat, u: bool)
    ensures ParamEnc(json, oid, Value.Null(u)) == Wrote(0, I32(-1)) <==> oid != 114 && oid != 3802
  {
    var s := json(Value.Null(u));
    if s.Some? && FitsI32(|Encode(s.value)|) {
      I32Inverse(|Encode(s.value)|);
      I32Inverse(-1);
      assert (I32(|Encode(s.value)|) + Encode(s.value))[..4] == I32(|Encode(s.value)|);
    }
  }

  const NULL_TEXT: jstring := [110, 117, 108, 108]

  /** For these two it is the JSON text null, which is a value to the server. */
  lemma JsonNullIsText(json: Json, oid: nat)
    requires (oid == 114 || oid == 3802) && json(Value.Null(false)) == Some(NULL_TEXT)
    ensures ParamEnc(json, oid, Value.Null(false)) == Wrote(0, I32(4) + [110, 117, 108, 108])
  {
    EncodeAscii(NULL_TEXT);
    assert Latin1(NULL_TEXT) == [110, 117, 108, 108];
    hide Encode, Latin1, I32, TextEnc, ArrayEnc, Binary;
  }
}
