/** What the server reads from a parameter: its text by the input functions, its bytes by the receive functions
    of PostgreSQL's types. */
module ServerReads {
  import opened Bytes
  import opened Utf8
  import opened Int64
  import opened ArrayText
  import opened WriterClass
  import opened Params
  import Calendar
  import Temporal
  import TemporalText

  // ---- types ----

  /** The types that have an array type here. */
  datatype PgType =
    | PgBool | PgBytea | PgChar | PgName | PgInt8 | PgInt2 | PgInt4 | PgText
    | PgOid | PgJson | PgPoint | PgLine | PgFloat4 | PgFloat8 | PgMoney | PgBpchar
    | PgVarchar | PgDate | PgTime | PgTimestamp | PgTimestamptz | PgInterval | PgNumeric | PgUuid
    | PgJsonb

  /** Their oids and those of their array types, as in the system catalog pg_type. */
  function Oids(t: PgType): (nat, nat)
  {
    match t
    case PgBool => (16, 1000) case PgBytea => (17, 1001) case PgChar => (18, 1002) case PgName => (19, 1003) case PgInt8 => (20, 1016)
    case PgInt2 => (21, 1005) case PgInt4 => (23, 1007) case PgText => (25, 1009) case PgOid => (26, 1028) case PgJson => (114, 199)
    case PgPoint => (600, 1017) case PgLine => (628, 629) case PgFloat4 => (700, 1021) case PgFloat8 => (701, 1022) case PgMoney => (790, 791)
    case PgBpchar => (1042, 1014) case PgVarchar => (1043, 1015) case PgDate => (1082, 1182) case PgTime => (1083, 1183) case PgTimestamp => (1114, 1115)
    case PgTimestamptz => (1184, 1185) case PgInterval => (1186, 1187) case PgNumeric => (1700, 1231) case PgUuid => (2950, 2951) case PgJsonb => (3802, 3807)
  }

  predicate IsType(oid: nat, t: PgType)
  {
    Oids(t).0 == oid
  }

  /** `oid` is the type of arrays of `elem`. */
  predicate IsArrayOf(oid: nat, elem: nat)
  {
    exists t :: Oids(t) == (elem, oid)
  }

  /** The driver's element types are the server's. */
  lemma ElementTypesAgree(oid: nat, elem: nat)
    ensures ElemOid(oid) == Some(elem) <==> IsArrayOf(oid, elem)
  {
    if ElemOid(oid) == Some(elem) {
      var t := match oid
        case 1000 => PgBool case 1001 => PgBytea case 1002 => PgChar case 1003 => PgName case 1016 => PgInt8
        case 1005 => PgInt2 case 1007 => PgInt4 case 1009 => PgText case 1028 => PgOid case 199 => PgJson
        case 1017 => PgPoint case 629 => PgLine case 1021 => PgFloat4 case 1022 => PgFloat8 case 791 => PgMoney
        case 1014 => PgBpchar case 1015 => PgVarchar case 1182 => PgDate case 1183 => PgTime case 1115 => PgTimestamp
        case 1185 => PgTimestamptz case 1187 => PgInterval case 1231 => PgNumeric case 2951 => PgUuid case _ => PgJsonb;
      assert Oids(t) == (elem, oid);
    }
    if IsArrayOf(oid, elem) {
      var t :| Oids(t) == (elem, oid);
      ListedElement(t);
    }
  }

  lemma ListedElement(t: PgType)
    ensures ElemOid(Oids(t).1) == Some(Oids(t).0)
  {
  }

  // ---- text ----

  function BoolIn(t: jstring): Option<bool>
  {
    if t == ['t' as int] then Some(true) else if t == ['f' as int] then Some(false) else None
  }

  predicate AllDigits(t: jstring)
  {
    t != [] && forall i :: 0 <= i < |t| ==> Temporal.IsDigit(t[i])
  }

  /** A decimal integer. */
  function IntIn(t: jstring): Option<int>
  {
    if t != [] && t[0] == '-' as int then (if AllDigits(t[1..]) then Some(-Temporal.Value(t[1..])) else None)
    else if AllDigits(t) then Some(Temporal.Value(t)) else None
  }

  function HexValue(c: unit): Option<nat>
  {
    if '0' as int <= c <= '9' as int then Some(c - '0' as int)
    else if 'a' as int <= c <= 'f' as int then Some(c - 'a' as int + 10)
    else None
  }

  function HexBytes(t: jstring): Option<seq<byte>>
  {
    if t == [] then Some([])
    else if |t| == 1 then None
    else match (HexValue(t[0]), HexValue(t[1]), HexBytes(t[2..]))
      case (Some(h), Some(l), Some(rest)) => if h < 16 && l < 16 then Some([16 * h + l] + rest) else None
      case _ => None
  }

  /** A bytea in the hex format. */
  function HexIn(t: jstring): Option<seq<byte>>
  {
    if |t| >= 2 && t[0] == '\\' as int && t[1] == 'x' as int then HexBytes(t[2..]) else None
  }

  /** The text stands for the value. The text of a number that is no safe integer is what String() makes of it. */
  predicate TextSays(json: Json, t: jstring, v: Value)
    decreases v, 2
  {
    match v
    case Null(_) => false
    case Buffer(b) => HexIn(t) == Some(b)
    case Bool(truth) => BoolIn(t) == Some(truth)
    case Number(n) =>
      if n.whole.Some? && -9007199254740991 <= n.whole.value <= 9007199254740991 then IntIn(t) == n.whole else t == n.shown
    case BigInt(i) => IntIn(t) == Some(i)
    case Str(s) => t == s
    case Date(ms) => ms.Some? && TemporalText.IsoIn(t) == ms
    case Array(elems) => TreesSay(json, Parse(t, COMMA), elems)
    case Object(_) => json(v) == Some(t)
    case Other(shown) => t == shown
  }

  predicate TreeSays(json: Json, x: Tree, v: Value)
    decreases v, 3
  {
    match v
    case Null(_) => x == Nothing
    case Array(elems) => x.Node? && TreesSay(json, x.elems, elems)
    case _ => x.Leaf? && TextSays(json, x.s, v)
  }

  predicate TreesSay(json: Json, xs: seq<Tree>, elems: seq<Value>)
    decreases elems, 0
  {
    |xs| == |elems| && forall i :: 0 <= i < |elems| ==> TreeSays(json, xs[i], elems[i])
  }

  /** The bytes are the text in UTF-8, with U+FFFD for a lone surrogate. */
  predicate Spells(b: seq<byte>, t: jstring)
  {
    Utf8.Read(b) == Some(Mended(t))
  }

  // ---- bytes ----

  /** A two's complement, most significant byte first. */
  function SignedIn(b: seq<byte>): int
  {
    if b != [] && b[0] >= 128 then FromBe(b) - Pow256(|b|) else FromBe(b)
  }

  predicate IsNumber(v: Value, n: int)
  {
    v.Number? && v.n.whole == Some(n)
  }

  /** What the receive function of a type makes of the bytes is the value. */
  predicate BytesSay(oid: nat, b: seq<byte>, v: Value)
  {
    || (IsType(oid, PgBool) && |b| == 1 && v == Bool(b[0] != 0))
    || (IsType(oid, PgInt2) && |b| == 2 && IsNumber(v, SignedIn(b)))
    || (IsType(oid, PgInt4) && |b| == 4 && IsNumber(v, SignedIn(b)))
    || (IsType(oid, PgInt8) && |b| == 8 && (IsNumber(v, SignedIn(b)) || v == BigInt(SignedIn(b))))
    || (IsType(oid, PgFloat8) && |b| == 8 && v.Number? && v.n.bytes == b)
    || ((IsType(oid, PgTimestamp) || IsType(oid, PgTimestamptz)) && |b| == 8 && v.Date? && v.t.Some?
        && SignedIn(b) == (v.t.value - Calendar.Instant(2000, 0, 1, 0, 0, 0, 0)) * 1000)
    || ((IsType(oid, PgText) || IsType(oid, PgVarchar)) && v.Str? && Spells(b, v.s))
  }

  /** `dims`: a length and a lower bound for each dimension. */
  datatype Received = Received(dims: seq<(int, int)>, hasNull: int, elem: int, cells: seq<Option<seq<byte>>>)

  /** `n` cells and nothing behind them. */
  function CellsIn(b: seq<byte>, n: int): Option<seq<Option<seq<byte>>>>
    decreases |b|
  {
    if n <= 0 then (if n == 0 && b == [] then Some([]) else None)
    else if |b| < 4 then None
    else
      var len := ReadI32(b, 0);
      var end := 4 + if len < 0 then 0 else len;
      if len < -1 || end > |b| then None
      else match CellsIn(b[end..], n - 1)
        case None => None
        case Some(rest) => Some([if len == -1 then Option.None else Some(b[4..end])] + rest)
  }

  /** array_recv, for no dimension and for one. */
  function ArrayIn(b: seq<byte>): Option<Received>
  {
    if |b| < 12 then None
    else if ReadI32(b, 0) == 0 then (if |b| == 12 then Some(Received([], ReadI32(b, 4), ReadI32(b, 8), [])) else None)
    else if ReadI32(b, 0) != 1 || |b| < 20 then None
    else match CellsIn(b[20..], ReadI32(b, 12))
      case None => None
      case Some(cells) => Some(Received([(ReadI32(b, 12), ReadI32(b, 16))], ReadI32(b, 4), ReadI32(b, 8), cells))
  }

  predicate CellSays(elem: nat, c: Option<seq<byte>>, v: Value)
  {
    match c
    case None => v.Null?
    case Some(b) => !v.Null? && BytesSay(elem, b, v)
  }

  predicate ArraySays(elem: nat, b: seq<byte>, elems: seq<Value>)
  {
    match ArrayIn(b)
    case None => false
    case Some(a) =>
      && a.elem == elem && a.dims == (if elems == [] then [] else [(|elems|, 1)])
      && a.hasNull == (if elems != [] && exists i :: 0 <= i < |elems| && elems[i].Null? then 1 else 0)
      && |a.cells| == |elems| && forall i :: 0 <= i < |elems| ==> CellSays(elem, a.cells[i], elems[i])
  }

  // ---- a parameter ----

  /** For json and jsonb a string is JSON text already, and anything else its JSON text. */
  predicate ParamTextSays(json: Json, oid: nat, t: jstring, v: Value)
  {
    if IsType(oid, PgJson) || IsType(oid, PgJsonb) then (if v.Str? then t == v.s else json(v) == Some(t))
    else TextSays(json, t, v)
  }

  /** The bytes of a parameter of type `oid`, in text (0) or binary (1). */
  ghost predicate PayloadSays(json: Json, oid: nat, format: nat, b: seq<byte>, v: Value)
  {
    if format == 1 then
      || v == Buffer(b)
      || BytesSay(oid, b, v)
      || (v.Array? && exists elem :: IsArrayOf(oid, elem) && ArraySays(elem, b, v.elems))
    else
      && format == 0 && (v.Buffer? ==> IsType(oid, PgJson) || IsType(oid, PgJsonb))
      && exists t :: Spells(b, t) && ParamTextSays(json, oid, t, v)
  }

  /** A length and that many bytes, or -1 for an SQL null. */
  ghost predicate WireSays(json: Json, oid: nat, format: nat, wire: seq<byte>, v: Value)
  {
    |wire| >= 4 &&
    if ReadI32(wire, 0) == -1 then |wire| == 4 && v.Null?
    else |wire| == 4 + ReadI32(wire, 0) && PayloadSays(json, oid, format, wire[4..], v)
  }

  // ---- proofs: text ----

  lemma BoolReads(x: bool)
    ensures BoolIn([if x then 116 else 102]) == Some(x)
  {
  }

  lemma IntReads(v: int)
    ensures IntIn(Decimal(v)) == Some(v)
  {
    var n := if v < 0 then -v else v;
    var ds := TemporalText.Pad(n, 1);
    TemporalText.PadValue(n, 1);
    assert Temporal.IsDigit(ds[0]);
    if v < 0 { assert ([45] + ds)[1..] == ds; }
  }

  lemma HexDigitReads(n: nat)
    requires n < 16
    ensures HexValue(HexDigit(n)) == Some(n)
  {
  }

  lemma {:induction false} HexReads(b: seq<byte>)
    ensures HexBytes(Hex(b)) == Some(b)
  {
    if b != [] {
      HexReads(b[1..]);
      HexDigitReads(b[0] / 16);
      HexDigitReads(b[0] % 16);
      var t := Hex(b);
      assert t[0] == HexDigit(b[0] / 16) && t[1] == HexDigit(b[0] % 16) && t[2..] == Hex(b[1..]);
      assert [b[0]] + b[1..] == b;
    }
  }

  lemma HexInReads(b: seq<byte>)
    ensures HexIn([BACKSLASH, 120] + Hex(b)) == Some(b)
  {
    HexReads(b);
    assert ([BACKSLASH, 120] + Hex(b))[2..] == Hex(b);
  }

  lemma DateReads(t: time)
    ensures TemporalText.IsoIn(IsoText(t)) == Some(t as int)
  {
    TemporalText.IsoReads(t);
  }

  /** A scalar's text inside an array. */
  lemma QuotedSays(json: Json, v: Value)
    requires QuotedText(json, v).Some? && !v.Null? && !v.Array? && !v.Number? && !v.BigInt? && !v.Bool?
    ensures TextSays(json, QuotedText(json, v).value, v)
  {
    hide TemporalText.IsoIn, Hex, HexIn;
    match v
    case Date(t) => if t.Some? { DateReads(t.value); }
    case Buffer(b) => HexInReads(b);
    case _ =>
  }

  lemma NumberSays(json: Json, n: Num)
    ensures TextSays(json, Shown(n), Number(n))
  {
    hide IntIn;
    if IsSafe(n) { IntReads(n.whole.value); }
  }

  lemma {:induction false} ElementSays(json: Json, v: Value)
    requires ElementOf(json, v).Some?
    ensures TreeSays(json, TreeOf(ElementOf(json, v).value), v)
    decreases v, 1
  {
    match v
    case Null(_) =>
    case Array(elems) => ElementsSay(json, elems);
    case Number(n) => NumberSays(json, n);
    case BigInt(i) => IntReads(i);
    case Bool(x) => BoolReads(x);
    case _ => QuotedSays(json, v);
  }

  lemma {:induction false} ElementsSay(json: Json, elems: seq<Value>)
    requires ElementsOf(json, elems).Some?
    ensures TreesSay(json, Trees(ElementsOf(json, elems).value), elems)
    decreases elems, 0
  {
    if elems != [] {
      ElementSays(json, elems[0]);
      ElementsSay(json, elems[1..]);
      var xs := Trees(ElementsOf(json, elems).value);
      var rest := Trees(ElementsOf(json, elems[1..]).value);
      assert ElementsOf(json, elems).value == [ElementOf(json, elems[0]).value] + ElementsOf(json, elems[1..]).value;
      assert xs == [TreeOf(ElementOf(json, elems[0]).value)] + rest;
      hide ElementsOf, ElementOf, Trees, TreeOf, TreeSays;
      forall i | 0 <= i < |elems| ensures TreeSays(json, xs[i], elems[i]) {
        if i > 0 { assert elems[1..][i - 1] == elems[i] && rest[i - 1] == xs[i]; }
      }
    }
  }

  lemma ArrayTextSays(json: Json, elems: seq<Value>)
    requires Literal(json, elems).Some?
    ensures TextSays(json, Literal(json, elems).value, Array(elems))
  {
    LiteralRoundTrip(json, elems);
    ElementsSay(json, elems);
    hide Parse, Trees, ElementsOf, Literal, TreesSay;
  }

  lemma SpellsText(t: jstring)
    ensures Spells(Encode(t), t)
  {
    ReadsBack(t);
  }

  lemma SpellsAscii(t: jstring)
    requires IsAscii(t)
    ensures Spells(Latin1(t), t)
  {
    ReadsBack(t);
    EncodeAscii(t);
  }

  lemma FramedSays(json: Json, oid: nat, format: nat, b: seq<byte>, v: Value)
    requires Framed(format, b).Wrote? && PayloadSays(json, oid, format, b, v)
    ensures Framed(format, b).format == format && WireSays(json, oid, format, Framed(format, b).wire, v)
  {
    var wire := I32(|b|) + b;
    hide I32, PayloadSays, ReadI32;
    I32Reads(wire, 0, |b|, b);
    assert wire[0..] == wire;
  }

  lemma NullSays(json: Json, oid: nat, v: Value)
    requires v.Null?
    ensures WireSays(json, oid, 0, I32(-1), v)
  {
    hide I32, PayloadSays, ReadI32;
    I32Reads(I32(-1), 0, -1, []);
    assert I32(-1)[0..] == I32(-1) + [];
  }

  /** The text of a value as it is sent for a type other than json and jsonb. */
  function SentText(json: Json, v: Value): Option<jstring>
  {
    match v
    case Number(n) => Some(Shown(n))
    case Bool(x) => Some([if x then 116 else 102])
    case BigInt(i) => Some(Decimal(i))
    case Array(elems) => Literal(json, elems)
    case Str(s) => NoNul(s)
    case Other(s) => NoNul(s)
    case _ => QuotedText(json, v)
  }

  lemma SentSays(json: Json, v: Value)
    requires !v.Null? && !v.Buffer? && SentText(json, v).Some?
    ensures TextSays(json, SentText(json, v).value, v)
  {
    hide TextSays, Literal, Shown, Decimal, QuotedText;
    match v
    case Array(elems) => ArrayTextSays(json, elems);
    case Number(n) => NumberSays(json, n);
    case BigInt(i) => BigSays(json, i);
    case Bool(x) => TruthSays(json, x);
    case Str(s) => StringSays(json, v);
    case Other(s) => StringSays(json, v);
    case _ => QuotedSays(json, v);
  }

  lemma BigSays(json: Json, i: int)
    ensures TextSays(json, Decimal(i), BigInt(i))
  {
    IntReads(i);
  }

  lemma TruthSays(json: Json, x: bool)
    ensures TextSays(json, [if x then 116 else 102], Bool(x))
  {
    BoolReads(x);
  }

  lemma StringSays(json: Json, v: Value)
    ensures v.Str? ==> TextSays(json, v.s, v)
    ensures v.Other? ==> TextSays(json, v.shown, v)
  {
  }

  /** What TextEnc writes is that text in UTF-8. */
  lemma TextEncIs(json: Json, v: Value)
    requires !v.Null? && !v.Buffer?
    ensures TextEnc(json, v) == FramedText(SentText(json, v))
  {
    hide Encode, Literal, TemporalText.Iso, I32;
    match v
    case Number(n) => EncodeAscii(Shown(n)); NumeralIsAscii(Shown(n));
    case Bool(x) => EncodeAscii([if x then 116 else 102]);
    case BigInt(i) => EncodeAscii(Decimal(i));
    case Date(t) => if t.Some? { EncodeAscii(IsoText(t.value)); }
    case _ =>
  }

  // ---- proofs: bytes ----

  lemma {:induction false} FromBeHead(b: seq<byte>)
    requires b != []
    ensures b[0] * Pow256(|b| - 1) <= FromBe(b) < (b[0] + 1) * Pow256(|b| - 1)
    decreases |b|
  {
    var n := |b| - 1;
    if n > 0 {
      FromBeHead(b[..n]);
      HeadStep(b[0], FromBe(b[..n]), b[n], Pow256(n - 1));
    } else {
      assert b[..0] == [] && FromBe(b) == b[0] && Pow256(0) == 1;
    }
  }

  lemma HeadStep(h: int, f: int, last: byte, p: int)
    requires h * p <= f < (h + 1) * p
    ensures h * (256 * p) <= f * 256 + last < (h + 1) * (256 * p)
  {
    assert h * (256 * p) == 256 * (h * p) && (h + 1) * (256 * p) == 256 * ((h + 1) * p);
  }

  /** A two's complement is read back. */
  lemma SignedReads(v: int, w: nat)
    requires w > 0 && -(Pow256(w) as int) <= 2 * v < Pow256(w)
    ensures |TwosComplement(v, w)| == w && SignedIn(TwosComplement(v, w)) == v
  {
    var p, q := Pow256(w), Pow256(w - 1);
    var b := TwosComplement(v, w);
    FromBeBe(v % p, w);
    FromBeHead(b);
    if v >= 0 { DivMod(v, p, 0, v); } else { DivMod(v, p, -1, v + p); }
    DivMod(v % p, p, 0, v % p);
    assert FromBe(b) == if v >= 0 then v else v + p;
    HighBit(b[0], FromBe(b), q);
  }

  lemma Scaled(d: nat, q: nat)
    ensures d * q >= 0 && (d + 128) * q == d * q + 128 * q && (128 - d) * q == 128 * q - d * q
  {
  }

  lemma HighBit(h: byte, f: int, q: nat)
    requires h * q <= f < (h + 1) * q
    ensures h >= 128 <==> 2 * f >= 256 * q
  {
    if h >= 128 { Scaled(h - 128, q); } else { Scaled(127 - h, q); }
  }

  lemma SignedFits(v: int)
    ensures -32768 <= v <= 32767 ==> SignedIn(TwosComplement(v, 2)) == v && |TwosComplement(v, 2)| == 2
    ensures -2147483648 <= v <= 2147483647 ==> SignedIn(TwosComplement(v, 4)) == v && |TwosComplement(v, 4)| == 4
    ensures IsInt64(v) ==> SignedIn(TwosComplement(v, 8)) == v && |TwosComplement(v, 8)| == 8
  {
    PowWord();
    PowLong();
    if -32768 <= v <= 32767 { SignedReads(v, 2); }
    if -2147483648 <= v <= 2147483647 { SignedReads(v, 4); }
    if IsInt64(v) { SignedReads(v, 8); }
  }

  lemma MicrosSay(t: time)
    ensures Micros(t) == (t - Calendar.Instant(2000, 0, 1, 0, 0, 0, 0)) * 1000
  {
    assert Calendar.Leap(2000) && Calendar.DayFromYear(2000) == 10957;
    assert Calendar.MakeDay(2000, 0, 1) == 10957;
  }

  /** The bytes of a binary scalar, which stand behind their number. */
  function BinaryBytes(oid: nat, v: Value): seq<byte>
    requires Binary(oid, v).Some?
  {
    match v
    case Bool(x) => [if x then 1 else 0]
    case BigInt(i) => TwosComplement(i, 8)
    case Date(t) => if t.Some? then TwosComplement(Micros(t.value), 8) else []
    case Number(n) =>
      if oid == 701 then n.bytes
      else TwosComplement(if n.whole.Some? then n.whole.value else 0, if oid == 21 then 2 else if oid == 23 then 4 else 8)
    case _ => []
  }

  lemma BinaryParts(oid: nat, v: Value)
    requires Binary(oid, v).Some?
    ensures var b := BinaryBytes(oid, v); |b| <= 8 && Binary(oid, v) == Some(I32(|b|) + b)
  {
    hide TwosComplement, I32, Micros;
    if v.Number? && v.n.whole.Some? { WordIs(v.n.whole.value); }
    if v.Number? { Lengths(if v.n.whole.Some? then v.n.whole.value else 0); }
    if v.BigInt? { Lengths(v.i); }
    if v.Date? && v.t.Some? { Lengths(Micros(v.t.value)); }
  }

  lemma Lengths(n: int)
    ensures |TwosComplement(n, 2)| == 2 && |TwosComplement(n, 4)| == 4 && |TwosComplement(n, 8)| == 8
  {
  }

  lemma WordIs(n: int)
    ensures I32(n) == TwosComplement(n, 4)
  {
  }

  lemma NumberBinarySays(oid: nat, v: Value)
    requires Binary(oid, v).Some? && v.Number?
    ensures BytesSay(oid, BinaryBytes(oid, v), v)
  {
    if v.n.whole.Some? { SignedFits(v.n.whole.value); }
    hide I32, TwosComplement, SignedIn, Spells;
  }

  lemma DateBytesSay(t: time)
    ensures var b := TwosComplement(Micros(t), 8); |b| == 8 && SignedIn(b) == (t - Calendar.Instant(2000, 0, 1, 0, 0, 0, 0)) * 1000
  {
    hide *;
    var us := Micros(t);
    MicrosSay(t);
    SignedFits(us);
  }

  lemma DateBinarySays(oid: nat, v: Value)
    requires Binary(oid, v).Some? && v.Date?
    ensures BytesSay(oid, BinaryBytes(oid, v), v)
  {
    hide I32, TwosComplement, SignedIn, Micros, Spells, Calendar.Instant;
    DateBytesSay(v.t.value);
  }

  lemma OtherBinarySays(oid: nat, v: Value)
    requires Binary(oid, v).Some? && !v.Number? && !v.Date?
    ensures BytesSay(oid, BinaryBytes(oid, v), v)
  {
    if v.BigInt? { SignedFits(v.i); }
    hide I32, TwosComplement, SignedIn, Micros, Spells, Calendar.Instant;
  }

  lemma BinarySays(oid: nat, v: Value)
    requires Binary(oid, v).Some?
    ensures BytesSay(oid, BinaryBytes(oid, v), v)
  {
    hide Binary, BytesSay, BinaryBytes;
    if v.Number? { NumberBinarySays(oid, v); } else if v.Date? { DateBinarySays(oid, v); } else { OtherBinarySays(oid, v); }
  }

  // ---- proofs: arrays ----

  /** The cell of an element: its bytes behind their number, or -1. */
  function CellOf(oid: nat, v: Value): Option<seq<byte>>
    requires ElemEnc(oid, v).Fits?
  {
    if v.Null? then Option.None
    else if v.Str? then Some(Encode(v.s))
    else if Binary(oid, v).Some? then Some(BinaryBytes(oid, v))
    else Option.None
  }

  function CellWire(c: Option<seq<byte>>): seq<byte>
  {
    match c
    case None => I32(-1)
    case Some(b) => I32(|b|) + b
  }

  lemma ElementIsCell(oid: nat, v: Value)
    requires ElemEnc(oid, v).Fits?
    ensures var c := CellOf(oid, v); ElemEnc(oid, v).wire == CellWire(c) && CellSays(oid, c, v) && (c.Some? ==> FitsI32(|c.value|))
  {
    hide I32, Encode, BinaryBytes;
    if v.Null? {
    } else if v.Str? {
      SpellsText(v.s);
      StringCell(oid, v);
    } else {
      hide Binary, BytesSay;
      BinaryParts(oid, v);
      BinarySays(oid, v);
    }
  }

  lemma StringCell(oid: nat, v: Value)
    requires ElemEnc(oid, v).Fits? && v.Str? && Spells(Encode(v.s), v.s)
    ensures ElemEnc(oid, v).wire == I32(|Encode(v.s)|) + Encode(v.s) && FitsI32(|Encode(v.s)|) && BytesSay(oid, Encode(v.s), v)
  {
    hide I32, Encode, Spells;
  }

  lemma CellReads(c: Option<seq<byte>>, rest: seq<byte>, n: nat)
    requires c.Some? ==> FitsI32(|c.value|)
    ensures CellsIn(CellWire(c) + rest, n + 1) == match CellsIn(rest, n) case None => Option.None case Some(cs) => Some([c] + cs)
  {
    hide I32, ReadI32;
    var b := CellWire(c) + rest;
    assert b[0..] == b;
    match c
    case None =>
      I32Reads(b, 0, -1, rest);
      assert b[4..] == rest;
    case Some(x) =>
      Assoc(I32(|x|), x, rest);
      I32Reads(b, 0, |x|, x + rest);
      assert b[4..4 + |x|] == b[4..][..|x|] == x && b[4 + |x|..] == b[4..][|x|..] == rest;
  }

  function CellsOf(oid: nat, elems: seq<Value>): (r: seq<Option<seq<byte>>>)
    requires ElemsEnc(oid, elems).Fits?
    ensures |r| == |elems|
  {
    if elems == [] then [] else CellsOf(oid, elems[..|elems| - 1]) + [CellOf(oid, elems[|elems| - 1])]
  }

  lemma ElemsSnoc(oid: nat, elems: seq<Value>)
    requires elems != [] && ElemsEnc(oid, elems).Fits?
    ensures var k := |elems| - 1;
            && ElemsEnc(oid, elems[..k]).Fits? && ElemEnc(oid, elems[k]).Fits?
            && ElemsEnc(oid, elems).wire == ElemsEnc(oid, elems[..k]).wire + CellWire(CellOf(oid, elems[k]))
            && CellsOf(oid, elems) == CellsOf(oid, elems[..k]) + [CellOf(oid, elems[k])]
            && CellSays(oid, CellOf(oid, elems[k]), elems[k])
  {
    hide ElemEnc, CellOf, CellWire, CellSays;
    ElementIsCell(oid, elems[|elems| - 1]);
  }

  lemma {:induction false} CellsRead(oid: nat, elems: seq<Value>, rest: seq<byte>, n: nat, cs: seq<Option<seq<byte>>>)
    requires ElemsEnc(oid, elems).Fits? && CellsIn(rest, n) == Some(cs)
    ensures CellsIn(ElemsEnc(oid, elems).wire + rest, n + |elems|) == Some(CellsOf(oid, elems) + cs)
    decreases |elems|
  {
    hide *;
    if elems == [] {
      NoCells(oid, elems);
      assert [] + rest == rest && [] + cs == cs;
    } else {
      var k := |elems| - 1;
      ElemsSnoc(oid, elems);
      ElementIsCell(oid, elems[k]);
      var c := CellOf(oid, elems[k]);
      CellReads(c, rest, n);
      var wire, cells := ElemsEnc(oid, elems[..k]).wire, CellsOf(oid, elems[..k]);
      CellsRead(oid, elems[..k], CellWire(c) + rest, n + 1, [c] + cs);
      Joined(wire, CellWire(c), rest, cells, c, cs, n + |elems|);
    }
  }

  lemma NoCells(oid: nat, elems: seq<Value>)
    requires elems == []
    ensures ElemsEnc(oid, elems) == Fits([]) && CellsOf(oid, elems) == []
  {
  }

  lemma Joined(wire: seq<byte>, last: seq<byte>, rest: seq<byte>, cells: seq<Option<seq<byte>>>, c: Option<seq<byte>>, cs: seq<Option<seq<byte>>>, n: nat)
    requires CellsIn(wire + (last + rest), n) == Some(cells + ([c] + cs))
    ensures CellsIn((wire + last) + rest, n) == Some((cells + [c]) + cs)
  {
    hide *;
    Assoc(wire, last, rest);
    Assoc(cells, [c], cs);
  }

  /** Every cell is its element. */
  predicate AllCellsSay(oid: nat, cells: seq<Option<seq<byte>>>, elems: seq<Value>)
  {
    |cells| == |elems| && forall i :: 0 <= i < |elems| ==> CellSays(oid, cells[i], elems[i])
  }

  lemma OneMoreCell(oid: nat, cells: seq<Option<seq<byte>>>, c: Option<seq<byte>>, elems: seq<Value>)
    requires elems != [] && AllCellsSay(oid, cells, elems[..|elems| - 1]) && CellSays(oid, c, elems[|elems| - 1])
    ensures AllCellsSay(oid, cells + [c], elems)
  {
    hide CellSays;
    var k := |elems| - 1;
    forall i | 0 <= i < |elems| ensures CellSays(oid, (cells + [c])[i], elems[i]) {
      if i < k { assert elems[..k][i] == elems[i]; }
    }
  }

  lemma {:induction false} CellsSay(oid: nat, elems: seq<Value>)
    requires ElemsEnc(oid, elems).Fits?
    ensures AllCellsSay(oid, CellsOf(oid, elems), elems)
    decreases |elems|
  {
    if elems != [] {
      hide *;
      var k := |elems| - 1;
      ElemsSnoc(oid, elems);
      CellsSay(oid, elems[..k]);
      OneMoreCell(oid, CellsOf(oid, elems[..k]), CellOf(oid, elems[k]), elems);
    }
  }

  lemma AllCellsRead(oid: nat, elems: seq<Value>)
    requires ElemsEnc(oid, elems).Fits?
    ensures CellsIn(ElemsEnc(oid, elems).wire, |elems|) == Some(CellsOf(oid, elems))
    ensures forall i :: 0 <= i < |elems| ==> CellSays(oid, CellsOf(oid, elems)[i], elems[i])
  {
    hide ElemsEnc, CellsOf, CellSays;
    assert CellsIn([], 0) == Some([]);
    CellsRead(oid, elems, [], 0, []);
    CellsSay(oid, elems);
    assert ElemsEnc(oid, elems).wire + [] == ElemsEnc(oid, elems).wire;
    assert CellsOf(oid, elems) + [] == CellsOf(oid, elems);
  }

  lemma FiveWords(a: int, b: int, c: int, d: int, e: int, rest: seq<byte>)
    requires FitsI32(a) && FitsI32(b) && FitsI32(c) && FitsI32(d) && FitsI32(e)
    ensures var s := I32(a) + I32(b) + I32(c) + I32(d) + I32(e) + rest;
            && |s| == 20 + |rest| && ReadI32(s, 0) == a && ReadI32(s, 4) == b && ReadI32(s, 8) == c && ReadI32(s, 12) == d
            && ReadI32(s, 16) == e && s[20..] == rest
  {
    hide I32, ReadI32;
    var s := I32(a) + I32(b) + I32(c) + I32(d) + I32(e) + rest;
    assert s[0..] == I32(a) + (I32(b) + (I32(c) + (I32(d) + (I32(e) + rest))));
    I32Reads(s, 0, a, I32(b) + (I32(c) + (I32(d) + (I32(e) + rest))));
    I32Reads(s, 4, b, I32(c) + (I32(d) + (I32(e) + rest)));
    I32Reads(s, 8, c, I32(d) + (I32(e) + rest));
    I32Reads(s, 12, d, I32(e) + rest);
    I32Reads(s, 16, e, rest);
  }

  lemma ThreeWords(a: int, b: int, c: int)
    requires FitsI32(a) && FitsI32(b) && FitsI32(c)
    ensures var s := I32(a) + I32(b) + I32(c); |s| == 12 && ReadI32(s, 0) == a && ReadI32(s, 4) == b && ReadI32(s, 8) == c
  {
    hide I32, ReadI32;
    var s := I32(a) + I32(b) + I32(c);
    assert s[0..] == I32(a) + (I32(b) + (I32(c) + []));
    I32Reads(s, 0, a, I32(b) + (I32(c) + []));
    I32Reads(s, 4, b, I32(c) + []);
    I32Reads(s, 8, c, []);
  }

  /** The header names the element type, and every cell reads as that type. */
  lemma ArrayBytesSay(oid: nat, elems: seq<Value>)
    requires ElemsEnc(oid, elems).Fits? && FitsI32(|elems|) && FitsI32(oid)
    ensures ArraySays(oid, ArrayHeader(oid, elems) + ElemsEnc(oid, elems).wire, elems)
  {
    hide I32, ReadI32, ElemsEnc, CellsOf, CellsIn, CellSays;
    AllCellsRead(oid, elems);
    var wire := ElemsEnc(oid, elems).wire;
    if elems == [] {
      ThreeWords(0, 0, oid);
      assert wire == [] by { NoElements(oid); }
      assert I32(0) + I32(0) + I32(oid) + [] == I32(0) + I32(0) + I32(oid);
    } else {
      FiveWords(1, if HasNull(elems) then 1 else 0, oid, |elems|, 1, wire);
    }
  }

  lemma NoElements(oid: nat)
    ensures ElemsEnc(oid, []) == Fits([])
  {
  }

  lemma ElementTypeFits(oid: nat)
    ensures ElemOid(oid).Some? ==> FitsI32(ElemOid(oid).value)
  {
  }

  lemma ArraySaysWire(json: Json, oid: nat, elem: nat, v: Value)
    requires v.Array? && IsArrayOf(oid, elem) && FitsI32(elem) && BinaryArray(elem, v.elems).Fits?
    ensures WireSays(json, oid, 1, BinaryArray(elem, v.elems).wire, v)
  {
    hide ArraySays, IsArrayOf, ElemsEnc, ArrayHeader, I32, WireSays;
    ArrayBytesSay(elem, v.elems);
    var b := ArrayHeader(elem, v.elems) + ElemsEnc(elem, v.elems).wire;
    assert PayloadSays(json, oid, 1, b, v) by { hide BytesSay; }
    FramedSays(json, oid, 1, b, v);
  }

  // ---- proofs: a parameter ----

  lemma TextSaysWire(json: Json, oid: nat, v: Value)
    requires TextEnc(json, v).Wrote? && !IsType(oid, PgJson) && !IsType(oid, PgJsonb)
    ensures var e := TextEnc(json, v); WireSays(json, oid, e.format, e.wire, v)
  {
    hide WireSays, SentText, TextSays, Encode, Spells, I32;
    if v.Null? {
      NullSays(json, oid, v);
    } else if v.Buffer? {
      FramedSays(json, oid, 1, v.b, v);
    } else {
      TextEncIs(json, v);
      hide TextEnc;
      SentSays(json, v);
      var t := SentText(json, v).value;
      SpellsText(t);
      assert ParamTextSays(json, oid, t, v);
      hide ParamTextSays;
      FramedSays(json, oid, 0, Encode(t), v);
    }
  }

  lemma JsonSaysWire(json: Json, oid: nat, v: Value)
    requires JsonEnc(json, v).Wrote? && (IsType(oid, PgJson) || IsType(oid, PgJsonb))
    ensures var e := JsonEnc(json, v); WireSays(json, oid, e.format, e.wire, v)
  {
    hide WireSays, Encode, Spells, I32;
    var t := if v.Str? then v.s else json(v).value;
    SpellsText(t);
    assert ParamTextSays(json, oid, t, v);
    hide ParamTextSays;
    FramedSays(json, oid, 0, Encode(t), v);
  }

  lemma BinarySaysWire(json: Json, oid: nat, v: Value)
    requires Binary(oid, v).Some?
    ensures WireSays(json, oid, 1, Binary(oid, v).value, v)
  {
    hide WireSays, BytesSay, BinaryBytes, Binary, I32;
    BinaryParts(oid, v);
    BinarySays(oid, v);
    FramedSays(json, oid, 1, BinaryBytes(oid, v), v);
  }

  /** Whatever a parameter is sent as, for every type and every value: the server reads the value. */
  lemma ParamReads(json: Json, oid: nat, v: Value)
    requires ParamEnc(json, oid, v).Wrote?
    ensures var e := ParamEnc(json, oid, v); WireSays(json, oid, e.format, e.wire, v)
  {
    hide WireSays, Binary, TextEnc, JsonEnc, ElemOid, BinaryArray;
    if IsFast(oid) {
      if Binary(oid, v).Some? { BinarySaysWire(json, oid, v); } else { TextSaysWire(json, oid, v); }
    } else if oid == 114 || oid == 3802 {
      JsonSaysWire(json, oid, v);
    } else if ElemOid(oid).Some? {
      var elem := ElemOid(oid).value;
      ElementTypesAgree(oid, elem);
      ElementTypeFits(oid);
      if v.Array? && BinaryArray(elem, v.elems).Fits? { ArraySaysWire(json, oid, elem, v); } else { TextSaysWire(json, oid, v); }
    } else {
      TextSaysWire(json, oid, v);
    }
  }

  // ---- which form, and which values are refused ----

  lemma SignedRange(b: seq<byte>)
    requires b != []
    ensures -(Pow256(|b|) as int) <= 2 * SignedIn(b) < Pow256(|b|)
  {
    FromBeHead(b);
    HighBit(b[0], FromBe(b), Pow256(|b| - 1));
  }

  lemma SignedRanges(b: seq<byte>)
    ensures |b| == 2 ==> -32768 <= SignedIn(b) <= 32767
    ensures |b| == 4 ==> -2147483648 <= SignedIn(b) <= 2147483647
    ensures |b| == 8 ==> IsInt64(SignedIn(b))
  {
    PowWord();
    PowLong();
    if b != [] { SignedRange(b); }
    hide SignedIn, Pow256;
  }

  lemma NumberFits(oid: nat, v: Value, b: seq<byte>)
    requires IsFast(oid) && v.Number? && BytesSay(oid, b, v) && (IsType(oid, PgInt8) ==> IsSafe(v.n))
    ensures Binary(oid, v).Some?
  {
    SignedRanges(b);
    hide SignedIn, I32, TwosComplement, Spells;
  }

  lemma OtherFits(oid: nat, v: Value, b: seq<byte>)
    requires IsFast(oid) && !v.Number? && BytesSay(oid, b, v)
    ensures Binary(oid, v).Some?
  {
    SignedRanges(b);
    hide SignedIn, I32, TwosComplement, Spells, Calendar.Instant, Micros;
  }

  /** A value goes out in the binary form of its type exactly if some bytes of that form stand for it, except that
      an int8 is given as a number only where numbers are exact. */
  lemma BinaryIff(oid: nat, v: Value)
    requires IsFast(oid)
    ensures Binary(oid, v).Some? <==> (exists b :: BytesSay(oid, b, v)) && (IsType(oid, PgInt8) && v.Number? ==> IsSafe(v.n))
  {
    if Binary(oid, v).Some? {
      BinarySays(oid, v);
      assert BytesSay(oid, BinaryBytes(oid, v), v);
      hide BytesSay, BinaryBytes;
    } else if b :| BytesSay(oid, b, v) {
      hide BytesSay, Binary;
      if IsType(oid, PgInt8) && v.Number? ==> IsSafe(v.n) {
        if v.Number? { NumberFits(oid, v, b); } else { OtherFits(oid, v, b); }
      }
    }
  }

  /** The value has a text as an element of an array. */
  predicate InArray(json: Json, v: Value)
  {
    match v
    case Date(t) => t.Some?
    case Object(_) => json(v).Some?
    case Array(elems) => forall i :: 0 <= i < |elems| ==> InArray(json, elems[i])
    case _ => true
  }

  /** The value is one that has no form: a NUL in a string, an invalid Date, no JSON text. */
  predicate Refused(json: Json, oid: nat, v: Value)
  {
    if IsType(oid, PgJson) || IsType(oid, PgJsonb) then !v.Str? && json(v).None?
    else match v
      case Str(s) => 0 in s
      case Other(s) => 0 in s
      case _ => !InArray(json, v)
  }

  /** A text, a string in an array, the array or the number of its elements is longer than a length can say. */
  ghost predicate Oversize(json: Json, oid: nat, v: Value)
  {
    || (v.Buffer? && !FitsI32(|v.b|))
    || (exists t :: ParamTextSays(json, oid, t, v) && !FitsI32(|Encode(t)|))
    || (v.Array? && exists elem :: IsArrayOf(oid, elem) && OversizeArray(elem, v.elems))
  }

  predicate OversizeArray(elem: nat, elems: seq<Value>)
  {
    || !FitsI32(|elems|)
    || (exists i :: 0 <= i < |elems| && elems[i].Str? && !FitsI32(|Encode(elems[i].s)|))
    || (ElemsEnc(elem, elems).Fits? && !FitsI32(|ArrayHeader(elem, elems) + ElemsEnc(elem, elems).wire|))
  }

  lemma {:induction false} HasTextIff(json: Json, v: Value)
    ensures ElementOf(json, v).Some? <==> InArray(json, v)
    decreases v
  {
    if v.Array? {
      ElementsAt(json, v.elems);
      forall i | 0 <= i < |v.elems| ensures ElementOf(json, v.elems[i]).Some? <==> InArray(json, v.elems[i]) { HasTextIff(json, v.elems[i]); }
    }
  }

  lemma SentTextIff(json: Json, oid: nat, v: Value)
    requires !v.Null? && !v.Buffer? && !IsType(oid, PgJson) && !IsType(oid, PgJsonb)
    ensures SentText(json, v).Some? <==> !Refused(json, oid, v)
  {
    HasTextIff(json, v);
    if v.Array? { HasTextIff(json, v); }
    hide TemporalText.Iso;
  }

  lemma TextFailsIff(json: Json, oid: nat, v: Value)
    requires !IsType(oid, PgJson) && !IsType(oid, PgJsonb)
    ensures Refused(json, oid, v) ==> TextEnc(json, v).Fails?
    ensures TextEnc(json, v).Fails? ==> Refused(json, oid, v) || Oversize(json, oid, v)
  {
    hide SentText, InArray, Encode;
    if v.Null? || v.Buffer? {
      PlainInArray(json, v);
    } else {
      SentTextIff(json, oid, v);
      TextEncIs(json, v);
      hide TextEnc, Refused;
      if SentText(json, v).Some? {
        SentSays(json, v);
        assert ParamTextSays(json, oid, SentText(json, v).value, v);
      }
    }
  }

  lemma PlainInArray(json: Json, v: Value)
    requires v.Null? || v.Buffer?
    ensures InArray(json, v)
  {
  }

  lemma {:induction false} ElementsFit(json: Json, oid: nat, elems: seq<Value>)
    ensures ElemsEnc(oid, elems).Fits? ==> forall i :: 0 <= i < |elems| ==> InArray(json, elems[i])
    ensures ElemsEnc(oid, elems).Throws? ==> exists i :: 0 <= i < |elems| && elems[i].Str? && !FitsI32(|Encode(elems[i].s)|)
    decreases |elems|
  {
    hide Encode, I32;
    if elems != [] {
      var k := |elems| - 1;
      ElementsFit(json, oid, elems[..k]);
      var e := elems[k];
      if ElemsEnc(oid, elems[..k]).Throws? {
        var i :| 0 <= i < |elems[..k]| && elems[..k][i].Str? && !FitsI32(|Encode(elems[..k][i].s)|);
        assert elems[i] == elems[..k][i];
      } else if ElemsEnc(oid, elems).Throws? {
        assert ElemEnc(oid, e).Throws? && e.Str?;
      } else if ElemsEnc(oid, elems).Fits? {
        assert InArray(json, e);
        hide ElemsEnc, InArray, ElemEnc;
        forall i | 0 <= i < |elems| ensures InArray(json, elems[i]) { if i < k { assert elems[i] == elems[..k][i]; } }
      }
    }
  }

  lemma BinaryArrayFails(json: Json, elem: nat, elems: seq<Value>)
    ensures BinaryArray(elem, elems).Fits? ==> InArray(json, Array(elems))
    ensures BinaryArray(elem, elems).Throws? ==> OversizeArray(elem, elems)
  {
    ElementsFit(json, elem, elems);
    hide ElemsEnc, ArrayHeader, Encode, I32;
  }

  lemma FittingScalar(json: Json, oid: nat, v: Value)
    requires IsFast(oid) && Binary(oid, v).Some?
    ensures !Refused(json, oid, v)
  {
    hide I32, TwosComplement, Micros;
  }

  /** Serialization throws on every value that has no form, and otherwise only where a length does not fit. */
  lemma ParamFailsIff(json: Json, oid: nat, v: Value)
    ensures Refused(json, oid, v) ==> ParamEnc(json, oid, v).Fails?
    ensures ParamEnc(json, oid, v).Fails? ==> Refused(json, oid, v) || Oversize(json, oid, v)
  {
    hide Binary, TextEnc, ElemOid, BinaryArray, InArray, OversizeArray;
    if oid == 114 || oid == 3802 {
      JsonFails(json, oid, v);
    } else {
      TextFailsIff(json, oid, v);
      if IsFast(oid) {
        if Binary(oid, v).Some? { FittingScalar(json, oid, v); }
      } else if ElemOid(oid).Some? && v.Array? {
        var elem := ElemOid(oid).value;
        ElementTypesAgree(oid, elem);
        BinaryArrayFails(json, elem, v.elems);
        hide IsArrayOf, TextSays;
      }
    }
  }

  lemma JsonFails(json: Json, oid: nat, v: Value)
    requires IsType(oid, PgJson) || IsType(oid, PgJsonb)
    ensures Refused(json, oid, v) ==> JsonEnc(json, v).Fails?
    ensures JsonEnc(json, v).Fails? ==> Refused(json, oid, v) || Oversize(json, oid, v)
  {
    hide Encode, I32, TextSays, InArray;
    var t := if v.Str? then Some(v.s) else json(v);
    if t.Some? { assert ParamTextSays(json, oid, t.value, v); }
  }
}
