/** The parser of arbitrary JSON values from bytes, exact on integers of any size. */
module JsonParse {
  import opened Bytes
  import opened Int64
  import opened PowersOfTen
  import opened Objects
  import opened JsonScan
  import Temporal

  /** What to make of integers that a number cannot hold. */
  datatype Mode = AsNumber | AsString | AsBigInt

  /** A parsed value; strings are their UTF-8 bytes. */
  datatype Value = Null | Bool(b: bool) | Number(x: real) | Digits(text: seq<byte>) | BigInt(n: int)
                 | Text(bytes: seq<byte>) | Array(elems: seq<Value>) | Object(fields: seq<(seq<byte>, Value)>)

  /** Library functions that stay abstract: Number() of a text, JSON.parse of a quoted string, and the
      rounding of one arithmetic operation. */
  datatype Library = Library(number: seq<byte> -> real, unescape: seq<byte> -> seq<byte>, rnd: real -> real)

  const TRUE: seq<byte> := [116, 114, 117, 101]
  const FALSE: seq<byte> := [102, 97, 108, 115, 101]
  const NULL: seq<byte> := [110, 117, 108, 108]

  // ---- what the text means ----

  /** A byte that makes a number a fraction or gives it an exponent. */
  predicate IsFloatByte(b: byte)
  {
    b == 46 || b == 101 || b == 69 || b == 43 || b == 45
  }

  function Unsigned(t: seq<byte>): seq<byte>
  {
    if t != [] && t[0] == 45 then t[1..] else t
  }

  /** A number of section 6 of RFC 8259, as far as the parser looks: an optional minus, then digits and the
      bytes of fractions and exponents, a digit first. */
  predicate IsNumber(t: seq<byte>)
  {
    && Unsigned(t) != [] && Temporal.IsDigit(Unsigned(t)[0])
    && forall i :: 0 <= i < |Unsigned(t)| ==> Temporal.IsDigit(Unsigned(t)[i]) || IsFloatByte(Unsigned(t)[i])
  }

  predicate IsInteger(t: seq<byte>)
  {
    forall i :: 0 <= i < |Unsigned(t)| ==> Temporal.IsDigit(Unsigned(t)[i])
  }

  function IntegerOf(t: seq<byte>): int
  {
    if t != [] && t[0] == 45 then -Temporal.Value(Unsigned(t)) else Temporal.Value(Unsigned(t))
  }

  /** Every scalar is a word or a number. */
  predicate Valid(v: Json)
    decreases v, 1
  {
    match v
    case Str(_) => true
    case Scalar(text) => text == TRUE || text == FALSE || text == NULL || IsNumber(text)
    case Arr(_, items) => ValidItems(items)
    case Obj(_, members) => ValidMembers(members)
  }

  predicate ValidItems(items: seq<Item>)
    decreases items, 0
  {
    items != [] ==> Valid(items[0].v) && ValidItems(items[1..])
  }

  predicate ValidMembers(members: seq<Member>)
    decreases members, 0
  {
    members != [] ==> Valid(members[0].item.v) && ValidMembers(members[1..])
  }

  /** An integer that a number holds is that number; any other keeps all of its digits. */
  function NumberOf(lib: Library, mode: Mode, t: seq<byte>): Value
  {
    if mode == AsNumber || !IsInteger(t) then Number(lib.number(t))
    else if -SAFE < IntegerOf(t) < SAFE then Number(Whole(IntegerOf(t)))
    else if mode == AsBigInt then BigInt(IntegerOf(t))
    else Digits(t)
  }

  function ValueOf(lib: Library, mode: Mode, v: Json): Value
    decreases v, 1
  {
    match v
    case Str(chars) => Text(lib.unescape(StringBytes(chars)))
    case Scalar(text) =>
      if text == TRUE then Bool(true) else if text == FALSE then Bool(false) else if text == NULL then Null else NumberOf(lib, mode, text)
    case Arr(_, items) => Array(ItemValues(lib, mode, items))
    case Obj(_, members) => Object(MemberFields(lib, mode, [], members))
  }

  function ItemValues(lib: Library, mode: Mode, items: seq<Item>): seq<Value>
    decreases items, 0
  {
    if items == [] then [] else [ValueOf(lib, mode, items[0].v)] + ItemValues(lib, mode, items[1..])
  }

  function MemberFields(lib: Library, mode: Mode, fields: seq<(seq<byte>, Value)>, members: seq<Member>): seq<(seq<byte>, Value)>
    decreases members, 0
  {
    if members == [] then fields
    else MemberFields(lib, mode, SetKey(fields, lib.unescape(StringBytes(members[0].key)), ValueOf(lib, mode, members[0].item.v)), members[1..])
  }

  /** The laws of the library: rounding is monotone and exact up to 2^53; a string without an escape is its
      own bytes. */
  ghost predicate Lawful(lib: Library)
  {
    && (forall x, y :: x <= y ==> lib.rnd(x) <= lib.rnd(y))
    && (forall k: int :: -SAFE <= k <= SAFE ==> lib.rnd(Whole(k)) == Whole(k))
    && (forall cs: seq<StrChar> :: !HasEscape(cs) ==> lib.unescape(StringBytes(cs)) == CharsBytes(cs))
  }

  // ---- integers in rounded arithmetic ----

  /** `x` is the prefix value `n`, as long as a number holds it; beyond that it stays beyond. */
  ghost predicate Tracks(x: real, n: int)
  {
    if n < SAFE then x == Whole(n) else x >= Whole(SAFE)
  }

  lemma AccumulatedTracks(lib: Library, x: real, n: nat, d: nat)
    requires Lawful(lib) && Tracks(x, n) && d <= 9
    ensures Tracks(Accumulated(lib.rnd, x, d), n * 10 + d)
  {
    var rnd := lib.rnd;
    assert rnd(Whole(SAFE)) == Whole(SAFE);
    if n < SAFE && n * 10 < SAFE {
      assert x * 10.0 == Whole(n * 10) && rnd(Whole(n * 10)) == Whole(n * 10);
      assert Whole(n * 10) + Whole(d) == Whole(n * 10 + d);
      if n * 10 + d < SAFE { assert rnd(Whole(n * 10 + d)) == Whole(n * 10 + d); }
    } else {
      assert x * 10.0 >= Whole(SAFE);
      assert rnd(x * 10.0) + Whole(d) >= Whole(SAFE);
    }
  }

  lemma ValueSnoc(t: Temporal.text, c: int)
    ensures Temporal.Value(t + [c]) == Temporal.Value(t) * 10 + (c - 48)
  {
    assert (t + [c])[..|t|] == t;
  }

  lemma {:induction false} ValuePositive(t: seq<byte>)
    requires forall i :: 0 <= i < |t| ==> Temporal.IsDigit(t[i])
    ensures Temporal.Value(t) >= 0
  {
    if t != [] { ValuePositive(t[..|t| - 1]); }
  }

  // ---- the parser ----

  /** The cursor passes the whitespace `w` and stands at `rest`. */
  method Ws(b: seq<byte>, start: nat, ghost w: ws, ghost rest: seq<byte>) returns (p: nat)
    requires start <= |b| && b[start..] == w + rest && (rest != [] ==> !IsWsByte(rest[0]))
    ensures start <= p <= |b| && b[p..] == rest
  {
    WsSkipped(w, rest);
    p := SkipWsFrom(b, start);
  }

  /** What the string scan leaves, starting at the closing quote; it passes two bytes at a backslash. */
  function QuoteEnd(t: seq<byte>): (r: (seq<byte>, bool))
    ensures |r.0| <= |t|
    decreases |t|
  {
    if t == [] || t[0] == QUOTE then (t, false)
    else if t[0] == BACKSLASH then (if |t| < 2 then ([], true) else (QuoteEnd(t[2..]).0, true))
    else QuoteEnd(t[1..])
  }

  lemma PlainPassed(b: byte, tail: seq<byte>)
    requires b != QUOTE && b != BACKSLASH
    ensures QuoteEnd([b] + tail) == QuoteEnd(tail)
  {
    assert ([b] + tail)[1..] == tail;
  }

  lemma UnicodePassed(h1: hex, h2: hex, h3: hex, h4: hex, tail: seq<byte>)
    ensures QuoteEnd(CharBytes(Unicode(h1, h2, h3, h4)) + tail) == (QuoteEnd(tail).0, true)
  {
    var digits := [h1] + ([h2] + ([h3] + ([h4] + tail)));
    var t := CharBytes(Unicode(h1, h2, h3, h4)) + tail;
    assert t[0] == BACKSLASH && t[2..] == digits;
    assert IsHex(h1) && IsHex(h2) && IsHex(h3) && IsHex(h4);
    PlainPassed(h1, [h2] + ([h3] + ([h4] + tail)));
    PlainPassed(h2, [h3] + ([h4] + tail));
    PlainPassed(h3, [h4] + tail);
    PlainPassed(h4, tail);
  }

  lemma ShortPassed(e: escape, tail: seq<byte>)
    ensures QuoteEnd(CharBytes(Short(e)) + tail) == (QuoteEnd(tail).0, true)
  {
    var t := CharBytes(Short(e)) + tail;
    assert t[0] == BACKSLASH && t[2..] == tail;
  }

  lemma {:induction false} QuoteReached(cs: seq<StrChar>, rest: seq<byte>)
    ensures QuoteEnd(CharsBytes(cs) + ([QUOTE] + rest)) == ([QUOTE] + rest, HasEscape(cs))
  {
    var t := CharsBytes(cs) + ([QUOTE] + rest);
    if cs == [] {
      assert t == [QUOTE] + rest;
      assert ([QUOTE] + rest)[0] == QUOTE;
    } else {
      var tail := CharsBytes(cs[1..]) + ([QUOTE] + rest);
      Assoc(CharBytes(cs[0]), CharsBytes(cs[1..]), [QUOTE] + rest);
      QuoteReached(cs[1..], rest);
      EscapeStep(cs);
      hide HasEscape;
      hide QuoteEnd;
      match cs[0]
      case Plain(b) => assert IsPlain(b); PlainPassed(b, tail);
      case Short(e) => ShortPassed(e, tail);
      case Unicode(h1, h2, h3, h4) => UnicodePassed(h1, h2, h3, h4, tail);
    }
  }

  method ParseString(b: seq<byte>, start: nat, lib: Library, ghost cs: seq<StrChar>, ghost rest: seq<byte>) returns (out: seq<byte>, p: nat)
    requires start <= |b| && b[start..] == StringBytes(cs) + rest && Lawful(lib)
    ensures out == lib.unescape(StringBytes(cs)) && start < p <= |b| && b[p..] == rest
  {
    hide CharsBytes, QuoteEnd;
    QuoteReached(cs, rest);
    assert b[start + 1..] == b[start..][1..] == CharsBytes(cs) + ([QUOTE] + rest);
    var esc;
    p, esc := ScanQuoted(b, start + 1);
    assert |b| - p == 1 + |rest|;
    assert b[start..p + 1] == b[start..][..p + 1 - start] == StringBytes(cs);
    assert b[start + 1..p] == b[start..p + 1][1..p - start] == CharsBytes(cs);
    out := if esc then lib.unescape(b[start..p + 1]) else b[start + 1..p];
    p := p + 1;
    assert b[p..] == b[p - 1..][1..];
  }

  /** From behind the opening quote to the closing one, two bytes at a time behind a backslash. */
  method ScanQuoted(b: seq<byte>, start: nat) returns (p: nat, esc: bool)
    requires start <= |b| && QuoteEnd(b[start..]).0 != []
    ensures start <= p <= |b| && b[p..] == QuoteEnd(b[start..]).0 && esc == QuoteEnd(b[start..]).1
  {
    p, esc := start, false;
    ghost var all := QuoteEnd(b[start..]);
    while p < |b| && b[p] != QUOTE
      invariant start <= p && all.0 == (if p <= |b| then QuoteEnd(b[p..]).0 else [])
      invariant all.1 == (esc || (p <= |b| && QuoteEnd(b[p..]).1))
      decreases |b| - p
    {
      ghost var t := b[p..];
      assert t[0] == b[p] && t[1..] == b[p + 1..];
      if b[p] == BACKSLASH {
        assert p + 2 <= |b| ==> t[2..] == b[p + 2..];
        esc, p := true, p + 2;
        continue;
      }
      p := p + 1;
    }
  }

  /** The digits of b[from..to) in rounded arithmetic. */
  method Accumulate(b: seq<byte>, from: nat, to: nat, lib: Library) returns (x: real)
    requires from <= to <= |b| && Lawful(lib) && forall i :: from <= i < to ==> Temporal.IsDigit(b[i])
    ensures Temporal.Value(b[from..to]) >= 0 && Tracks(x, Temporal.Value(b[from..to]))
  {
    x := 0.0;
    ValuePositive(b[from..to]);
    hide Lawful;
    for q := from to to
      invariant Temporal.Value(b[from..q]) >= 0 && Tracks(x, Temporal.Value(b[from..q]))
    {
      ValuePositive(b[from..q]);
      assert b[from..q + 1] == b[from..q] + [b[q]];
      ValueSnoc(b[from..q], b[q]);
      AccumulatedTracks(lib, x, Temporal.Value(b[from..q]), b[q] - 48);
      hide Tracks;
      x := lib.rnd(lib.rnd(x * 10.0) + Whole(b[q] - 48));
    }
  }

  /** Where the digits of the number start, and what stands there and behind it. */
  lemma NumberStands(b: seq<byte>, start: nat, text: seq<byte>, rest: seq<byte>)
    requires start <= |b| && b[start..] == text + rest && IsNumber(text) && (rest != [] ==> EndsScalar(rest[0]))
    ensures var end := start + |text|; var first := end - |Unsigned(text)|;
            && start <= first < end <= |b| && first == (if b[start] == 45 then start + 1 else start)
            && b[first..end] == Unsigned(text) && b[start..end] == text && b[end..] == rest
            && (end < |b| ==> EndsScalar(b[end]))
  {
    var end := start + |text|;
    assert b[start..end] == b[start..][..|text|] == text && b[end..] == b[start..][|text|..] == rest;
    assert b[start] == text[0];
    assert end < |b| ==> b[end] == rest[0];
    hide EndsScalar, IsFloatByte;
  }

  /** The end of a number, and whether it has a fraction or an exponent. */
  method ScanNumber(b: seq<byte>, start: nat, ghost text: seq<byte>, ghost rest: seq<byte>) returns (p: nat, isFloat: bool)
    requires start <= |b| && b[start..] == text + rest && IsNumber(text) && (rest != [] ==> EndsScalar(rest[0]))
    ensures p == start + |text| && p <= |b| && b[start..p] == text && b[p..] == rest && isFloat == !IsInteger(text)
  {
    NumberStands(b, start, text, rest);
    p, isFloat := start, false;
    if b[p] == 45 { p := p + 1; }
    isFloat, p := ScanDigits(b, p, start + |text|);
    assert b[start + |text| - |Unsigned(text)|..p] == Unsigned(text);
  }

  method ScanDigits(b: seq<byte>, first: nat, ghost end: nat) returns (isFloat: bool, p: nat)
    requires first < end <= |b| && (end < |b| ==> EndsScalar(b[end]))
    requires forall i :: 0 <= i < end - first ==> Temporal.IsDigit(b[first..end][i]) || IsFloatByte(b[first..end][i])
    ensures p == end && isFloat == exists i :: 0 <= i < end - first && !Temporal.IsDigit(b[first..end][i])
  {
    assert forall i :: first <= i < end ==> b[i] == b[first..end][i - first];
    p, isFloat := first, false;
    while p < |b| && (Temporal.IsDigit(b[p]) || IsFloatByte(b[p]))
      invariant first <= p <= end && isFloat == exists i :: first <= i < p && !Temporal.IsDigit(b[i])
    {
      if !Temporal.IsDigit(b[p]) { isFloat := true; }
      p := p + 1;
    }
    if isFloat {
      var i :| first <= i < p && !Temporal.IsDigit(b[i]);
      assert !Temporal.IsDigit(b[first..end][i - first]);
    }
  }

  method ParseNumber(b: seq<byte>, start: nat, lib: Library, mode: Mode, ghost text: seq<byte>, ghost rest: seq<byte>) returns (v: Value, p: nat)
    requires start <= |b| && b[start..] == text + rest && IsNumber(text) && (rest != [] ==> EndsScalar(rest[0])) && Lawful(lib)
    ensures v == NumberOf(lib, mode, text) && start < p <= |b| && b[p..] == rest
  {
    hide Lawful;
    var isFloat;
    p, isFloat := ScanNumber(b, start, text, rest);
    var raw := b[start..p];
    if isFloat || mode == AsNumber { return Number(lib.number(raw)), p; }
    var q := start;
    var neg := false;
    if b[q] == 45 { neg, q := true, q + 1; }
    assert b[start] == text[0] && b[q..p] == Unsigned(text);
    forall i | q <= i < p ensures Temporal.IsDigit(b[i]) { assert Unsigned(text)[i - q] == b[i]; }
    var x := Accumulate(b, q, p, lib);
    if neg { x := -x; }
    SafeIff(x, IntegerOf(text));
    if Whole(-SAFE) < x < Whole(SAFE) { return Number(x), p; }
    v := if mode == AsBigInt then BigInt(IntegerOf(raw)) else Digits(raw);
  }

  lemma SafeIff(x: real, n: int)
    requires if n >= 0 then Tracks(x, n) else Tracks(-x, -n)
    ensures Whole(-SAFE) < x < Whole(SAFE) <==> -SAFE < n < SAFE
    ensures -SAFE < n < SAFE ==> x == Whole(n)
  {
  }

  /** What may follow a value: after a number a separator. */
  predicate Follows(v: Json, rest: seq<byte>)
  {
    v.Scalar? && rest != [] ==> EndsScalar(rest[0])
  }

  /** The first byte of a value tells what it is. */
  lemma FirstByte(v: Json)
    requires Valid(v)
    ensures var c := Print(v)[0];
            && !IsWsByte(c) && c != COMMA && c != 0x5d && c != 0x7d
            && (v.Obj? <==> c == 0x7b) && (v.Arr? <==> c == 0x5b) && (v.Str? <==> c == QUOTE)
    ensures v.Scalar? ==>
              var c := Print(v)[0];
              && (c == 116 <==> v.text == TRUE) && (c == 102 <==> v.text == FALSE) && (c == 110 <==> v.text == NULL)
  {
    if v.Scalar? && IsNumber(v.text) {
      var t := v.text;
      assert t[0] == 45 || Temporal.IsDigit(t[0]);
      assert t[0] != TRUE[0] && t[0] != FALSE[0] && t[0] != NULL[0];
    }
  }

  /** A value behind the whitespace `w`: the result is the value of the tree, and the cursor stands at its end. */
  method ParseValue(b: seq<byte>, start: nat, lib: Library, mode: Mode, ghost w: ws, ghost v: Json, ghost rest: seq<byte>) returns (r: Value, p: nat)
    requires start <= |b| && b[start..] == w + (Print(v) + rest) && Valid(v) && Follows(v, rest) && Lawful(lib)
    ensures r == ValueOf(lib, mode, v) && start < p <= |b| && b[p..] == rest
    decreases |b| - start, 1
  {
    hide Lawful, Print;
    FirstByte(v);
    assert (Print(v) + rest)[0] == Print(v)[0];
    p := Ws(b, start, w, Print(v) + rest);
    var c := b[p];
    assert c == b[p..][0];
    if c == 0x7b {
      r, p := ParseObject(b, p, lib, mode, v, rest);
    } else if c == 0x5b {
      r, p := ParseArray(b, p, lib, mode, v, rest);
    } else if c == QUOTE {
      StringPrinted(v);
      var bytes;
      bytes, p := ParseString(b, p, lib, v.chars, rest);
      r := Text(bytes);
    } else {
      r, p := ParseScalar(b, p, lib, mode, v, rest);
    }
  }

  lemma StringPrinted(v: Json)
    requires v.Str?
    ensures Print(v) == StringBytes(v.chars)
  {
  }

  method ParseScalar(b: seq<byte>, start: nat, lib: Library, mode: Mode, ghost v: Json, ghost rest: seq<byte>) returns (r: Value, p: nat)
    requires start <= |b| && b[start..] == Print(v) + rest && v.Scalar? && Valid(v) && Follows(v, rest) && Lawful(lib)
    ensures r == ValueOf(lib, mode, v) && start < p <= |b| && b[p..] == rest
  {
    hide Lawful;
    FirstByte(v);
    assert b[start] == b[start..][0] == v.text[0];
    assert b[start + |v.text|..] == b[start..][|v.text|..] == rest;
    var c := b[start];
    if c == 116 { return Bool(true), start + 4; }
    if c == 102 { return Bool(false), start + 5; }
    if c == 110 { return Null, start + 4; }
    r, p := ParseNumber(b, start, lib, mode, v.text, rest);
  }

  /** What follows item `k`, whose own whitespace in front is gone. */
  function AfterItem(items: seq<Item>, k: nat, rest: seq<byte>): seq<byte>
    requires k < |items|
  {
    items[k].after + ((if k + 1 < |items| then [COMMA] + PrintItems(items[k + 1..]) else [0x5d]) + (if k + 1 < |items| then [0x5d] + rest else rest))
  }

  lemma ArrayOpens(v: Json, rest: seq<byte>)
    requires v.Arr?
    ensures Print(v) + rest == [0x5b] + ((if v.items == [] then v.gap else v.items[0].before)
              + (if v.items == [] then [0x5d] + rest else Print(v.items[0].v) + AfterItem(v.items, 0, rest)))
  {
    if v.items != [] {
      ItemText(v.items, 0, rest);
      assert v.items[0..] == v.items;
      hide Print, PrintItems;
      assert [0x5b] + PrintItems(v.items) + [0x5d] + rest == [0x5b] + (PrintItems(v.items) + ([0x5d] + rest));
      assert Print(v) == [0x5b] + PrintItems(v.items) + [0x5d] by { ArrayText(v); }
    }
  }

  lemma ArrayText(v: Json)
    requires v.Arr? && v.items != []
    ensures Print(v) == [0x5b] + PrintItems(v.items) + [0x5d]
  {
  }

  lemma ItemText(items: seq<Item>, k: nat, rest: seq<byte>)
    requires k < |items|
    ensures PrintItems(items[k..]) + ([0x5d] + rest) == items[k].before + (Print(items[k].v) + AfterItem(items, k, rest))
  {
    hide Print;
    var x := items[k];
    assert items[k..][0] == x && items[k..][1..] == items[k + 1..];
    assert PrintItem(x) == x.before + Print(x.v) + x.after;
    hide PrintItem, PrintItems;
    if k + 1 < |items| {
      var more := [COMMA] + PrintItems(items[k + 1..]);
      assert PrintItems(items[k..]) == PrintItem(x) + more by { ItemsUnfold(items[k..]); }
      Assoc(x.before + Print(x.v) + x.after, more, [0x5d] + rest);
      Assoc(x.before + Print(x.v), x.after, more + ([0x5d] + rest));
      Assoc(x.before, Print(x.v), x.after + (more + ([0x5d] + rest)));
    } else {
      assert PrintItems(items[k..]) == PrintItem(x) by { ItemsUnfold(items[k..]); }
      Assoc(x.before + Print(x.v), x.after, [0x5d] + rest);
      Assoc(x.before, Print(x.v), x.after + ([0x5d] + rest));
    }
  }

  lemma ItemsUnfold(items: seq<Item>)
    requires items != []
    ensures PrintItems(items) == PrintItem(items[0]) + (if |items| == 1 then [] else [COMMA] + PrintItems(items[1..]))
  {
  }

  lemma {:induction false} NthValid(items: seq<Item>, k: nat)
    requires ValidItems(items) && k < |items|
    ensures Valid(items[k].v)
  {
    if k > 0 { NthValid(items[1..], k - 1); }
  }

  lemma ItemFollows(items: seq<Item>, k: nat, rest: seq<byte>)
    requires k < |items|
    ensures AfterItem(items, k, rest) != [] && EndsScalar(AfterItem(items, k, rest)[0])
  {
    hide PrintItems;
    if items[k].after != [] { assert IsWsByte(items[k].after[0]); }
  }

  /** The first byte behind the bracket that is no whitespace, and what follows. */
  function FirstItem(v: Json, rest: seq<byte>): seq<byte>
    requires v.Arr?
  {
    if v.items == [] then [0x5d] + rest else Print(v.items[0].v) + AfterItem(v.items, 0, rest)
  }

  lemma FirstItemStands(b: seq<byte>, start: nat, v: Json, rest: seq<byte>)
    requires start < |b| && b[start..] == Print(v) + rest && v.Arr? && Valid(v)
    ensures b[start + 1..] == (if v.items == [] then v.gap else v.items[0].before) + FirstItem(v, rest)
    ensures var t := FirstItem(v, rest);
            t != [] && !IsWsByte(t[0]) && (t[0] == 0x5d <==> v.items == []) && (v.items == [] ==> t[1..] == rest)
            && (v.items != [] ==> t == Print(v.items[0].v) + AfterItem(v.items, 0, rest))
  {
    ArrayOpens(v, rest);
    if v.items != [] {
      NthValid(v.items, 0);
      FirstByte(v.items[0].v);
      hide Print, AfterItem;
      assert FirstItem(v, rest)[0] == Print(v.items[0].v)[0];
    }
    hide Print, AfterItem;
    assert b[start + 1..] == b[start..][1..];
  }

  /** One byte further. */
  lemma Behind(b: seq<byte>, p: nat)
    requires p < |b|
    ensures b[p] == b[p..][0] && b[p + 1..] == b[p..][1..]
  {
  }

  method ParseArray(b: seq<byte>, start: nat, lib: Library, mode: Mode, ghost v: Json, ghost rest: seq<byte>) returns (r: Value, p: nat)
    requires start < |b| && b[start..] == Print(v) + rest && v.Arr? && Valid(v) && Lawful(lib)
    ensures r == ValueOf(lib, mode, v) && start < p <= |b| && b[p..] == rest
    decreases |b| - start, 0
  {
    hide *;
    ghost var items := v.items;
    FirstItemStands(b, start, v, rest);
    ArrayValue(lib, mode, v);
    p := Ws(b, start + 1, if items == [] then v.gap else items[0].before, FirstItem(v, rest));
    Behind(b, p);
    if b[p] == 0x5d { return Array([]), p + 1; }
    var a;
    a, p := ParseItems(b, p, lib, mode, items, rest);
    r := Array(a);
  }

  /** The items, from the first one's first byte to behind the closing bracket. */
  method ParseItems(b: seq<byte>, start: nat, lib: Library, mode: Mode, ghost items: seq<Item>, ghost rest: seq<byte>) returns (a: seq<Value>, p: nat)
    requires items != [] && ValidItems(items) && Lawful(lib)
    requires start <= |b| && b[start..] == Print(items[0].v) + AfterItem(items, 0, rest)
    ensures a == ItemValues(lib, mode, items) && start < p <= |b| && b[p..] == rest
    decreases |b| - start, 3
  {
    hide Lawful, Print, PrintItems, AfterItem, ValueOf;
    a, p := [], start;
    ghost var k := 0;
    ghost var w: ws := [];
    assert items[0..] == items;
    assert b[p..] == w + (Print(items[0].v) + AfterItem(items, 0, rest));
    NoItems(lib, mode);
    while true
      invariant k < |items| && start <= p <= |b| && b[p..] == w + (Print(items[k].v) + AfterItem(items, k, rest))
      invariant a + ItemValues(lib, mode, items[k..]) == ItemValues(lib, mode, items)
      decreases |items| - k
    {
      NthItemValue(lib, mode, items, k);
      var x, c;
      x, c, p := ParseItem(b, p, lib, mode, w, items, k, rest);
      a := a + [x];
      p := p + 1;
      if c == COMMA {
        ItemText(items, k + 1, rest);
        k, w := k + 1, items[k + 1].before;
        continue;
      }
      assert items[k + 1..] == [];
      return;
    }
  }

  lemma NoItems(lib: Library, mode: Mode)
    ensures ItemValues(lib, mode, []) == []
  {
  }

  /** One item and the byte behind its whitespace. */
  method ParseItem(b: seq<byte>, start: nat, lib: Library, mode: Mode, ghost w: ws, ghost items: seq<Item>, ghost k: nat, ghost rest: seq<byte>)
    returns (x: Value, c: byte, p: nat)
    requires k < |items| && ValidItems(items) && Lawful(lib)
    requires start <= |b| && b[start..] == w + (Print(items[k].v) + AfterItem(items, k, rest))
    ensures x == ValueOf(lib, mode, items[k].v) && start < p < |b| && c == b[p]
    ensures if k + 1 < |items| then c == COMMA && b[p + 1..] == PrintItems(items[k + 1..]) + ([0x5d] + rest) else c == 0x5d && b[p + 1..] == rest
    decreases |b| - start, 2
  {
    hide Lawful, Print, PrintItems, AfterItem, ValueOf;
    NthValid(items, k);
    ItemFollows(items, k, rest);
    x, p := ParseValue(b, start, lib, mode, w, items[k].v, AfterItem(items, k, rest));
    c, p := Separator(b, p, items, k, rest);
  }

  lemma ArrayValue(lib: Library, mode: Mode, v: Json)
    requires v.Arr? && Valid(v)
    ensures ValueOf(lib, mode, v) == Array(ItemValues(lib, mode, v.items)) && ValidItems(v.items) && ItemValues(lib, mode, []) == []
  {
  }

  lemma NthItemValue(lib: Library, mode: Mode, items: seq<Item>, k: nat)
    requires k < |items|
    ensures ItemValues(lib, mode, items[k..]) == [ValueOf(lib, mode, items[k].v)] + ItemValues(lib, mode, items[k + 1..])
  {
    assert items[k..][0] == items[k] && items[k..][1..] == items[k + 1..];
  }

  /** The whitespace after an item is passed, and the byte after it read. */
  method Separator(b: seq<byte>, start: nat, ghost items: seq<Item>, ghost k: nat, ghost rest: seq<byte>) returns (c: byte, p: nat)
    requires k < |items| && start <= |b| && b[start..] == AfterItem(items, k, rest)
    ensures start <= p < |b| && c == b[p]
    ensures if k + 1 < |items| then c == COMMA && b[p + 1..] == PrintItems(items[k + 1..]) + ([0x5d] + rest) else c == 0x5d && b[p + 1..] == rest
  {
    hide PrintItems;
    ghost var more := if k + 1 < |items| then [COMMA] + PrintItems(items[k + 1..]) else [0x5d];
    ghost var tail := if k + 1 < |items| then [0x5d] + rest else rest;
    assert (more + tail)[0] == more[0];
    p := Ws(b, start, items[k].after, more + tail);
    c := b[p];
    assert c == b[p..][0] && b[p + 1..] == b[p..][1..];
    if k + 1 < |items| { assert more + tail == [COMMA] + (PrintItems(items[k + 1..]) + tail); }
  }

  /** What follows member `k` behind its value. */
  function AfterMember(members: seq<Member>, k: nat, rest: seq<byte>): seq<byte>
    requires k < |members|
  {
    members[k].item.after
    + ((if k + 1 < |members| then [COMMA] + PrintMembers(members[k + 1..]) else [0x7d]) + (if k + 1 < |members| then [0x7d] + rest else rest))
  }

  /** Member `k` from its key on, and all that follows. */
  function FromKey(members: seq<Member>, k: nat, rest: seq<byte>): seq<byte>
    requires k < |members|
  {
    var m := members[k];
    StringBytes(m.key) + (m.afterKey + ([COLON] + (m.item.before + (Print(m.item.v) + AfterMember(members, k, rest)))))
  }

  lemma MemberText(members: seq<Member>, k: nat, rest: seq<byte>)
    requires k < |members|
    ensures PrintMembers(members[k..]) + ([0x7d] + rest) == members[k].before + FromKey(members, k, rest)
  {
    var m := members[k];
    assert members[k..][0] == m && members[k..][1..] == members[k + 1..];
    var more := if k + 1 < |members| then [COMMA] + PrintMembers(members[k + 1..]) else [];
    MembersUnfold(members[k..]);
    assert PrintItem(m.item) == m.item.before + Print(m.item.v) + m.item.after;
    hide Print, PrintItem, PrintMembers, StringBytes;
    var x, end := m.item, [0x7d] + rest;
    Assoc(KeyBytes(m) + PrintItem(x), more, end);
    Assoc(KeyBytes(m), PrintItem(x), more + end);
    Assoc(x.before + Print(x.v), x.after, more + end);
    Assoc(x.before, Print(x.v), x.after + (more + end));
    AfterMemberIs(members, k, rest);
    KeyParts(m, x.before + (Print(x.v) + (x.after + (more + end))));
  }

  lemma AfterMemberIs(members: seq<Member>, k: nat, rest: seq<byte>)
    requires k < |members|
    ensures AfterMember(members, k, rest) ==
              members[k].item.after + ((if k + 1 < |members| then [COMMA] + PrintMembers(members[k + 1..]) else []) + ([0x7d] + rest))
  {
    hide PrintMembers;
  }

  lemma KeyParts(m: Member, tail: seq<byte>)
    ensures KeyBytes(m) + tail == m.before + (StringBytes(m.key) + (m.afterKey + ([COLON] + tail)))
  {
    hide StringBytes;
    Assoc(m.before + StringBytes(m.key) + m.afterKey, [COLON], tail);
    Assoc(m.before + StringBytes(m.key), m.afterKey, [COLON] + tail);
    Assoc(m.before, StringBytes(m.key), m.afterKey + ([COLON] + tail));
  }

  lemma MembersUnfold(members: seq<Member>)
    requires members != []
    ensures PrintMembers(members) ==
              KeyBytes(members[0]) + PrintItem(members[0].item) + (if |members| == 1 then [] else [COMMA] + PrintMembers(members[1..]))
  {
  }

  lemma ObjectOpens(v: Json, rest: seq<byte>)
    requires v.Obj?
    ensures Print(v) + rest == [0x7b] + ((if v.members == [] then v.gap else v.members[0].before)
              + (if v.members == [] then [0x7d] + rest else FromKey(v.members, 0, rest)))
  {
    if v.members != [] {
      MemberText(v.members, 0, rest);
      assert v.members[0..] == v.members;
      ObjectText(v);
      hide *;
      Braces(PrintMembers(v.members), rest);
    } else {
      hide FromKey;
    }
  }

  lemma Braces(a: seq<byte>, rest: seq<byte>)
    ensures [0x7b] + a + [0x7d] + rest == [0x7b] + (a + ([0x7d] + rest))
  {
  }

  lemma ObjectText(v: Json)
    requires v.Obj? && v.members != []
    ensures Print(v) == [0x7b] + PrintMembers(v.members) + [0x7d]
  {
  }

  lemma {:induction false} NthMemberValid(members: seq<Member>, k: nat)
    requires ValidMembers(members) && k < |members|
    ensures Valid(members[k].item.v)
  {
    if k > 0 { NthMemberValid(members[1..], k - 1); }
  }

  lemma MemberFollows(members: seq<Member>, k: nat, rest: seq<byte>)
    requires k < |members|
    ensures AfterMember(members, k, rest) != [] && EndsScalar(AfterMember(members, k, rest)[0])
  {
    hide PrintMembers;
    if members[k].item.after != [] { assert IsWsByte(members[k].item.after[0]); }
  }

  lemma ObjectValue(lib: Library, mode: Mode, v: Json)
    requires v.Obj? && Valid(v)
    ensures ValueOf(lib, mode, v) == Object(MemberFields(lib, mode, [], v.members)) && ValidMembers(v.members)
    ensures MemberFields(lib, mode, [], []) == []
  {
  }

  lemma NthField(lib: Library, mode: Mode, fields: seq<(seq<byte>, Value)>, members: seq<Member>, k: nat)
    requires k < |members|
    ensures var m := members[k];
            MemberFields(lib, mode, fields, members[k..]) ==
              MemberFields(lib, mode, SetKey(fields, lib.unescape(StringBytes(m.key)), ValueOf(lib, mode, m.item.v)), members[k + 1..])
    ensures forall fs :: MemberFields(lib, mode, fs, []) == fs
  {
    assert members[k..][0] == members[k] && members[k..][1..] == members[k + 1..];
  }

  /** The first byte behind the brace that is no whitespace, and what follows. */
  function FirstKey(v: Json, rest: seq<byte>): seq<byte>
    requires v.Obj?
  {
    if v.members == [] then [0x7d] + rest else FromKey(v.members, 0, rest)
  }

  lemma FirstKeyStands(b: seq<byte>, start: nat, v: Json, rest: seq<byte>)
    requires start < |b| && b[start..] == Print(v) + rest && v.Obj?
    ensures b[start + 1..] == (if v.members == [] then v.gap else v.members[0].before) + FirstKey(v, rest)
    ensures FirstKey(v, rest) != [] && !IsWsByte(FirstKey(v, rest)[0]) && (FirstKey(v, rest)[0] == 0x7d <==> v.members == [])
    ensures if v.members == [] then FirstKey(v, rest)[1..] == rest else FirstKey(v, rest) == FromKey(v.members, 0, rest)
  {
    hide Print, PrintMembers, FromKey;
    ObjectOpens(v, rest);
    if v.members != [] { KeyStarts(v.members, 0, rest); }
    assert b[start + 1..] == b[start..][1..];
  }

  method ParseObject(b: seq<byte>, start: nat, lib: Library, mode: Mode, ghost v: Json, ghost rest: seq<byte>) returns (r: Value, p: nat)
    requires start < |b| && b[start..] == Print(v) + rest && v.Obj? && Valid(v) && Lawful(lib)
    ensures r == ValueOf(lib, mode, v) && start < p <= |b| && b[p..] == rest
    decreases |b| - start, 0
  {
    hide *;
    ghost var members := v.members;
    FirstKeyStands(b, start, v, rest);
    ObjectValue(lib, mode, v);
    p := Ws(b, start + 1, if members == [] then v.gap else members[0].before, FirstKey(v, rest));
    Behind(b, p);
    if b[p] == 0x7d { return Object([]), p + 1; }
    var o;
    o, p := ParseMembers(b, p, lib, mode, members, rest);
    r := Object(o);
  }

  /** The members, from the first key to behind the closing brace. */
  method ParseMembers(b: seq<byte>, start: nat, lib: Library, mode: Mode, ghost members: seq<Member>, ghost rest: seq<byte>)
    returns (o: seq<(seq<byte>, Value)>, p: nat)
    requires members != [] && ValidMembers(members) && Lawful(lib) && start <= |b| && b[start..] == FromKey(members, 0, rest)
    ensures o == MemberFields(lib, mode, [], members) && start < p <= |b| && b[p..] == rest
    decreases |b| - start, 3
  {
    hide Lawful, FromKey, PrintMembers, AfterMember, ValueOf, MemberFields, SetKey;
    o, p := [], start;
    ghost var k := 0;
    ghost var w: ws := [];
    assert b[p..] == w + FromKey(members, 0, rest) && members[0..] == members;
    while true
      invariant k < |members| && start <= p <= |b| && b[p..] == w + FromKey(members, k, rest)
      invariant MemberFields(lib, mode, o, members[k..]) == MemberFields(lib, mode, [], members)
      decreases |members| - k
    {
      NthField(lib, mode, o, members, k);
      var key, x, c;
      key, x, p := ParseMember(b, p, lib, mode, w, members, k, rest);
      o := SetKey(o, key, x);
      c, p := MemberSeparator(b, p, members, k, rest);
      p := p + 1;
      if c == COMMA {
        MemberText(members, k + 1, rest);
        k, w := k + 1, members[k + 1].before;
        continue;
      }
      assert members[k + 1..] == [];
      return;
    }
  }

  lemma KeyStarts(members: seq<Member>, k: nat, rest: seq<byte>)
    requires k < |members|
    ensures FromKey(members, k, rest) != [] && FromKey(members, k, rest)[0] == QUOTE
  {
    StringStarts(members[k].key);
    hide StringBytes, AfterMember, Print;
    assert FromKey(members, k, rest)[0] == StringBytes(members[k].key)[0];
  }

  lemma StringStarts(cs: seq<StrChar>)
    ensures StringBytes(cs)[0] == QUOTE
  {
  }

  /** Key, colon and value. */
  method ParseMember(b: seq<byte>, start: nat, lib: Library, mode: Mode, ghost w: ws, ghost members: seq<Member>, ghost k: nat, ghost rest: seq<byte>)
    returns (key: seq<byte>, x: Value, p: nat)
    requires k < |members| && start <= |b| && b[start..] == w + FromKey(members, k, rest) && ValidMembers(members) && Lawful(lib)
    ensures key == lib.unescape(StringBytes(members[k].key)) && x == ValueOf(lib, mode, members[k].item.v)
    ensures start < p <= |b| && b[p..] == AfterMember(members, k, rest)
    decreases |b| - start, 2
  {
    hide Lawful, Print, StringBytes, AfterMember;
    ghost var m := members[k];
    StringStarts(m.key);
    assert FromKey(members, k, rest)[0] == StringBytes(m.key)[0];
    p := Ws(b, start, w, FromKey(members, k, rest));
    ghost var value := m.item.before + (Print(m.item.v) + AfterMember(members, k, rest));
    key, p := ParseString(b, p, lib, m.key, m.afterKey + ([COLON] + value));
    assert ([COLON] + value)[0] == COLON;
    p := Ws(b, p, m.afterKey, [COLON] + value);
    assert b[p + 1..] == b[p..][1..] == value;
    NthMemberValid(members, k);
    MemberFollows(members, k, rest);
    x, p := ParseValue(b, p + 1, lib, mode, m.item.before, m.item.v, AfterMember(members, k, rest));
  }

  method MemberSeparator(b: seq<byte>, start: nat, ghost members: seq<Member>, ghost k: nat, ghost rest: seq<byte>) returns (c: byte, p: nat)
    requires k < |members| && start <= |b| && b[start..] == AfterMember(members, k, rest)
    ensures start <= p < |b| && c == b[p]
    ensures if k + 1 < |members| then c == COMMA && b[p + 1..] == PrintMembers(members[k + 1..]) + ([0x7d] + rest) else c == 0x7d && b[p + 1..] == rest
  {
    hide PrintMembers;
    ghost var more := if k + 1 < |members| then [COMMA] + PrintMembers(members[k + 1..]) else [0x7d];
    ghost var tail := if k + 1 < |members| then [0x7d] + rest else rest;
    assert (more + tail)[0] == more[0];
    p := Ws(b, start, members[k].item.after, more + tail);
    c := b[p];
    assert c == b[p..][0] && b[p + 1..] == b[p..][1..];
    if k + 1 < |members| { assert more + tail == [COMMA] + (PrintMembers(members[k + 1..]) + tail); }
  }

  /** The value in b[start..end): parsing the text of any JSON tree gives the tree's value, whatever
      whitespace stands before and after it, and every integer exactly in the two exact modes. */
  method ParseJsonBuffer(b: seq<byte>, start: nat, end: nat, lib: Library, mode: Mode, ghost before: ws, ghost v: Json, ghost after: ws)
    returns (r: Value)
    requires start <= end <= |b| && b[start..end] == before + Print(v) + after && Valid(v) && Lawful(lib)
    ensures r == ValueOf(lib, mode, v)
  {
    hide Print, Lawful, ValueOf;
    Assoc(before, Print(v), after);
    if after != [] { assert IsWsByte(after[0]); }
    assert b[..end][start..] == b[start..end];
    var p;
    r, p := ParseValue(b[..end], start, lib, mode, before, v, after);
  }

  // ---- the pre-scan ----

  /** Sixteen digits in a row, from `i` on. */
  predicate LongRun(b: seq<byte>, i: nat)
  {
    i + 16 <= |b| && forall j :: i <= j < i + 16 ==> Temporal.IsDigit(b[j])
  }

  lemma RunTooShort(t: seq<byte>, n: nat, run: nat)
    requires 16 <= n <= |t| && run < 16 && !Temporal.IsDigit(t[n - run - 1])
    ensures !LongRun(t, n - 16)
  {
  }

  method MayHaveBigInt(b: seq<byte>, start: nat, end: nat) returns (r: bool)
    requires start <= end <= |b|
    ensures r <==> exists i: nat :: LongRun(b[start..end], i)
  {
    var run: nat := 0;
    ghost var t := b[start..end];
    for p := start to end
      invariant run <= p - start && run < 16 && (run < p - start ==> !Temporal.IsDigit(t[p - start - run - 1]))
      invariant forall j :: p - start - run <= j < p - start ==> Temporal.IsDigit(t[j])
      invariant forall i: nat :: i + 16 <= p - start ==> !LongRun(t, i)
    {
      assert t[p - start] == b[p];
      if 48 <= b[p] <= 57 {
        run := run + 1;
        if run >= 16 {
          assert LongRun(t, p - start - 15);
          return true;
        }
      } else {
        run := 0;
      }
      if p + 1 - start >= 16 { RunTooShort(t, p + 1 - start, run); }
    }
    r := false;
  }

  lemma {:induction false} ValueBelow(t: seq<byte>)
    requires forall i :: 0 <= i < |t| ==> Temporal.IsDigit(t[i])
    ensures 0 <= Temporal.Value(t) < Tens(|t|)
  {
    if t != [] { ValueBelow(t[..|t| - 1]); }
  }

  /** The pre-scan misses no integer that a number cannot hold: such an integer has sixteen digits in a row. */
  lemma BigIntegersHaveLongRuns(before: seq<byte>, t: seq<byte>, after: seq<byte>)
    requires IsNumber(t) && IsInteger(t) && !(-SAFE < IntegerOf(t) < SAFE)
    ensures exists i: nat :: LongRun(before + t + after, i)
  {
    var u := Unsigned(t);
    ValueBelow(u);
    if |u| < 16 {
      TensGrow(|u|, 15);
      TensValues();
      assert false;
    }
    var i := |before| + |t| - |u|;
    var all := before + t + after;
    forall j | i <= j < i + 16 ensures Temporal.IsDigit(all[j]) { assert all[j] == u[j - i]; }
    assert LongRun(all, i);
  }
}
