/** Scanning over JSON text (RFC 8259, sections 2 to 7) without parsing it. */
module JsonScan {
  import opened Bytes

  const QUOTE: byte := 0x22
  const BACKSLASH: byte := 0x5c
  const COMMA: byte := 0x2c
  const COLON: byte := 0x3a

  // ---- well-formed text ----

  predicate IsWsByte(b: byte)
  {
    b == 0x20 || b == 9 || b == 10 || b == 13
  }

  predicate IsWs(t: seq<byte>)
  {
    forall i :: 0 <= i < |t| ==> IsWsByte(t[i])
  }

  type ws = t: seq<byte> | IsWs(t)

  predicate IsPlain(b: byte)
  {
    b >= 0x20 && b != QUOTE && b != BACKSLASH
  }

  type plain = b: byte | IsPlain(b) witness 0x20

  predicate IsEscape(b: byte)
  {
    b in {0x22, 0x5c, 0x2f, 0x62, 0x66, 0x6e, 0x72, 0x74}
  }

  type escape = b: byte | IsEscape(b) witness 0x22

  predicate IsHex(b: byte)
  {
    0x30 <= b <= 0x39 || 0x41 <= b <= 0x46 || 0x61 <= b <= 0x66
  }

  type hex = b: byte | IsHex(b) witness 0x30

  /** One unit of a string: a byte as it is, a short escape, or a four-digit one. */
  datatype StrChar = Plain(b: plain) | Short(e: escape) | Unicode(h1: hex, h2: hex, h3: hex, h4: hex)

  /** A byte of a number or of true, false, null. */
  predicate IsScalarByte(b: byte)
  {
    b > 0x20 && b !in {QUOTE, COMMA, 0x5b, 0x5d, 0x7b, 0x7d, COLON}
  }

  predicate IsScalar(t: seq<byte>)
  {
    t != [] && forall i :: 0 <= i < |t| ==> IsScalarByte(t[i])
  }

  type scalar = t: seq<byte> | IsScalar(t) witness [0x30]

  /** A value with the whitespace around its parts; `gap` stands in an empty array or object. */
  datatype Json = Str(chars: seq<StrChar>) | Scalar(text: scalar)
                | Arr(gap: ws, items: seq<Item>) | Obj(gap: ws, members: seq<Member>)
  datatype Item = Item(before: ws, v: Json, after: ws)
  datatype Member = Member(before: ws, key: seq<StrChar>, afterKey: ws, item: Item)

  function CharBytes(c: StrChar): seq<byte>
  {
    match c
    case Plain(b) => [b]
    case Short(e) => [BACKSLASH, e]
    case Unicode(h1, h2, h3, h4) => [BACKSLASH, 0x75, h1, h2, h3, h4]
  }

  function CharsBytes(cs: seq<StrChar>): seq<byte>
  {
    if cs == [] then [] else CharBytes(cs[0]) + CharsBytes(cs[1..])
  }

  function StringBytes(cs: seq<StrChar>): (r: seq<byte>)
    ensures |r| >= 2
  {
    [QUOTE] + CharsBytes(cs) + [QUOTE]
  }

  function Print(v: Json): (r: seq<byte>)
    ensures r != []
    decreases v, 1
  {
    match v
    case Str(chars) => StringBytes(chars)
    case Scalar(text) => text
    case Arr(gap, items) => [0x5b] + (if items == [] then gap else PrintItems(items)) + [0x5d]
    case Obj(gap, members) => [0x7b] + (if members == [] then gap else PrintMembers(members)) + [0x7d]
  }

  function PrintItem(x: Item): seq<byte>
    decreases x, 2
  {
    x.before + Print(x.v) + x.after
  }

  function PrintItems(items: seq<Item>): seq<byte>
    decreases items, 0
  {
    if items == [] then [] else PrintItem(items[0]) + (if |items| == 1 then [] else [COMMA] + PrintItems(items[1..]))
  }

  function PrintMembers(members: seq<Member>): seq<byte>
    decreases members, 0
  {
    if members == [] then []
    else
      var m := members[0];
      m.before + StringBytes(m.key) + m.afterKey + [COLON] + PrintItem(m.item) + (if |members| == 1 then [] else [COMMA] + PrintMembers(members[1..]))
  }

  // ---- the scanners ----

  /** What follows the closing quote, when the text stands behind the opening one; and whether a backslash was met. */
  function SkipString(t: seq<byte>): (r: (seq<byte>, bool))
    ensures |r.0| <= |t|
    decreases |t|
  {
    if t == [] then ([], false)
    else if t[0] == BACKSLASH then
      var n := if |t| > 1 && t[1] == 0x75 then 6 else 2;
      if n >= |t| then ([], true) else (SkipString(t[n..]).0, true)
    else if t[0] == QUOTE then (t[1..], false)
    else SkipString(t[1..])
  }

  /** What follows a nested value, counting only one kind of bracket. */
  function SkipNest(t: seq<byte>, depth: nat, open: byte, close: byte): (r: seq<byte>)
    ensures |r| <= |t|
    decreases |t|
  {
    if t == [] then []
    else if t[0] == QUOTE then SkipNest(SkipString(t[1..]).0, depth, open, close)
    else if t[0] == open then SkipNest(t[1..], depth + 1, open, close)
    else if t[0] == close then (if depth <= 1 then t[1..] else SkipNest(t[1..], depth - 1, open, close))
    else SkipNest(t[1..], depth, open, close)
  }

  predicate EndsScalar(b: byte)
  {
    b == COMMA || b == 0x7d || b == 0x5d || b <= 0x20
  }

  function SkipScalar(t: seq<byte>): seq<byte>
  {
    if t == [] || EndsScalar(t[0]) then t else SkipScalar(t[1..])
  }

  /** What follows the value that the text starts with. */
  function AfterValue(t: seq<byte>): seq<byte>
  {
    if t == [] then []
    else if t[0] == QUOTE then SkipString(t[1..]).0
    else if t[0] == 0x7b then SkipNest(t, 0, 0x7b, 0x7d)
    else if t[0] == 0x5b then SkipNest(t, 0, 0x5b, 0x5d)
    else SkipScalar(t)
  }

  function SkipWs(t: seq<byte>): (r: seq<byte>)
    ensures |r| <= |t|
  {
    if t != [] && IsWsByte(t[0]) then SkipWs(t[1..]) else t
  }

  lemma {:induction false} WsSkipped(w: seq<byte>, rest: seq<byte>)
    requires IsWs(w)
    ensures SkipWs(w + rest) == SkipWs(rest)
    decreases |w|
  {
    if w == [] {
      assert w + rest == rest;
    } else {
      assert (w + rest)[1..] == w[1..] + rest;
      WsSkipped(w[1..], rest);
    }
  }

  // ---- well-formed values are skipped whole ----

  predicate HasEscape(cs: seq<StrChar>)
  {
    exists i :: 0 <= i < |cs| && !cs[i].Plain?
  }

  lemma {:induction false} StringSkipped(cs: seq<StrChar>, rest: seq<byte>)
    ensures SkipString(CharsBytes(cs) + [QUOTE] + rest) == (rest, HasEscape(cs))
  {
    var t := CharsBytes(cs) + [QUOTE] + rest;
    if cs == [] {
      assert t[0] == QUOTE && t[1..] == rest;
    } else {
      var tail := CharsBytes(cs[1..]) + [QUOTE] + rest;
      StringSkipped(cs[1..], rest);
      assert t == CharBytes(cs[0]) + tail;
      assert HasEscape(cs) <==> !cs[0].Plain? || HasEscape(cs[1..]) by { EscapeStep(cs); }
      hide HasEscape;
      match cs[0]
      case Plain(b) => assert t[0] == b && t[1..] == tail;
      case Short(e) => assert t[0] == BACKSLASH && t[1] == e && t[2..] == tail;
      case Unicode(_, _, _, _) => assert t[0] == BACKSLASH && t[1] == 0x75 && t[6..] == tail;
    }
  }

  lemma EscapeStep(cs: seq<StrChar>)
    requires cs != []
    ensures HasEscape(cs) <==> !cs[0].Plain? || HasEscape(cs[1..])
  {
    if HasEscape(cs[1..]) {
      var i :| 0 <= i < |cs[1..]| && !cs[1..][i].Plain?;
      assert !cs[i + 1].Plain?;
    }
    if HasEscape(cs) && cs[0].Plain? {
      var i :| 0 <= i < |cs| && !cs[i].Plain?;
      assert !cs[1..][i - 1].Plain?;
    }
  }

  predicate Brackets(open: byte, close: byte)
  {
    (open == 0x7b && close == 0x7d) || (open == 0x5b && close == 0x5d)
  }

  /** A byte that no scanner of nested values stops at. */
  predicate Neutral(b: byte)
  {
    b !in {QUOTE, 0x5b, 0x5d, 0x7b, 0x7d}
  }

  lemma {:induction false} NeutralSkipped(s: seq<byte>, rest: seq<byte>, depth: nat, open: byte, close: byte)
    requires Brackets(open, close) && forall i :: 0 <= i < |s| ==> Neutral(s[i])
    ensures SkipNest(s + rest, depth, open, close) == SkipNest(rest, depth, open, close)
    decreases |s|
  {
    if s == [] {
      assert s + rest == rest;
    } else {
      assert (s + rest)[1..] == s[1..] + rest;
      NeutralSkipped(s[1..], rest, depth, open, close);
    }
  }

  lemma StringNeutral(cs: seq<StrChar>, rest: seq<byte>, depth: nat, open: byte, close: byte)
    requires Brackets(open, close)
    ensures SkipNest(StringBytes(cs) + rest, depth, open, close) == SkipNest(rest, depth, open, close)
  {
    StringSkipped(cs, rest);
    var t := StringBytes(cs) + rest;
    assert t[0] == QUOTE && t[1..] == CharsBytes(cs) + [QUOTE] + rest;
  }

  lemma OneByte(b: byte, rest: seq<byte>, depth: nat, open: byte, close: byte)
    requires Brackets(open, close)
    ensures var t := [b] + rest;
            && (b == open ==> SkipNest(t, depth, open, close) == SkipNest(rest, depth + 1, open, close))
            && (b == close ==> SkipNest(t, depth, open, close) == if depth <= 1 then rest else SkipNest(rest, depth - 1, open, close))
            && (b != open && b != close && b != QUOTE ==> SkipNest(t, depth, open, close) == SkipNest(rest, depth, open, close))
  {
    assert ([b] + rest)[1..] == rest;
  }

  /** Inside a nested value every value leaves the depth as it was: one bracket kind is balanced in it, the
      other is passed over. */
  lemma {:induction false} ValueNeutral(v: Json, rest: seq<byte>, depth: nat, open: byte, close: byte)
    requires Brackets(open, close) && depth >= 1
    ensures SkipNest(Print(v) + rest, depth, open, close) == SkipNest(rest, depth, open, close)
    decreases v, 1
  {
    hide SkipNest;
    match v
    case Str(chars) => StringNeutral(chars, rest, depth, open, close);
    case Scalar(text) => NeutralSkipped(text, rest, depth, open, close);
    case Arr(gap, items) =>
      var inner := if items == [] then gap else PrintItems(items);
      Nested(0x5b, inner, 0x5d, rest);
      var d := if open == 0x5b then depth + 1 else depth;
      OneByte(0x5b, inner + ([0x5d] + rest), depth, open, close);
      if items == [] { NeutralSkipped(gap, [0x5d] + rest, d, open, close); } else { ItemsNeutral(items, [0x5d] + rest, d, open, close); }
      OneByte(0x5d, rest, d, open, close);
    case Obj(gap, members) =>
      var inner := if members == [] then gap else PrintMembers(members);
      Nested(0x7b, inner, 0x7d, rest);
      var d := if open == 0x7b then depth + 1 else depth;
      OneByte(0x7b, inner + ([0x7d] + rest), depth, open, close);
      if members == [] { NeutralSkipped(gap, [0x7d] + rest, d, open, close); } else { MembersNeutral(members, [0x7d] + rest, d, open, close); }
      OneByte(0x7d, rest, d, open, close);
  }

  lemma Nested(a: byte, inner: seq<byte>, b: byte, rest: seq<byte>)
    ensures [a] + inner + [b] + rest == [a] + (inner + ([b] + rest))
  {
  }

  lemma {:induction false} ItemNeutral(x: Item, rest: seq<byte>, depth: nat, open: byte, close: byte)
    requires Brackets(open, close) && depth >= 1
    ensures SkipNest(PrintItem(x) + rest, depth, open, close) == SkipNest(rest, depth, open, close)
    decreases x, 2
  {
    hide SkipNest, Print;
    Assoc(x.before + Print(x.v), x.after, rest);
    Assoc(x.before, Print(x.v), x.after + rest);
    NeutralSkipped(x.before, Print(x.v) + (x.after + rest), depth, open, close);
    ValueNeutral(x.v, x.after + rest, depth, open, close);
    NeutralSkipped(x.after, rest, depth, open, close);
  }

  lemma {:induction false} ItemsNeutral(items: seq<Item>, rest: seq<byte>, depth: nat, open: byte, close: byte)
    requires Brackets(open, close) && depth >= 1
    ensures SkipNest(PrintItems(items) + rest, depth, open, close) == SkipNest(rest, depth, open, close)
    decreases items, 0
  {
    hide SkipNest, PrintItem;
    if items == [] {
      assert PrintItems(items) + rest == rest;
    } else if |items| == 1 {
      assert PrintItems(items) == PrintItem(items[0]);
      ItemNeutral(items[0], rest, depth, open, close);
    } else {
      var more := [COMMA] + PrintItems(items[1..]);
      Assoc(PrintItem(items[0]), more, rest);
      Assoc([COMMA], PrintItems(items[1..]), rest);
      ItemNeutral(items[0], more + rest, depth, open, close);
      OneByte(COMMA, PrintItems(items[1..]) + rest, depth, open, close);
      ItemsNeutral(items[1..], rest, depth, open, close);
    }
  }

  function KeyBytes(m: Member): seq<byte>
  {
    m.before + StringBytes(m.key) + m.afterKey + [COLON]
  }

  lemma KeyNeutral(m: Member, rest: seq<byte>, depth: nat, open: byte, close: byte)
    requires Brackets(open, close)
    ensures SkipNest(KeyBytes(m) + rest, depth, open, close) == SkipNest(rest, depth, open, close)
  {
    hide SkipNest, StringBytes;
    Assoc(m.before + StringBytes(m.key) + m.afterKey, [COLON], rest);
    Assoc(m.before + StringBytes(m.key), m.afterKey, [COLON] + rest);
    Assoc(m.before, StringBytes(m.key), m.afterKey + ([COLON] + rest));
    NeutralSkipped(m.before, StringBytes(m.key) + (m.afterKey + ([COLON] + rest)), depth, open, close);
    StringNeutral(m.key, m.afterKey + ([COLON] + rest), depth, open, close);
    NeutralSkipped(m.afterKey, [COLON] + rest, depth, open, close);
    OneByte(COLON, rest, depth, open, close);
  }

  lemma {:induction false} MembersNeutral(members: seq<Member>, rest: seq<byte>, depth: nat, open: byte, close: byte)
    requires Brackets(open, close) && depth >= 1
    ensures SkipNest(PrintMembers(members) + rest, depth, open, close) == SkipNest(rest, depth, open, close)
    decreases members, 0
  {
    if members == [] {
      assert PrintMembers(members) + rest == rest;
    } else {
      var m := members[0];
      var more := if |members| == 1 then [] else [COMMA] + PrintMembers(members[1..]);
      assert PrintMembers(members) == KeyBytes(m) + PrintItem(m.item) + more;
      hide SkipNest, PrintItem, KeyBytes, PrintMembers;
      Assoc(KeyBytes(m) + PrintItem(m.item), more, rest);
      Assoc(KeyBytes(m), PrintItem(m.item), more + rest);
      KeyNeutral(m, PrintItem(m.item) + (more + rest), depth, open, close);
      ItemNeutral(m.item, more + rest, depth, open, close);
      if |members| == 1 {
        assert more + rest == rest;
      } else {
        Assoc([COMMA], PrintMembers(members[1..]), rest);
        OneByte(COMMA, PrintMembers(members[1..]) + rest, depth, open, close);
        MembersNeutral(members[1..], rest, depth, open, close);
      }
    }
  }

  lemma {:induction false} ScalarSkipped(text: seq<byte>, rest: seq<byte>)
    requires (forall i :: 0 <= i < |text| ==> IsScalarByte(text[i])) && (rest != [] ==> EndsScalar(rest[0]))
    ensures SkipScalar(text + rest) == rest
    decreases |text|
  {
    if text == [] {
      assert text + rest == rest;
    } else {
      assert (text + rest)[1..] == text[1..] + rest;
      ScalarSkipped(text[1..], rest);
    }
  }

  /** The scan lands exactly one past any well-formed value, nested ones included, although it counts only
      the kind of bracket that the value starts with. After a number or a word a separator follows. */
  lemma ValueSkipped(v: Json, rest: seq<byte>)
    requires v.Scalar? && rest != [] ==> EndsScalar(rest[0])
    ensures AfterValue(Print(v) + rest) == rest
  {
    var t := Print(v) + rest;
    match v
    case Str(chars) =>
      StringSkipped(chars, rest);
      assert t[0] == QUOTE && t[1..] == CharsBytes(chars) + [QUOTE] + rest;
    case Scalar(text) =>
      assert IsScalarByte(text[0]) && t[0] == text[0];
      ScalarSkipped(text, rest);
    case Arr(gap, items) =>
      var inner := if items == [] then gap else PrintItems(items);
      assert t[0] == 0x5b;
      hide SkipNest;
      Nested(0x5b, inner, 0x5d, rest);
      OneByte(0x5b, inner + ([0x5d] + rest), 0, 0x5b, 0x5d);
      if items == [] { NeutralSkipped(gap, [0x5d] + rest, 1, 0x5b, 0x5d); } else { ItemsNeutral(items, [0x5d] + rest, 1, 0x5b, 0x5d); }
      OneByte(0x5d, rest, 1, 0x5b, 0x5d);
    case Obj(gap, members) =>
      var inner := if members == [] then gap else PrintMembers(members);
      assert t[0] == 0x7b;
      hide SkipNest;
      Nested(0x7b, inner, 0x7d, rest);
      OneByte(0x7b, inner + ([0x7d] + rest), 0, 0x7b, 0x7d);
      if members == [] { NeutralSkipped(gap, [0x7d] + rest, 1, 0x7b, 0x7d); } else { MembersNeutral(members, [0x7d] + rest, 1, 0x7b, 0x7d); }
      OneByte(0x7d, rest, 1, 0x7b, 0x7d);
  }

  // ---- the scanners over an index ----

  /** The index stands at what the scan leaves; past the end of the buffer that is nothing. */
  predicate Stands(buf: seq<byte>, i: nat, rest: seq<byte>)
  {
    if i <= |buf| then buf[i..] == rest else rest == []
  }

  /** From the opening quote at `start`: the index after the closing one, and the module's flag. */
  method ScanString(buf: seq<byte>, start: nat) returns (i: nat, scanEscaped: bool)
    requires start < |buf| && buf[start] == QUOTE
    ensures start < i && Stands(buf, i, SkipString(buf[start + 1..]).0) && scanEscaped == SkipString(buf[start + 1..]).1
  {
    scanEscaped := false;
    i := start + 1;
    ghost var all := SkipString(buf[start + 1..]);
    while i < |buf|
      invariant start < i && all.0 == (if i <= |buf| then SkipString(buf[i..]).0 else [])
      invariant all.1 == (scanEscaped || (i <= |buf| && SkipString(buf[i..]).1))
      decreases |buf| - i
    {
      var c := buf[i];
      ghost var t := buf[i..];
      assert t[0] == c && t[1..] == buf[i + 1..];
      if c == BACKSLASH {
        scanEscaped := true;
        var skip := if i + 1 < |buf| && buf[i + 1] == 0x75 then 5 else 1;
        assert i + 1 + skip <= |buf| ==> t[skip + 1..] == buf[i + 1 + skip..];
        i := i + skip + 1;
        continue;
      }
      if c == QUOTE { i := i + 1; return; }
      i := i + 1;
    }
  }

  method EndOfValue(buf: seq<byte>, start: nat) returns (i: nat)
    requires start < |buf|
    ensures Stands(buf, i, AfterValue(buf[start..]))
  {
    hide SkipString;
    i := start;
    var c := buf[i];
    assert buf[start..][0] == c && buf[start..][1..] == buf[start + 1..];
    if c == QUOTE {
      var escaped;
      i, escaped := ScanString(buf, i);
    } else if c == 0x7b || c == 0x5b {
      i := EndOfNest(buf, i, c, if c == 0x7b then 0x7d else 0x5d);
    } else {
      while i < |buf| && !EndsScalar(buf[i])
        invariant start <= i <= |buf| && SkipScalar(buf[i..]) == SkipScalar(buf[start..])
      {
        assert buf[i..][1..] == buf[i + 1..];
        i := i + 1;
      }
    }
  }

  method EndOfNest(buf: seq<byte>, start: nat, open: byte, close: byte) returns (i: nat)
    requires start < |buf| && Brackets(open, close) && buf[start] == open
    ensures Stands(buf, i, SkipNest(buf[start..], 0, open, close))
  {
    hide SkipString;
    i := start;
    var depth: nat := 0;
    while i < |buf|
      invariant (if i <= |buf| then SkipNest(buf[i..], depth, open, close) else []) == SkipNest(buf[start..], 0, open, close)
      invariant i == start || depth > 0
      decreases |buf| - i
    {
      var d := buf[i];
      assert buf[i..][0] == d && buf[i..][1..] == buf[i + 1..];
      if d == QUOTE {
        var escaped;
        i, escaped := ScanString(buf, i);
        continue;
      } else if d == open {
        depth := depth + 1;
      } else if d == close {
        depth := depth - 1;
        if depth == 0 { i := i + 1; return; }
      }
      i := i + 1;
    }
  }

  method SkipWsFrom(buf: seq<byte>, start: nat) returns (i: nat)
    requires start <= |buf|
    ensures start <= i <= |buf| && buf[i..] == SkipWs(buf[start..])
  {
    i := start;
    while i < |buf|
      invariant start <= i <= |buf| && SkipWs(buf[i..]) == SkipWs(buf[start..])
    {
      var c := buf[i];
      assert buf[i..][0] == c && buf[i..][1..] == buf[i + 1..];
      if c == 0x20 || c == 9 || c == 10 || c == 13 { i := i + 1; } else { break; }
    }
  }
}
