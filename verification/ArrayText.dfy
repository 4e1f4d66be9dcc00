/** PostgreSQL array literals: printed with quoted and bare elements, and parsed back. */
module ArrayText {
  import opened Bytes
  import opened Utf8

  /** An element as it is printed. */
  datatype Lit = Null | Bare(s: jstring) | Quoted(s: jstring) | Nested(elems: seq<Lit>)

  /** An element as it is parsed. */
  datatype Tree = Nothing | Leaf(s: jstring) | Node(elems: seq<Tree>)

  const QUOTE: unit := 34
  const COMMA: unit := 44
  const SEMICOLON: unit := 59
  const BACKSLASH: unit := 92
  const OPEN: unit := 123
  const CLOSE: unit := 125
  const NULL: jstring := [78, 85, 76, 76]

  // ---- printing ----

  /** `c` with a backslash before it wherever it stands in `s`. */
  function Replaced(s: jstring, c: unit): jstring
  {
    if s == [] then [] else (if s[0] == c then [BACKSLASH, c] else [s[0]]) + Replaced(s[1..], c)
  }

  /** Quotes and backslashes escaped in one pass. */
  function Escaped(s: jstring): jstring
  {
    if s == [] then [] else (if s[0] == QUOTE || s[0] == BACKSLASH then [BACKSLASH, s[0]] else [s[0]]) + Escaped(s[1..])
  }

  lemma {:induction false} ReplacedAppend(a: jstring, b: jstring, c: unit)
    ensures Replaced(a + b, c) == Replaced(a, c) + Replaced(b, c)
    decreases |a|
  {
    if a == [] {
      assert a + b == b;
    } else {
      assert (a + b)[1..] == a[1..] + b;
      ReplacedAppend(a[1..], b, c);
    }
  }

  /** Replacing backslashes and then quotes is the same as the one pass. */
  lemma {:induction false} EscapedInTwoPasses(s: jstring)
    ensures Replaced(Replaced(s, BACKSLASH), QUOTE) == Escaped(s)
  {
    if s != [] {
      var head: jstring := if s[0] == BACKSLASH then [BACKSLASH, BACKSLASH] else [s[0]];
      EscapedInTwoPasses(s[1..]);
      ReplacedAppend(head, Replaced(s[1..], BACKSLASH), QUOTE);
      assert head[1..] == if s[0] == BACKSLASH then [BACKSLASH] else [];
      assert Replaced([], QUOTE) == [] && [BACKSLASH][1..] == [];
    }
  }

  function Print(x: Lit, d: unit): jstring
    decreases x, 1
  {
    match x
    case Null => NULL
    case Bare(s) => s
    case Quoted(s) => [QUOTE] + Escaped(s) + [QUOTE]
    case Nested(elems) => [OPEN] + Items(elems, d) + [CLOSE]
  }

  /** The elements with `d` between them. */
  function Items(xs: seq<Lit>, d: unit): jstring
    decreases xs, 0
  {
    if xs == [] then []
    else Print(xs[0], d) + (if |xs| == 1 then [] else [d] + Items(xs[1..], d))
  }

  // ---- parsing ----

  const UNDEFINED: jstring := [117, 110, 100, 101, 102, 105, 110, 101, 100]

  /** The text up to the closing quote, unescaped, and what follows it. A backslash at the very end takes
      the text of a missing character. */
  function ReadQuoted(t: jstring): (r: (jstring, jstring))
    ensures |r.1| <= |t|
  {
    if t == [] then ([], [])
    else if t[0] == BACKSLASH then
      if |t| == 1 then (UNDEFINED, []) else var (s, rest) := ReadQuoted(t[2..]); ([t[1]] + s, rest)
    else if t[0] == QUOTE then ([], t[1..])
    else var (s, rest) := ReadQuoted(t[1..]); ([t[0]] + s, rest)
  }

  /** The length of the bare element at the start. */
  function BareLength(t: jstring, d: unit): (n: nat)
    ensures n <= |t|
  {
    if t == [] || t[0] == d || t[0] == CLOSE then 0 else 1 + BareLength(t[1..], d)
  }

  function BareTree(raw: jstring): Tree
  {
    if raw == NULL then Nothing else Leaf(raw)
  }

  /** The elements of an array whose opening brace was read, and what follows its closing brace. */
  function ReadItems(t: jstring, d: unit): (r: (seq<Tree>, jstring))
    ensures |r.1| <= |t|
    decreases |t|
  {
    if t == [] then ([], [])
    else if t[0] == CLOSE then ([], t[1..])
    else if t[0] == d then ReadItems(t[1..], d)
    else
      var (x, after) := ReadItem(t, d);
      var (xs, rest) := ReadItems(after, d);
      ([x] + xs, rest)
  }

  function ReadItem(t: jstring, d: unit): (r: (Tree, jstring))
    requires t != [] && t[0] != CLOSE && t[0] != d
    ensures |r.1| < |t|
    decreases |t|, 0
  {
    if t[0] == OPEN then var (xs, after) := ReadItems(t[1..], d); (Node(xs), after)
    else if t[0] == QUOTE then var (s, after) := ReadQuoted(t[1..]); (Leaf(s), after)
    else var n := BareLength(t, d); (BareTree(t[..n]), t[n..])
  }

  /** A text that starts with a dimension prefix is read from after its equals sign. */
  function Start(t: jstring): (i: nat)
    ensures i <= |t|
  {
    if t != [] && t[0] == 91 && 61 in t then First(t, 61) + 1 else 0
  }

  function First(t: jstring, c: unit): (i: nat)
    requires c in t
    ensures i < |t| && t[i] == c && forall j :: 0 <= j < i ==> t[j] != c
  {
    if t[0] == c then 0 else 1 + First(t[1..], c)
  }

  function Parse(t: jstring, d: unit): seq<Tree>
  {
    if Start(t) < |t| then ReadItems(t[Start(t) + 1..], d).0 else []
  }

  // ---- the parser ----

  method ParseArrayLiteral(text: jstring, delim: unit) returns (out: seq<Tree>)
    ensures out == Parse(text, delim)
  {
    var i := 0;
    if |text| > 0 && text[0] == 91 && 61 in text { i := First(text, 61) + 1; }
    if i < |text| { out, i := Arr(text, i, delim); } else { out := []; }
  }

  method Arr(text: jstring, start: nat, delim: unit) returns (out: seq<Tree>, i: nat)
    requires start < |text|
    ensures start < i <= |text|
    ensures out == ReadItems(text[start + 1..], delim).0 && text[i..] == ReadItems(text[start + 1..], delim).1
    decreases |text| - start - 1, 1
  {
    out := [];
    i := start + 1;
    ghost var all := ReadItems(text[i..], delim);
    while i < |text|
      invariant start < i <= |text|
      invariant all.0 == out + ReadItems(text[i..], delim).0 && all.1 == ReadItems(text[i..], delim).1
      decreases |text| - i
    {
      var c := text[i];
      ghost var t := text[i..];
      assert t[0] == c && t[1..] == text[i + 1..];
      if c == CLOSE { i := i + 1; return; }
      if c == delim { i := i + 1; continue; }
      ghost var item := ReadItem(t, delim);
      assert ReadItems(t, delim).0 == [item.0] + ReadItems(item.1, delim).0 && ReadItems(t, delim).1 == ReadItems(item.1, delim).1;
      var x;
      x, i := Element(text, i, delim);
      out := out + [x];
    }
  }

  method Element(text: jstring, start: nat, delim: unit) returns (x: Tree, i: nat)
    requires start < |text| && text[start] != CLOSE && text[start] != delim
    ensures start < i <= |text|
    ensures x == ReadItem(text[start..], delim).0 && text[i..] == ReadItem(text[start..], delim).1
    decreases |text| - start, 0
  {
    var c := text[start];
    ghost var t := text[start..];
    assert t[0] == c && t[1..] == text[start + 1..];
    if c == OPEN {
      var inner;
      inner, i := Arr(text, start, delim);
      x := Node(inner);
    } else if c == QUOTE {
      var s;
      s, i := QuotedElement(text, start + 1);
      x := Leaf(s);
    } else {
      i := start;
      while i < |text| && text[i] != delim && text[i] != CLOSE
        invariant start <= i <= |text| && BareLength(t, delim) == i - start + BareLength(text[i..], delim)
      {
        assert text[i..][1..] == text[i + 1..];
        i := i + 1;
      }
      assert t[..i - start] == text[start..i] && t[i - start..] == text[i..];
      x := BareTree(text[start..i]);
    }
  }

  method QuotedElement(text: jstring, start: nat) returns (s: jstring, i: nat)
    requires start <= |text|
    ensures start <= i <= |text| && s == ReadQuoted(text[start..]).0 && text[i..] == ReadQuoted(text[start..]).1
  {
    s, i := [], start;
    while i < |text|
      invariant start <= i <= |text|
      invariant ReadQuoted(text[start..]).0 == s + ReadQuoted(text[i..]).0 && ReadQuoted(text[start..]).1 == ReadQuoted(text[i..]).1
      decreases |text| - i
    {
      var ch := text[i];
      ghost var t := text[i..];
      assert t[0] == ch && t[1..] == text[i + 1..];
      if ch == BACKSLASH {
        if i + 1 == |text| { s, i := s + UNDEFINED, |text|; return; }
        assert t[1] == text[i + 1] && t[2..] == text[i + 2..];
        assert s + ReadQuoted(t).0 == (s + [text[i + 1]]) + ReadQuoted(text[i + 2..]).0;
        s, i := s + [text[i + 1]], i + 2;
        continue;
      }
      if ch == QUOTE { i := i + 1; return; }
      assert s + ReadQuoted(t).0 == (s + [ch]) + ReadQuoted(text[i + 1..]).0;
      s, i := s + [ch], i + 1;
    }
  }

  // ---- parsing what was printed ----

  /** A delimiter that PostgreSQL's types use. */
  predicate GoodDelimiter(d: unit)
  {
    d != QUOTE && d != BACKSLASH && d != OPEN && d != CLOSE && d !in NULL
  }

  /** A bare element that the parser does not take for something else. */
  predicate GoodBare(s: jstring, d: unit)
  {
    s != [] && s != NULL && d !in s && CLOSE !in s && s[0] != OPEN && s[0] != QUOTE
  }

  predicate Good(x: Lit, d: unit)
    decreases x, 1
  {
    match x
    case Null => true
    case Bare(s) => GoodBare(s, d)
    case Quoted(_) => true
    case Nested(elems) => AllGood(elems, d)
  }

  predicate AllGood(xs: seq<Lit>, d: unit)
    decreases xs, 0
  {
    xs != [] ==> Good(xs[0], d) && AllGood(xs[1..], d)
  }

  function TreeOf(x: Lit): Tree
    decreases x, 1
  {
    match x
    case Null => Nothing
    case Bare(s) => Leaf(s)
    case Quoted(s) => Leaf(s)
    case Nested(elems) => Node(Trees(elems))
  }

  function Trees(xs: seq<Lit>): seq<Tree>
    decreases xs, 0
  {
    if xs == [] then [] else [TreeOf(xs[0])] + Trees(xs[1..])
  }

  lemma {:induction false} QuotedReads(s: jstring, rest: jstring)
    ensures ReadQuoted(Escaped(s) + [QUOTE] + rest) == (s, rest)
  {
    var t := Escaped(s) + [QUOTE] + rest;
    if s == [] {
      assert t[0] == QUOTE && t[1..] == rest;
    } else {
      QuotedReads(s[1..], rest);
      var tail := Escaped(s[1..]) + [QUOTE] + rest;
      if s[0] == QUOTE || s[0] == BACKSLASH {
        assert t[0] == BACKSLASH && t[1] == s[0] && t[2..] == tail;
      } else {
        assert t[0] == s[0] && t[1..] == tail;
      }
      assert [s[0]] + s[1..] == s;
    }
  }

  lemma {:induction false} BareReads(s: jstring, rest: jstring, d: unit)
    requires d !in s && CLOSE !in s && rest != [] && (rest[0] == d || rest[0] == CLOSE)
    ensures BareLength(s + rest, d) == |s|
  {
    if s == [] {
      assert s + rest == rest;
    } else {
      assert (s + rest)[1..] == s[1..] + rest;
      BareReads(s[1..], rest, d);
    }
  }

  lemma BareItemReads(s: jstring, rest: jstring, d: unit)
    requires s == NULL || GoodBare(s, d)
    requires GoodDelimiter(d) && rest != [] && (rest[0] == d || rest[0] == CLOSE)
    ensures (s + rest)[0] != CLOSE && (s + rest)[0] != d && ReadItem(s + rest, d) == (BareTree(s), rest)
  {
    assert s[0] in s;
    BareReads(s, rest, d);
    assert (s + rest)[..|s|] == s && (s + rest)[|s|..] == rest;
  }

  /** One printed element, with what comes after it. */
  lemma {:induction false} ItemReads(x: Lit, rest: jstring, d: unit)
    requires GoodDelimiter(d) && Good(x, d) && rest != [] && (rest[0] == d || rest[0] == CLOSE)
    ensures var t := Print(x, d) + rest; t[0] != CLOSE && t[0] != d && ReadItem(t, d) == (TreeOf(x), rest)
    decreases x, 1
  {
    var t := Print(x, d) + rest;
    match x
    case Null => BareItemReads(NULL, rest, d);
    case Bare(s) => BareItemReads(s, rest, d);
    case Quoted(s) =>
      assert t[0] == QUOTE && t[1..] == Escaped(s) + [QUOTE] + rest;
      QuotedReads(s, rest);
    case Nested(elems) =>
      assert t[0] == OPEN && t[1..] == Items(elems, d) + [CLOSE] + rest;
      ItemsRead(elems, rest, d);
  }

  lemma {:induction false} ItemsRead(xs: seq<Lit>, rest: jstring, d: unit)
    requires GoodDelimiter(d) && AllGood(xs, d)
    ensures ReadItems(Items(xs, d) + [CLOSE] + rest, d) == (Trees(xs), rest)
    decreases xs, 0
  {
    var t := Items(xs, d) + [CLOSE] + rest;
    if xs == [] {
      assert t[0] == CLOSE && t[1..] == rest;
    } else {
      var more := (if |xs| == 1 then [] else [d] + Items(xs[1..], d)) + [CLOSE] + rest;
      assert t == Print(xs[0], d) + more;
      ItemReads(xs[0], more, d);
      ItemsRead(xs[1..], rest, d);
      var tail := Items(xs[1..], d) + [CLOSE] + rest;
      if |xs| == 1 {
        assert more == tail;
      } else {
        assert more[0] == d && more[1..] == tail;
      }
    }
  }

  /** The literal printed for any nested array is parsed back to that array, for every delimiter. */
  lemma RoundTrip(xs: seq<Lit>, d: unit)
    requires GoodDelimiter(d) && AllGood(xs, d)
    ensures Parse(Print(Nested(xs), d), d) == Trees(xs)
  {
    var t := Print(Nested(xs), d);
    assert t[0] == OPEN && t[1..] == Items(xs, d) + [CLOSE] + [];
    ItemsRead(xs, [], d);
  }

  // ---- quoting only where needed ----

  predicate IsSpace(c: unit)
  {
    c == 32 || 9 <= c <= 13
  }

  predicate Special(c: unit, d: unit)
  {
    c == QUOTE || c == d || c == BACKSLASH || c == OPEN || c == CLOSE || IsSpace(c)
  }

  function Upper(c: unit): unit
  {
    if 97 <= c <= 122 then c - 32 else c
  }

  predicate IsNullWord(s: jstring)
  {
    |s| == 4 && Upper(s[0]) == 78 && Upper(s[1]) == 85 && Upper(s[2]) == 76 && Upper(s[3]) == 76
  }

  predicate NeedsQuote(s: jstring, d: unit)
  {
    s == [] || IsNullWord(s) || exists i :: 0 <= i < |s| && Special(s[i], d)
  }

  function QuoteEl(s: jstring, d: unit): Lit
  {
    if NeedsQuote(s, d) then Quoted(s) else Bare(s)
  }

  /** An array value of the data API; numbers and booleans come as their text. */
  datatype ArrayValue = Arrays(arrays: seq<ArrayValue>) | Strings(strings: seq<jstring>) | Numerals(numerals: seq<numeral>) | Empty

  predicate IsNumeral(s: jstring)
  {
    s != [] && s != NULL && forall i :: 0 <= i < |s| ==> NumeralChar(s[i])
  }

  /** Digits, letters, sign, point: what the text of a number, of a boolean or of a date is made of. */
  predicate NumeralChar(c: unit)
  {
    48 <= c <= 57 || 65 <= c <= 90 || 97 <= c <= 122 || c == 43 || c == 45 || c == 46
  }

  type numeral = s: jstring | IsNumeral(s) witness [48]

  function LitOf(a: ArrayValue, d: unit): Lit
    decreases a, 1
  {
    match a
    case Arrays(arrays) => Nested(LitsOf(arrays, d))
    case Strings(strings) => Nested(StringLits(strings, d))
    case Numerals(numerals) => Nested(NumeralLits(numerals))
    case Empty => Nested([])
  }

  function LitsOf(arrays: seq<ArrayValue>, d: unit): seq<Lit>
    decreases arrays, 0
  {
    if arrays == [] then [] else [LitOf(arrays[0], d)] + LitsOf(arrays[1..], d)
  }

  function StringLits(strings: seq<jstring>, d: unit): seq<Lit>
  {
    if strings == [] then [] else [QuoteEl(strings[0], d)] + StringLits(strings[1..], d)
  }

  function NumeralLits(numerals: seq<numeral>): seq<Lit>
  {
    if numerals == [] then [] else [Bare(numerals[0])] + NumeralLits(numerals[1..])
  }

  /** What the array value means. */
  function ValueTree(a: ArrayValue): Tree
    decreases a, 1
  {
    match a
    case Arrays(arrays) => Node(ValueTrees(arrays))
    case Strings(strings) => Node(seq(|strings|, i requires 0 <= i < |strings| => Leaf(strings[i])))
    case Numerals(numerals) => Node(seq(|numerals|, i requires 0 <= i < |numerals| => Leaf(numerals[i])))
    case Empty => Node([])
  }

  function ValueTrees(arrays: seq<ArrayValue>): seq<Tree>
    decreases arrays, 0
  {
    if arrays == [] then [] else [ValueTree(arrays[0])] + ValueTrees(arrays[1..])
  }

  predicate TypeDelimiter(d: unit)
  {
    d == COMMA || d == SEMICOLON
  }

  lemma QuoteElIsGood(s: jstring, d: unit)
    requires TypeDelimiter(d)
    ensures Good(QuoteEl(s, d), d) && TreeOf(QuoteEl(s, d)) == Leaf(s)
  {
    if !NeedsQuote(s, d) { assert !Special(s[0], d); }
  }

  lemma {:induction false} StringLitsGood(strings: seq<jstring>, d: unit)
    requires TypeDelimiter(d)
    ensures AllGood(StringLits(strings, d), d)
    ensures Trees(StringLits(strings, d)) == seq(|strings|, i requires 0 <= i < |strings| => Leaf(strings[i]))
  {
    if strings != [] {
      QuoteElIsGood(strings[0], d);
      StringLitsGood(strings[1..], d);
    }
  }

  lemma {:induction false} NumeralLitsGood(numerals: seq<numeral>, d: unit)
    requires TypeDelimiter(d)
    ensures AllGood(NumeralLits(numerals), d)
    ensures Trees(NumeralLits(numerals)) == seq(|numerals|, i requires 0 <= i < |numerals| => Leaf(numerals[i]))
  {
    if numerals != [] {
      NumeralIsGood(numerals[0], d);
      NumeralLitsGood(numerals[1..], d);
    }
  }

  lemma NumeralIsGood(s: jstring, d: unit)
    requires IsNumeral(s) && TypeDelimiter(d)
    ensures GoodBare(s, d)
  {
    assert NumeralChar(s[0]);
  }

  lemma {:induction false} LitOfGood(a: ArrayValue, d: unit)
    requires TypeDelimiter(d)
    ensures Good(LitOf(a, d), d) && TreeOf(LitOf(a, d)) == ValueTree(a) && LitOf(a, d).Nested?
    decreases a, 1
  {
    match a
    case Arrays(arrays) => LitsOfGood(arrays, d);
    case Strings(strings) => StringLitsGood(strings, d);
    case Numerals(numerals) => NumeralLitsGood(numerals, d);
    case Empty =>
  }

  lemma {:induction false} LitsOfGood(arrays: seq<ArrayValue>, d: unit)
    requires TypeDelimiter(d)
    ensures AllGood(LitsOf(arrays, d), d) && Trees(LitsOf(arrays, d)) == ValueTrees(arrays)
    decreases arrays, 0
  {
    if arrays != [] {
      LitOfGood(arrays[0], d);
      LitsOfGood(arrays[1..], d);
    }
  }

  /** An array value printed with ',' or ';', each string quoted only where it must be, is parsed back with
      that delimiter to the same strings in the same nesting. */
  lemma ConditionalQuotingRoundTrip(a: ArrayValue, d: unit)
    requires TypeDelimiter(d)
    ensures Node(Parse(Print(LitOf(a, d), d), d)) == ValueTree(a)
  {
    LitOfGood(a, d);
    RoundTrip(LitOf(a, d).elems, d);
  }
}
