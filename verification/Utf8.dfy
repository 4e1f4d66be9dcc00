/** JavaScript strings as UTF-16 code units, and their UTF-8 bytes. */
module Utf8 {
  import opened Bytes

  type unit = u: int | 0 <= u < 0x10000
  type jstring = seq<unit>

  predicate IsHigh(u: unit)
  {
    0xd800 <= u < 0xdc00
  }

  predicate IsLow(u: unit)
  {
    0xdc00 <= u < 0xe000
  }

  /** A code unit that is not half of a pair; a lone surrogate becomes U+FFFD. */
  function One(u: unit): (r: seq<byte>)
    ensures 1 <= |r| <= 3
  {
    if u < 0x80 then [u]
    else if u < 0x800 then [0xc0 + u / 64, 0x80 + u % 64]
    else if IsHigh(u) || IsLow(u) then [0xef, 0xbf, 0xbd]
    else [0xe0 + u / 4096, 0x80 + u / 64 % 64, 0x80 + u % 64]
  }

  function Pair(h: unit, l: unit): (r: seq<byte>)
    requires IsHigh(h) && IsLow(l)
    ensures |r| == 4
  {
    var c := (h - 0xd800) * 0x400 + (l - 0xdc00) + 0x10000;
    [0xf0 + c / 0x40000, 0x80 + c / 4096 % 64, 0x80 + c / 64 % 64, 0x80 + c % 64]
  }

  predicate StartsPair(s: jstring)
  {
    |s| >= 2 && IsHigh(s[0]) && IsLow(s[1])
  }

  /** The number of code units that are encoded first, and their bytes. */
  function Step(s: jstring): nat
  {
    if StartsPair(s) then 2 else 1
  }

  function First(s: jstring): (r: seq<byte>)
    requires s != []
    ensures |r| <= 3 * Step(s)
  {
    if StartsPair(s) then Pair(s[0], s[1]) else One(s[0])
  }

  /** At most three bytes a code unit. */
  function Encode(s: jstring): (r: seq<byte>)
    ensures |r| <= 3 * |s|
  {
    if s == [] then [] else First(s) + Encode(s[Step(s)..])
  }

  /** The boundary between `a` and `b` is not inside a surrogate pair. */
  predicate Splits(a: jstring, b: jstring)
  {
    a == [] || b == [] || !IsHigh(a[|a| - 1]) || !IsLow(b[0])
  }

  lemma FirstOfAppend(a: jstring, b: jstring)
    requires a != [] && Splits(a, b)
    ensures Step(a + b) == Step(a) && First(a + b) == First(a)
  {
    hide One, Pair;
    assert StartsPair(a + b) == StartsPair(a);
  }

  lemma RestSplits(a: jstring, b: jstring)
    requires a != [] && Splits(a, b)
    ensures Splits(a[Step(a)..], b) && (a + b)[Step(a)..] == a[Step(a)..] + b
  {
  }

  lemma EncodeStep(s: jstring)
    requires s != []
    ensures 0 < Step(s) <= |s| && Encode(s) == First(s) + Encode(s[Step(s)..])
  {
  }

  /** A string may be encoded in pieces, if no piece ends inside a surrogate pair. */
  lemma {:induction false} EncodeAppend(a: jstring, b: jstring)
    requires Splits(a, b)
    ensures Encode(a + b) == Encode(a) + Encode(b)
    decreases |a|
  {
    if a == [] {
      assert a + b == b;
    } else {
      hide *;
      EncodeStep(a);
      EncodeStep(a + b);
      FirstOfAppend(a, b);
      RestSplits(a, b);
      var rest := a[Step(a)..];
      EncodeAppend(rest, b);
      Assoc(First(a), Encode(rest), Encode(b));
    }
  }

  predicate IsAscii(s: jstring)
  {
    forall i :: 0 <= i < |s| ==> s[i] < 128
  }

  type ascii = s: jstring | IsAscii(s)

  lemma {:induction false} EncodeAscii(s: jstring)
    requires IsAscii(s)
    ensures Encode(s) == s
  {
    if s != [] { EncodeAscii(s[1..]); }
  }

  /** The low bytes of the code units. */
  function Latin1(s: jstring): (r: seq<byte>)
    ensures |r| == |s|
    ensures IsAscii(s) ==> r == s
  {
    seq(|s|, i requires 0 <= i < |s| => s[i] % 256)
  }

  // ---- reading UTF-8 (RFC 3629) ----

  predicate IsTail(b: byte)
  {
    0x80 <= b < 0xc0
  }

  predicate Tails(b: seq<byte>, n: nat)
  {
    n < |b| && forall i :: 1 <= i <= n ==> IsTail(b[i])
  }

  function TailBits(b: byte): int
  {
    b - 0x80
  }

  /** The first character and the number of its bytes; None for what is no shortest form of a character. */
  function ReadFirst(b: seq<byte>): (r: Option<(jstring, nat)>)
    requires b != []
    ensures r.Some? ==> 0 < r.value.1 <= |b|
  {
    if b[0] < 0x80 then Some(([b[0] as int], 1))
    else if 0xc2 <= b[0] < 0xe0 && Tails(b, 1) then Some(([(b[0] - 0xc0) * 64 + TailBits(b[1])], 2))
    else if 0xe0 <= b[0] < 0xf0 && Tails(b, 2) then
      var c := (b[0] - 0xe0) * 4096 + TailBits(b[1]) * 64 + TailBits(b[2]);
      if c >= 0x800 && !IsHigh(c) && !IsLow(c) then Some(([c], 3)) else None
    else if 0xf0 <= b[0] < 0xf5 && Tails(b, 3) then
      var c := (b[0] - 0xf0) * 0x40000 + TailBits(b[1]) * 4096 + TailBits(b[2]) * 64 + TailBits(b[3]);
      if 0x10000 <= c < 0x110000 then Some(([0xd800 + (c - 0x10000) / 0x400, 0xdc00 + (c - 0x10000) % 0x400], 4)) else None
    else None
  }

  function Read(b: seq<byte>): Option<jstring>
  {
    if b == [] then Some([])
    else match ReadFirst(b)
      case None => None
      case Some(first) => (match Read(b[first.1..]) case None => None case Some(rest) => Some(first.0 + rest))
  }

  function MendedFirst(s: jstring): jstring
    requires s != []
  {
    if StartsPair(s) then s[..2] else if IsHigh(s[0]) || IsLow(s[0]) then [0xfffd] else s[..1]
  }

  /** The string with U+FFFD for every lone surrogate. */
  function Mended(s: jstring): jstring
  {
    if s == [] then [] else MendedFirst(s) + Mended(s[Step(s)..])
  }

  lemma ReadsOne(u: unit, rest: seq<byte>)
    ensures ReadFirst(One(u) + rest) == Some((if IsHigh(u) || IsLow(u) then [0xfffd] else [u], |One(u)|))
  {
    var b := One(u) + rest;
    if u < 0x80 {
    } else if u < 0x800 {
      assert b[0] == 0xc0 + u / 64 && b[1] == 0x80 + u % 64;
    } else if IsHigh(u) || IsLow(u) {
      assert b[0] == 0xef && b[1] == 0xbf && b[2] == 0xbd;
    } else {
      assert u / 64 == u / 4096 * 64 + u / 64 % 64 by { assert u / 4096 == u / 64 / 64; }
      assert b[0] == 0xe0 + u / 4096 && b[1] == 0x80 + u / 64 % 64 && b[2] == 0x80 + u % 64;
    }
  }

  lemma ReadsPair(h: unit, l: unit, rest: seq<byte>)
    requires IsHigh(h) && IsLow(l)
    ensures ReadFirst(Pair(h, l) + rest) == Some(([h, l], 4))
  {
    var b := Pair(h, l) + rest;
    var c := (h - 0xd800) * 0x400 + (l - 0xdc00) + 0x10000;
    assert b[0] == 0xf0 + c / 0x40000 && b[1] == 0x80 + c / 4096 % 64 && b[2] == 0x80 + c / 64 % 64 && b[3] == 0x80 + c % 64;
    CodePointBits(c);
    assert (c - 0x10000) / 0x400 == h - 0xd800 && (c - 0x10000) % 0x400 == l - 0xdc00;
  }

  lemma CodePointBits(c: int)
    requires 0 <= c < 0x110000
    ensures c == c / 0x40000 * 0x40000 + c / 4096 % 64 * 4096 + c / 64 % 64 * 64 + c % 64
  {
    var a := c / 64;
    var d := c / 4096;
    assert a / 64 == d && d / 64 == c / 0x40000;
  }

  /** What is sent is read back: the same string, with U+FFFD for every lone surrogate. */
  lemma {:induction false} ReadsBack(s: jstring)
    ensures Read(Encode(s)) == Some(Mended(s))
  {
    if s != [] {
      var rest := s[Step(s)..];
      ReadsBack(rest);
      if StartsPair(s) {
        ReadsPair(s[0], s[1], Encode(rest));
        assert s[..2] == [s[0], s[1]];
      } else {
        ReadsOne(s[0], Encode(rest));
        assert s[..1] == [s[0]];
      }
      assert Encode(s)[|First(s)|..] == Encode(rest);
    }
  }

  /** Every surrogate is half of a pair. */
  predicate WellFormed(s: jstring)
  {
    s != [] ==> (StartsPair(s) || !(IsHigh(s[0]) || IsLow(s[0]))) && WellFormed(s[Step(s)..])
  }

  lemma {:induction false} MendedIsSameIff(s: jstring)
    ensures Mended(s) == s <==> WellFormed(s)
  {
    if s != [] {
      MendedIsSameIff(s[Step(s)..]);
      assert s == s[..Step(s)] + s[Step(s)..];
      assert |MendedFirst(s)| == Step(s);
      assert Mended(s)[..Step(s)] == MendedFirst(s) && Mended(s)[Step(s)..] == Mended(s[Step(s)..]);
    }
  }

  lemma {:induction false} AsciiIsWellFormed(s: jstring)
    requires IsAscii(s)
    ensures Mended(s) == s
  {
    if s != [] {
      AsciiIsWellFormed(s[1..]);
      assert s == s[..1] + s[1..];
    }
  }
}
