/** The growable write buffer of the frontend messages. */
module WriterClass {
  import opened Bytes
  import opened Utf8
  import opened Int64
  import opened PowersOfTen
  import opened TemporalText

  const I32_MAX := 0x7fff_ffff

  function I16(n: nat): (r: seq<byte>)
    ensures |r| == 2
  {
    Be(n, 2)
  }

  predicate FitsI32(n: int)
  {
    -0x8000_0000 <= n <= I32_MAX
  }

  function I32(n: int): (r: seq<byte>)
    ensures |r| == 4
  {
    TwosComplement(n, 4)
  }

  /** A length and that many bytes; a length that an int32 cannot hold fails. */
  function Lp(b: seq<byte>): Option<seq<byte>>
  {
    if FitsI32(|b|) then Some(I32(|b|) + b) else None
  }

  /** String(v) of an integer. */
  function Decimal(v: int): (r: ascii)
    ensures r != []
  {
    if v < 0 then [45] + Pad(-v, 1) else Pad(v, 1)
  }

  lemma {:induction false} DigitCount(n: nat, k: nat)
    requires k > 0 && n < Tens(k)
    ensures |Pad(n, 1)| <= k
    decreases k
  {
    if n >= 10 {
      DigitCount(n / 10, k - 1);
      PadWide(n / 10);
    } else {
      assert n / 10 == 0 && Pad(0, 0) == [];
    }
  }

  /** One digit is always printed, so asking for none changes nothing. */
  lemma PadWide(n: nat)
    ensures n > 0 ==> Pad(n, 0) == Pad(n, 1)
  {
  }

  lemma {:induction false} PadExact(n: nat, w: nat)
    requires 1 <= w <= |Pad(n, 1)|
    ensures Pad(n, w) == Pad(n, 1)
    decreases w
  {
    if w > 1 {
      assert Pad(0, 0) == [];
      assert n / 10 > 0;
      PadWide(n / 10);
      PadExact(n / 10, w - 1);
    }
  }

  /** The signed 32-bit number at `p`. */
  function ReadI32(b: seq<byte>, p: nat): int
    requires p + 4 <= |b|
  {
    Signed(FromBe(b[p..p + 4]))
  }

  lemma I32Reads(b: seq<byte>, p: nat, n: int, rest: seq<byte>)
    requires FitsI32(n) && p <= |b| && b[p..] == I32(n) + rest
    ensures p + 4 <= |b| && ReadI32(b, p) == n && b[p + 4..] == rest
  {
    assert b[p..p + 4] == b[p..][..4] == I32(n);
    assert b[p + 4..] == b[p..][4..];
    PowWord();
    FromBeBe(n % WORD, 4);
    if n >= 0 { DivMod(n, WORD, 0, n); } else { DivMod(n, WORD, -1, n + WORD); }
    DivMod(n % WORD, WORD, 0, n % WORD);
  }

  lemma I32Inverse(n: int)
    requires FitsI32(n)
    ensures Signed(FromBe(I32(n))) == n
  {
    assert I32(n) + [] == I32(n) && I32(n)[0..] == I32(n) && I32(n)[0..4] == I32(n);
    I32Reads(I32(n), 0, n, []);
  }

  function Patched(s: seq<byte>, pos: nat, b: seq<byte>): seq<byte>
    requires pos + |b| <= |s|
  {
    s[..pos] + b + s[pos + |b|..]
  }

  lemma PatchedParts(s: seq<byte>, pos: nat, b: seq<byte>)
    requires pos + |b| <= |s|
    ensures var p := Patched(s, pos, b);
            |p| == |s| && p[..pos] == s[..pos] && p[pos..pos + |b|] == b && p[pos + |b|..] == s[pos + |b|..] && p[..pos + |b|] == s[..pos] + b
  {
  }

  /** Two neighbours patched, in either order. */
  lemma PatchedTwice(s: seq<byte>, pos: nat, a: seq<byte>, b: seq<byte>)
    requires pos + |a| + |b| <= |s|
    ensures |Patched(s, pos, a)| == |Patched(s, pos + |a|, b)| == |s|
    ensures Patched(Patched(s, pos, a), pos + |a|, b) == Patched(s, pos, a + b)
    ensures Patched(Patched(s, pos + |a|, b), pos, a) == Patched(s, pos, a + b)
  {
    var x, y := Patched(s, pos, a), Patched(s, pos + |a|, b);
    assert x[..pos + |a|] == s[..pos] + a && x[pos + |a| + |b|..] == s[pos + |a| + |b|..];
    assert y[..pos] == s[..pos] && y[pos + |a|..] == b + s[pos + |a| + |b|..];
  }

  class Writer {
    var buf: array<byte>
    var off: nat
    var msgStart: nat

    ghost predicate Valid()
      reads this
    {
      off <= buf.Length && buf.Length > 0
    }

    /** What was written so far. */
    ghost function Contents(): (r: seq<byte>)
      requires Valid()
      reads this, buf
      ensures |r| == off
    {
      buf[..off]
    }

    constructor (size: nat)
      requires size > 0
      ensures Valid() && fresh(buf) && Contents() == []
    {
      buf := new byte[size];
      off, msgStart := 0, 0;
    }

    method Reset()
      requires Valid()
      modifies this`off
      ensures Valid() && Contents() == []
    {
      off := 0;
    }

    /** Room for `n` more bytes, doubling the buffer until they fit; what was written stays. */
    method Ensure(n: nat)
      requires Valid()
      modifies this`buf
      ensures Valid() && Contents() == old(Contents()) && off + n <= buf.Length
      ensures buf == old(buf) || fresh(buf)
    {
      var need := off + n;
      if need <= buf.Length { return; }
      var cap := buf.Length * 2;
      while cap < need
        invariant cap > 0
        decreases need - cap
      {
        cap := cap * 2;
      }
      var nb := new byte[cap];
      forall i | 0 <= i < off { nb[i] := buf[i]; }
      assert nb[..off] == buf[..off];
      buf := nb;
    }

    /** The buffer's own write at a position. */
    method Poke(pos: nat, b: seq<byte>)
      requires Valid() && pos + |b| <= buf.Length
      modifies buf
      ensures buf[..] == Patched(old(buf[..]), pos, b)
    {
      forall i | 0 <= i < |b| { buf[pos + i] := b[i]; }
    }

    /** Writes `b` at the end, `room` being what was reserved for it. */
    method Put(b: seq<byte>, room: nat)
      requires Valid() && |b| <= room
      modifies this`buf, this`off, buf
      ensures Valid() && (buf == old(buf) || fresh(buf)) && Contents() == old(Contents()) + b
    {
      Ensure(room);
      ghost var s := buf[..];
      PatchedParts(s, off, b);
      Poke(off, b);
      off := off + |b|;
      assert buf[..off] == buf[..][..off];
    }

    method Byte(n: byte)
      requires Valid()
      modifies this`buf, this`off, buf
      ensures Valid() && (buf == old(buf) || fresh(buf)) && Contents() == old(Contents()) + [n]
    {
      Put([n], 1);
    }

    /** Fails on a number that is not an unsigned 16-bit one. */
    method Int16(n: int) returns (ok: bool)
      requires Valid()
      modifies this`buf, this`off, buf
      ensures Valid() && (buf == old(buf) || fresh(buf)) && ok == (0 <= n < 65536)
      ensures Contents() == if ok then old(Contents()) + I16(n) else old(Contents())
    {
      Ensure(2);
      ok := 0 <= n < 65536;
      if ok { Put(I16(n), 2); }
    }

    method Int32(n: int) returns (ok: bool)
      requires Valid()
      modifies this`buf, this`off, buf
      ensures Valid() && (buf == old(buf) || fresh(buf)) && ok == FitsI32(n)
      ensures Contents() == if ok then old(Contents()) + I32(n) else old(Contents())
    {
      Ensure(4);
      ok := FitsI32(n);
      if ok { Put(I32(n), 4); }
    }

    method Cstr(s: jstring)
      requires Valid()
      modifies this`buf, this`off, buf
      ensures Valid() && (buf == old(buf) || fresh(buf)) && Contents() == old(Contents()) + Encode(s) + [0]
    {
      var len := |Encode(s)|;
      Ensure(len + 1);
      Put(Encode(s), len);
      Put([0], 1);
    }

    method BytesOf(b: seq<byte>)
      requires Valid()
      modifies this`buf, this`off, buf
      ensures Valid() && (buf == old(buf) || fresh(buf)) && Contents() == old(Contents()) + b
    {
      Put(b, |b|);
    }

    /** UTF-8 in one pass: three bytes a code unit are always enough. */
    method Str(s: jstring)
      requires Valid()
      modifies this`buf, this`off, buf
      ensures Valid() && (buf == old(buf) || fresh(buf)) && Contents() == old(Contents()) + Encode(s)
    {
      Put(Encode(s), |s| * 3);
    }

    method Asc(s: jstring)
      requires Valid()
      modifies this`buf, this`off, buf
      ensures Valid() && (buf == old(buf) || fresh(buf)) && Contents() == old(Contents()) + Latin1(s)
    {
      Put(Latin1(s), |s|);
    }

    method Patch16(pos: nat, n: int) returns (ok: bool)
      requires Valid() && pos + 2 <= off
      modifies buf
      ensures Valid() && ok == (0 <= n < 65536)
      ensures Contents() == if ok then Patched(old(Contents()), pos, I16(n)) else old(Contents())
    {
      ok := 0 <= n < 65536;
      if ok {
        ghost var before := buf[..];
        Poke(pos, I16(n));
        assert buf[..off] == Patched(before[..off], pos, I16(n));
      }
    }

    method Patch32(pos: nat, n: int) returns (ok: bool)
      requires Valid() && pos + 4 <= off
      modifies buf
      ensures Valid() && ok == FitsI32(n)
      ensures Contents() == if ok then Patched(old(Contents()), pos, I32(n)) else old(Contents())
    {
      ok := FitsI32(n);
      if ok {
        ghost var before := buf[..];
        Poke(pos, I32(n));
        assert buf[..off] == Patched(before[..off], pos, I32(n));
      }
    }

    // ---- length-prefixed values ----

    method LpBytes(b: seq<byte>) returns (ok: bool)
      requires Valid()
      modifies this`buf, this`off, buf
      ensures Valid() && (buf == old(buf) || fresh(buf)) && ok == Lp(b).Some?
      ensures Contents() == old(Contents()) + if ok then Lp(b).value else []
    {
      ok := Int32(|b|);
      if ok { BytesOf(b); }
    }

    /** The text is written past the place of its length, and the length after it. */
    method LpText(b: seq<byte>, room: nat) returns (ok: bool)
      requires Valid() && |b| <= room
      modifies this`buf, this`off, buf
      ensures Valid() && (buf == old(buf) || fresh(buf)) && ok == Lp(b).Some?
      ensures Contents() == old(Contents()) + if ok then Lp(b).value else []
    {
      hide Patched, I32;
      Ensure(4 + room);
      ghost var s := buf[..];
      ghost var before := Contents();
      PatchedParts(s, off + 4, b);
      Poke(off + 4, b);
      assert buf[..][..off + 4] == s[..off + 4];
      assert buf[..off] == buf[..][..off + 4][..off] == before;
      ok := FitsI32(|b|);
      if ok {
        PatchedTwice(s, off, I32(|b|), b);
        Poke(off, I32(|b|));
        Advance(4 + |b|, s, I32(|b|) + b);
      }
    }

    /** The bytes patched in at the end become part of what was written. */
    method Advance(n: nat, ghost s: seq<byte>, ghost b: seq<byte>)
      requires Valid() && n == |b| && off + |b| <= buf.Length == |s| && buf[..] == Patched(s, off, b)
      modifies this`off
      ensures Valid() && off == old(off) + |b| && Contents() == s[..old(off)] + b
    {
      PatchedParts(s, off, b);
      off := off + n;
      assert buf[..off] == buf[..][..off];
    }

    method LpStr(s: jstring) returns (ok: bool)
      requires Valid()
      modifies this`buf, this`off, buf
      ensures Valid() && (buf == old(buf) || fresh(buf)) && ok == Lp(Encode(s)).Some?
      ensures Contents() == old(Contents()) + if ok then Lp(Encode(s)).value else []
    {
      ok := LpText(Encode(s), |s| * 3);
    }

    method LpAsc(s: jstring) returns (ok: bool)
      requires Valid()
      modifies this`buf, this`off, buf
      ensures Valid() && (buf == old(buf) || fresh(buf)) && ok == Lp(Latin1(s)).Some?
      ensures Contents() == old(Contents()) + if ok then Lp(Latin1(s)).value else []
    {
      ok := LpText(Latin1(s), |s|);
    }

    /** The digits of a safe integer, written backwards into their place. */
    method LpAsciiInt(v: int)
      requires Valid() && -SAFE < v < SAFE
      modifies this`buf, this`off, buf
      ensures Valid() && (buf == old(buf) || fresh(buf)) && Contents() == old(Contents()) + I32(|Decimal(v)|) + Decimal(v)
    {
      Ensure(25);
      ghost var s := buf[..];
      var n := if v < 0 then -v else v;
      var d := CountDigits(n);
      var len := d + if v < 0 then 1 else 0;
      ghost var digits: seq<byte> := Decimal(v);
      assert |digits| == len;
      hide Decimal, Patched, Pad, Utf8.IsAscii, I32;
      PatchedTwice(s, off, I32(len), digits);
      Poke(off, I32(len));
      WriteSigned(v, off + 4, d);
      Advance(4 + len, s, I32(len) + digits);
    }

    method WriteSigned(v: int, pos: nat, d: nat)
      requires Valid() && pos + |Decimal(v)| <= buf.Length && d == |Pad(if v < 0 then -v else v, 1)|
      modifies buf
      ensures buf[..] == Patched(old(buf[..]), pos, Decimal(v))
    {
      ghost var s := buf[..];
      if v < 0 {
        PatchedTwice(s, pos, [45], Pad(-v, 1));
        WriteDigits(-v, pos + 1, d);
        Poke(pos, [45]);
      } else {
        WriteDigits(v, pos, d);
      }
    }

    static method CountDigits(n: nat) returns (d: nat)
      requires n < SAFE
      ensures d == |Pad(n, 1)| && 1 <= d <= 16
    {
      TensValues();
      DigitCount(n, 16);
      d := 1;
      var t := n;
      while t >= 10
        invariant d + |Pad(t, 1)| == |Pad(n, 1)| + 1
      {
        PadWide(t / 10);
        d, t := d + 1, t / 10;
      }
      assert t / 10 == 0 && Pad(0, 0) == [];
    }

    method WriteDigits(n: nat, start: nat, d: nat)
      requires Valid() && start + d <= buf.Length && d == |Pad(n, 1)|
      modifies buf
      ensures buf[..] == Patched(old(buf[..]), start, Pad(n, 1))
    {
      PadExact(n, d);
      ghost var s := buf[..];
      assert Patched(s, start + d, []) == s;
      hide Patched;
      ghost var tail: seq<byte> := [];
      var m, i := n, 0;
      while i < d
        invariant i <= d && Pad(n, 1) == Pad(m, d - i) + tail && |tail| == i && |Pad(m, d - i)| == d - i
        invariant buf[..] == Patched(s, start + d - i, tail)
      {
        PatchedTwice(s, start + d - i - 1, [48 + m % 10], tail);
        Poke(start + d - i - 1, [48 + m % 10]);
        tail := [48 + m % 10] + tail;
        m, i := m / 10, i + 1;
      }
    }

    /** int8 by halves: a floored high word and the low word. */
    method LpI64(v: int)
      requires Valid() && -SAFE < v < SAFE
      modifies this`buf, this`off, buf
      ensures Valid() && (buf == old(buf) || fresh(buf)) && Contents() == old(Contents()) + I32(8) + TwosComplement(v, 8)
    {
      HalvesAreTwosComplement(v);
      Ensure(12);
      Put(I32(8), 4);
      Put(I32(v / WORD), 4);
      Put(I32(v % WORD), 4);
    }

    method LpI64Big(v: int)
      requires Valid() && IsInt64(v)
      modifies this`buf, this`off, buf
      ensures Valid() && (buf == old(buf) || fresh(buf)) && Contents() == old(Contents()) + I32(8) + TwosComplement(v, 8)
    {
      Ensure(12);
      Put(I32(8), 4);
      Put(TwosComplement(v, 8), 8);
    }

    method LpF8(double: seq<byte>)
      requires Valid() && |double| == 8
      modifies this`buf, this`off, buf
      ensures Valid() && (buf == old(buf) || fresh(buf)) && Contents() == old(Contents()) + I32(8) + double
    {
      Ensure(12);
      Put(I32(8), 4);
      Put(double, 8);
    }

    // ---- messages ----

    /** The type byte and four bytes kept for the length. */
    method Start(kind: byte)
      requires Valid()
      modifies this, buf
      ensures Valid() && (buf == old(buf) || fresh(buf))
      ensures off == old(off) + 5 && msgStart == old(off) + 1 && Contents()[..old(off) + 1] == old(Contents()) + [kind]
    {
      Byte(kind);
      ghost var before := Contents();
      msgStart := off;
      Ensure(4);
      off := off + 4;
      assert buf[..off][..off - 4] == before;
    }

    /** The length covers itself and what follows. */
    method End() returns (ok: bool)
      requires Valid() && msgStart + 4 <= off
      modifies buf
      ensures Valid() && ok == FitsI32(off - msgStart)
      ensures Contents() == if ok then Patched(old(Contents()), msgStart, I32(off - msgStart)) else old(Contents())
    {
      ok := Patch32(msgStart, off - msgStart);
    }

    method Mark() returns (m: nat)
      requires Valid()
      ensures m == |Contents()|
    {
      m := off;
    }

    /** Back to a mark: what was written before it is as it was. */
    method Rewind(m: nat)
      requires Valid() && m <= off
      modifies this`off
      ensures Valid() && Contents() == old(Contents())[..m]
    {
      off := m;
      assert buf[..off] == old(buf[..off])[..m];
    }
  }
}
