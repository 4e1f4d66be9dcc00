/** 64-bit integers as two 32-bit halves in floating point. */
module Int64 {
  import Calendar
  import opened Bytes

  const WORD := 0x1_0000_0000
  const SAFE := 9007199254740992

  function Pow256(w: nat): (r: nat)
    ensures r > 0
  {
    if w == 0 then 1 else 256 * Pow256(w - 1)
  }

  /** The low `w` bytes of `n`, big-endian. */
  function Be(n: nat, w: nat): (r: seq<byte>)
    ensures |r| == w
  {
    if w == 0 then [] else Be(n / 256, w - 1) + [n % 256]
  }

  function FromBe(s: seq<byte>): (r: nat)
    ensures r < Pow256(|s|)
  {
    if s == [] then 0 else FromBe(s[..|s| - 1]) * 256 + s[|s| - 1]
  }

  lemma DivMod(x: int, n: int, q: int, r: int)
    requires n > 0 && 0 <= r < n && x == n * q + r
    ensures x / n == q && x % n == r
  {
    var d := x / n - q;
    assert n * d == r - x % n;
    assert d >= 1 ==> n * d >= n;
    assert d <= -1 ==> n * d <= -n;
  }

  /** Splitting off the last byte commutes with splitting at a word boundary. */
  lemma Nested(n: nat, p: nat)
    requires p > 0
    ensures n / 256 / p == n / (256 * p) && n % (256 * p) / 256 == n / 256 % p && n % (256 * p) % 256 == n % 256
  {
    var q, r := n / 256 / p, n / 256 % p;
    assert n / 256 == p * q + r;
    assert n == (256 * p) * q + (256 * r + n % 256);
    assert 256 * r + n % 256 < 256 * p;
    DivMod(n, 256 * p, q, 256 * r + n % 256);
    DivMod(256 * r + n % 256, 256, r, n % 256);
  }

  lemma DivPositive(n: int, p: int)
    requires n >= 0 && p > 0
    ensures n / p >= 0
  {
    var q := n / p;
    assert n == p * q + n % p;
    assert q <= -1 ==> p * q <= -p;
  }

  function Div(n: nat, p: nat): nat
    requires p > 0
  {
    DivPositive(n, p);
    n / p
  }

  lemma {:induction false} BeSplit(n: nat, a: nat, b: nat)
    ensures Be(n, a + b) == Be(Div(n, Pow256(b)), a) + Be(n % Pow256(b), b)
    decreases b
  {
    if b > 0 {
      var p := Pow256(b - 1);
      BeSplit(n / 256, a, b - 1);
      Nested(n, p);
      assert Be(n, a + b) == Be(n / 256, a + (b - 1)) + [n % 256];
      assert Be(n % (256 * p), b) == Be(n % (256 * p) / 256, b - 1) + [n % (256 * p) % 256];
    }
  }

  lemma {:induction false} FromBeBe(n: nat, w: nat)
    ensures FromBe(Be(n, w)) == n % Pow256(w)
    decreases w
  {
    if w > 0 {
      var p := Pow256(w - 1);
      var s := Be(n, w);
      assert s[..w - 1] == Be(n / 256, w - 1);
      FromBeBe(n / 256, w - 1);
      Nested(n, p);
      assert n % (256 * p) == n % (256 * p) / 256 * 256 + n % (256 * p) % 256;
    }
  }

  lemma {:induction false} BeFromBe(s: seq<byte>)
    ensures Be(FromBe(s), |s|) == s
  {
    if s != [] {
      BeFromBe(s[..|s| - 1]);
      DivMod(FromBe(s), 256, FromBe(s[..|s| - 1]), s[|s| - 1]);
    }
  }

  lemma PowWord()
    ensures Pow256(1) == 256 && Pow256(2) == 65536 && Pow256(4) == WORD
  {
    assert Pow256(3) == 256 * Pow256(2) && Pow256(2) == 256 * Pow256(1);
  }

  lemma PowLong()
    ensures Pow256(8) == WORD * WORD
  {
    PowWord();
    assert Pow256(8) == 256 * Pow256(7) && Pow256(7) == 256 * Pow256(6) && Pow256(6) == 256 * Pow256(5) && Pow256(5) == 256 * Pow256(4);
  }

  /** The two's complement of `v` in `w` bytes. */
  function TwosComplement(v: int, w: nat): seq<byte>
  {
    Be(v % Pow256(w), w)
  }

  predicate IsInt64(v: int)
  {
    -(WORD * WORD) <= 2 * v < WORD * WORD
  }

  // ---- two halves ----

  /** The signed high word and the unsigned low word. */
  function High(v: int): int
  {
    v / WORD
  }

  function Low(v: int): (r: nat)
    ensures r < WORD
  {
    v % WORD
  }

  function Joined(hi: int, lo: int): int
  {
    hi * WORD + lo
  }

  lemma Halves(v: int)
    ensures Joined(High(v), Low(v)) == v
  {
  }

  /** The two halves written one after the other are the two's complement of the whole. */
  lemma HalvesAreTwosComplement(v: int)
    ensures TwosComplement(High(v), 4) + TwosComplement(Low(v), 4) == TwosComplement(v, 8)
  {
    PowWord();
    PowLong();
    var n := v % (WORD * WORD);
    BeSplit(n, 4, 4);
    var q := v / (WORD * WORD);
    assert v == WORD * WORD * q + n && n == WORD * (n / WORD) + n % WORD;
    DivMod(v, WORD, WORD * q + n / WORD, n % WORD);
    DivMod(WORD * q + n / WORD, WORD, q, n / WORD);
    DivMod(Low(v), WORD, 0, Low(v));
  }

  /** The 32-bit signed number that a word of bytes stands for. */
  function Signed(n: int): int
  {
    if n < 0x8000_0000 then n else n - WORD
  }

  function ReadHigh(b: seq<byte>): int
    requires |b| == 8
  {
    Signed(FromBe(b[..4]))
  }

  function ReadLow(b: seq<byte>): int
    requires |b| == 8
  {
    FromBe(b[4..])
  }

  /** Reading the halves of a two's complement gives the halves of the value. */
  lemma ReadsHalves(v: int)
    requires IsInt64(v)
    ensures ReadHigh(TwosComplement(v, 8)) == High(v) && ReadLow(TwosComplement(v, 8)) == Low(v)
  {
    HalvesAreTwosComplement(v);
    PowWord();
    var a, b := TwosComplement(High(v), 4), TwosComplement(Low(v), 4);
    assert (a + b)[..4] == a && (a + b)[4..] == b;
    FromBeBe(High(v) % WORD, 4);
    FromBeBe(Low(v) % WORD, 4);
    HighRange(v);
  }

  lemma HighRange(v: int)
    requires IsInt64(v)
    ensures -0x8000_0000 <= High(v) < 0x8000_0000 && Signed(High(v) % WORD) == High(v)
    ensures High(v) % WORD % WORD == High(v) % WORD && Low(v) % WORD % WORD == Low(v)
  {
    assert v == WORD * High(v) + Low(v);
    var h := High(v);
    if h >= 0 { DivMod(h, WORD, 0, h); } else { DivMod(h, WORD, -1, h + WORD); }
  }

  // ---- floating point ----

  /** Any rounding that is monotone and exact on k, k / 2^10 and k * 2^32 for integers k up to 2^53:
      rounding to nearest in binary64 is one. */
  ghost predicate Rounding(rnd: real -> real)
  {
    && (forall x, y :: x <= y ==> rnd(x) <= rnd(y))
    && (forall k: int :: -SAFE <= k <= SAFE ==> rnd(Whole(k)) == Whole(k))
    && (forall k: int :: -SAFE <= k <= SAFE ==> rnd(Grid(k)) == Grid(k))
    && (forall k: int :: -SAFE <= k <= SAFE ==> rnd(Words(k)) == Words(k))
  }

  function Whole(k: int): real
  {
    k as real
  }

  function Words(k: int): real
  {
    (k * WORD) as real
  }

  function Grid(k: int): real
  {
    k as real / 1024.0
  }

  /** One digit more, with a rounded product and a rounded sum. */
  function Accumulated(rnd: real -> real, x: real, d: int): real
  {
    rnd(rnd(x * 10.0) + Whole(d))
  }

  lemma Above(rnd: real -> real, x: int, m: int)
    requires Rounding(rnd) && -SAFE <= m <= SAFE
    ensures x >= m ==> rnd(Whole(x)) >= Whole(m)
    ensures x <= m ==> rnd(Whole(x)) <= Whole(m)
  {
    assert rnd(Whole(m)) == Whole(m);
  }

  /** rd64: the number that the halves give. */
  function Rd64(rnd: real -> real, hi: int, lo: int): real
  {
    rnd(rnd(Words(hi)) + Whole(lo))
  }

  /** rd64 gives a safe integer exactly if the value is one, and then that one: so the text of an int8 is
      exact, by the number when it is safe and by the wide integer when it is not. */
  lemma Rd64IsExact(rnd: real -> real, v: int)
    requires Rounding(rnd) && IsInt64(v)
    ensures -SAFE < v < SAFE <==> Whole(-SAFE) < Rd64(rnd, High(v), Low(v)) < Whole(SAFE)
    ensures -SAFE < v < SAFE ==> Rd64(rnd, High(v), Low(v)) == Whole(v)
  {
    Halves(v);
    HighRange(v);
    assert rnd(Words(High(v))) == Words(High(v));
    assert Words(High(v)) + Whole(Low(v)) == Whole(v);
    Above(rnd, v, SAFE);
    Above(rnd, v, -SAFE);
    if -SAFE < v < SAFE { assert rnd(Whole(v)) == Whole(v); }
  }

  // ---- timestamps ----

  const PG_EPOCH_MS := 946684800000

  /** Microseconds since 2000-01-01 as milliseconds since 1970, floored. */
  function TrueMs(v: int): int
  {
    v / 1000 + PG_EPOCH_MS
  }

  /** binTimestampMs: every operation is rounded, the quotient before it is floored. */
  function BinTimestampMs(rnd: real -> real, hi: int, lo: int): real
  {
    var small := rnd(rnd(rnd(Whole(hi * 296)) + Whole(lo)) / 1000.0).Floor;
    rnd(rnd(rnd(Whole(hi * 4294967)) + Whole(small)) + Whole(PG_EPOCH_MS))
  }

  /** The part of the quotient that is divided: a rounded quotient by 1000 floors to the floored one. */
  lemma QuotientFloors(rnd: real -> real, x: int)
    requires Rounding(rnd) && -8796093022208000 <= 1024 * x <= 8796093022208000
    ensures rnd(Whole(x) / 1000.0).Floor == x / 1000
  {
    var q := x / 1000;
    assert x == 1000 * q + x % 1000;
    assert Grid(1024 * q) == Whole(q);
    assert Whole(q) <= Whole(x) / 1000.0 <= Grid(1024 * q + 1023);
    assert rnd(Grid(1024 * q)) == Grid(1024 * q) && rnd(Grid(1024 * q + 1023)) == Grid(1024 * q + 1023);
  }

  /** 2^32 = 1000 * 4294967 + 296: the quotient by 1000 falls apart into a product and a small quotient. */
  lemma SplitQuotient(v: int)
    ensures v / 1000 == High(v) * 4294967 + (High(v) * 296 + Low(v)) / 1000
  {
    var x := High(v) * 296 + Low(v);
    assert v == 1000 * (High(v) * 4294967) + x;
    DivMod(v, 1000, High(v) * 4294967 + x / 1000, x % 1000);
  }

  lemma Thousandth(x: int)
    requires -640000000000 <= x <= 640000000000
    ensures -640000000 <= x / 1000 <= 640000000
  {
  }

  lemma SmallPart(rnd: real -> real, v: int)
    requires Rounding(rnd) && IsInt64(v)
    ensures rnd(rnd(rnd(Whole(High(v) * 296)) + Whole(Low(v))) / 1000.0).Floor == (High(v) * 296 + Low(v)) / 1000
    ensures -640000000 <= (High(v) * 296 + Low(v)) / 1000 <= 640000000
  {
    HighRange(v);
    hide High, Low;
    var a, x := High(v) * 296, High(v) * 296 + Low(v);
    Thousandth(x);
    assert rnd(Whole(a)) == Whole(a) && Whole(a) + Whole(Low(v)) == Whole(x) && rnd(Whole(x)) == Whole(x);
    hide Rounding;
    QuotientFloors(rnd, x);
  }

  /** The timestamp of every instant in the range of a Date is exact to the millisecond, with each product
      and sum on the way below 2^53; every other int64, the infinities included, lands outside the range. */
  lemma BinTimestampIsExact(rnd: real -> real, v: int)
    requires Rounding(rnd) && IsInt64(v)
    ensures -Calendar.MAX_TIME <= TrueMs(v) <= Calendar.MAX_TIME ==>
              && BinTimestampMs(rnd, High(v), Low(v)) == Whole(TrueMs(v))
              && -SAFE < High(v) * 4294967 < SAFE && -SAFE < v / 1000 < SAFE && -SAFE < High(v) * 296 + Low(v) < SAFE
    ensures TrueMs(v) > Calendar.MAX_TIME ==> BinTimestampMs(rnd, High(v), Low(v)) > Whole(Calendar.MAX_TIME)
    ensures TrueMs(v) < -Calendar.MAX_TIME ==> BinTimestampMs(rnd, High(v), Low(v)) < Whole(-Calendar.MAX_TIME)
  {
    HighRange(v);
    SplitQuotient(v);
    SmallPart(rnd, v);
    hide High, Low;
    Sums(rnd, High(v) * 4294967, (High(v) * 296 + Low(v)) / 1000);
  }

  /** The two last sums, whatever the product `a` is. */
  lemma Sums(rnd: real -> real, a: int, b: int)
    requires Rounding(rnd) && -640000000 <= b <= 640000000
    ensures var t := a + b + PG_EPOCH_MS; var r := rnd(rnd(rnd(Whole(a)) + Whole(b)) + Whole(PG_EPOCH_MS));
            && (-Calendar.MAX_TIME <= t <= Calendar.MAX_TIME ==> r == Whole(t) && -SAFE < a < SAFE && -SAFE < a + b < SAFE)
            && (t > Calendar.MAX_TIME ==> r > Whole(Calendar.MAX_TIME)) && (t < -Calendar.MAX_TIME ==> r < Whole(-Calendar.MAX_TIME))
  {
    if -SAFE + 640000000 <= a <= SAFE - 640000000 {
      assert rnd(Whole(a)) == Whole(a) && Whole(a) + Whole(b) == Whole(a + b) && rnd(Whole(a + b)) == Whole(a + b);
      assert Whole(a + b) + Whole(PG_EPOCH_MS) == Whole(a + b + PG_EPOCH_MS);
      Above(rnd, a + b + PG_EPOCH_MS, Calendar.MAX_TIME + 1);
      Above(rnd, a + b + PG_EPOCH_MS, -Calendar.MAX_TIME - 1);
      if -Calendar.MAX_TIME <= a + b + PG_EPOCH_MS <= Calendar.MAX_TIME { assert rnd(Whole(a + b + PG_EPOCH_MS)) == Whole(a + b + PG_EPOCH_MS); }
    } else if a > 0 {
      FarAbove(rnd, a, b);
    } else {
      FarBelow(rnd, a, b);
    }
  }

  lemma FarAbove(rnd: real -> real, a: int, b: int)
    requires Rounding(rnd) && -640000000 <= b && a > SAFE - 640000000
    ensures rnd(rnd(rnd(Whole(a)) + Whole(b)) + Whole(PG_EPOCH_MS)) > Whole(Calendar.MAX_TIME)
  {
    Above(rnd, a, SAFE - 640000000);
    var m := SAFE - 2 * 640000000;
    assert rnd(Whole(a)) + Whole(b) >= Whole(m);
    assert rnd(rnd(Whole(a)) + Whole(b)) >= rnd(Whole(m)) == Whole(m);
    assert rnd(Whole(SAFE - 1)) == Whole(SAFE - 1);
    assert rnd(Whole(Calendar.MAX_TIME + 1)) == Whole(Calendar.MAX_TIME + 1);
    assert rnd(rnd(Whole(a)) + Whole(b)) + Whole(PG_EPOCH_MS) >= Whole(Calendar.MAX_TIME + 1);
  }

  lemma FarBelow(rnd: real -> real, a: int, b: int)
    requires Rounding(rnd) && b <= 640000000 && a < -SAFE + 640000000
    ensures rnd(rnd(rnd(Whole(a)) + Whole(b)) + Whole(PG_EPOCH_MS)) < Whole(-Calendar.MAX_TIME)
  {
    Above(rnd, a, -SAFE + 640000000);
    var m := -SAFE + 2 * 640000000;
    assert rnd(Whole(a)) + Whole(b) <= Whole(m);
    assert rnd(rnd(Whole(a)) + Whole(b)) <= rnd(Whole(m)) == Whole(m);
    assert rnd(Whole(-Calendar.MAX_TIME - 1)) == Whole(-Calendar.MAX_TIME - 1);
    assert rnd(rnd(Whole(a)) + Whole(b)) + Whole(PG_EPOCH_MS) <= Whole(-Calendar.MAX_TIME - 1);
  }

  const MS_SAFE := 9007199254740

  /** The microseconds that a Date is sent as: below MS_SAFE the product by 1000 is a safe integer, so it is
      computed as a number; else as a wide integer. */
  function SentMicros(t: int): int
  {
    (t - PG_EPOCH_MS) * 1000
  }

  /** Every Date survives: encoded to the bytes of its microseconds and decoded from the two halves. */
  lemma DateSurvives(rnd: real -> real, t: int)
    requires Rounding(rnd) && -Calendar.MAX_TIME <= t <= Calendar.MAX_TIME
    ensures var v := SentMicros(t); var b := TwosComplement(v, 8);
            && IsInt64(v) && (-MS_SAFE <= t - PG_EPOCH_MS <= MS_SAFE ==> -SAFE < v < SAFE)
            && BinTimestampMs(rnd, ReadHigh(b), ReadLow(b)) == Whole(t)
  {
    var v := SentMicros(t);
    ReadsHalves(v);
    assert TrueMs(v) == t;
    hide BinTimestampMs, TwosComplement, ReadHigh, ReadLow, High, Low;
    BinTimestampIsExact(rnd, v);
  }
}
