/** Decimal text read as a number with one rounding: an integer significand times or over a power of ten. */
module FloatText {
  import opened Bytes
  import opened Temporal
  import opened TemporalText
  import opened Numeric
  import opened PowersOfTen
  import Int64

  /** What the fast path finds; `Fallback` leaves the text to Number(). The number is
      `sig` * 10^`eff`, negated if `neg`. */
  datatype Reading = NotANumber | Infinite(neg: bool) | Fallback | Exact(neg: bool, sig: int, eff: int)

  /** `nd`: digits in `sig`; `fd`: fraction digits read; `hard`: there were more than 15 significant digits. */
  datatype Mantissa = Mantissa(sig: nat, nd: nat, fd: nat, dot: bool, hard: bool)

  function Start(): Mantissa
  {
    Mantissa(0, 0, 0, false, false)
  }

  predicate InMantissa(c: int)
  {
    c == 46 || IsDigit(c)
  }

  predicate MantissaOnly(t: text)
  {
    forall i :: 0 <= i < |t| ==> InMantissa(t[i])
  }

  /** One character of the mantissa. */
  function Take(m: Mantissa, c: int): Mantissa
    requires InMantissa(c)
  {
    if c == 46 then m.(dot := true)
    else if m.sig == 0 && c == 48 then (if m.dot then m.(fd := m.fd + 1) else m)
    else if m.nd < 15 then m.(sig := m.sig * 10 + (c - 48), nd := m.nd + 1, fd := if m.dot then m.fd + 1 else m.fd)
    else m.(hard := true)
  }

  function MantissaEnd(t: text, p: nat): (q: nat)
    requires p <= |t|
    ensures p <= q <= |t| && MantissaOnly(t[p..q]) && (q < |t| ==> !InMantissa(t[q]))
    decreases |t| - p
  {
    if p < |t| && InMantissa(t[p]) then MantissaEnd(t, p + 1) else p
  }

  function TakeAll(m: Mantissa, t: text): Mantissa
    requires MantissaOnly(t)
    decreases |t|
  {
    if t == [] then m else Take(TakeAll(m, t[..|t| - 1]), t[|t| - 1])
  }

  /** The exponent after the mantissa, if there is one. */
  function ExponentAt(t: text, q: nat): int
    requires q <= |t|
  {
    if q == |t| || (t[q] != 101 && t[q] != 69) then 0
    else
      var p := q + 1;
      if p < |t| && t[p] == 45 then -Value(t[p + 1..DigitsEnd(t, p + 1, |t|)])
      else
        var p' := if p < |t| && t[p] == 43 then p + 1 else p;
        Value(t[p'..DigitsEnd(t, p', |t|)])
  }

  function Read(t: text): Reading
  {
    var signed := t != [] && (t[0] == 45 || t[0] == 43);
    var neg := t != [] && t[0] == 45;
    var p := if signed then 1 else 0;
    if p < |t| && (t[p] == 78 || t[p] == 110) then NotANumber
    else if p < |t| && (t[p] == 73 || t[p] == 105) then Infinite(neg)
    else
      var q := MantissaEnd(t, p);
      var m := TakeAll(Start(), t[p..q]);
      var eff := ExponentAt(t, q) - m.fd;
      if m.hard || eff > 22 || eff < -22 then Fallback else Exact(neg, m.sig, eff)
  }

  // ---- the same in doubles ----

  /** The laws of the arithmetic: those of Int64, symmetry, and exactness on k * 2^n for integers k up to 2^53. */
  ghost predicate Doubles(rnd: real -> real)
  {
    && Int64.Rounding(rnd)
    && (forall x :: rnd(-x) == -rnd(x))
    && (forall k: int, n: nat :: -Int64.SAFE <= k <= Int64.SAFE && n <= 22 ==> rnd(Shifted(k, n)) == Shifted(k, n))
  }

  function Shifted(k: int, n: nat): real
  {
    (k * Twos(n)) as real
  }

  function Fives(n: nat): nat
  {
    if n == 0 then 1 else 5 * Fives(n - 1)
  }

  function Twos(n: nat): nat
  {
    if n == 0 then 1 else 2 * Twos(n - 1)
  }

  datatype DoubleMantissa = DoubleMantissa(sig: real, nd: nat, fd: nat, dot: bool, hard: bool)

  /** `Slow` leaves the text to Number(). */
  datatype Number = NaN | Infinity(neg: bool) | Slow | Double(x: real)

  /** One character of the mantissa: each product and each sum is rounded. */
  function TakeDouble(rnd: real -> real, m: DoubleMantissa, c: int): DoubleMantissa
    requires InMantissa(c)
  {
    if c == 46 then m.(dot := true)
    else if m.sig == 0.0 && c == 48 then (if m.dot then m.(fd := m.fd + 1) else m)
    else if m.nd < 15 then m.(sig := Int64.Accumulated(rnd, m.sig, c - 48), nd := m.nd + 1, fd := if m.dot then m.fd + 1 else m.fd)
    else m.(hard := true)
  }

  function TakeAllDouble(rnd: real -> real, t: text): DoubleMantissa
    requires MantissaOnly(t)
    decreases |t|
  {
    if t == [] then DoubleMantissa(0.0, 0, 0, false, false) else TakeDouble(rnd, TakeAllDouble(rnd, t[..|t| - 1]), t[|t| - 1])
  }

  /** An entry of the table of powers: the double nearest to the literal. */
  function Table(rnd: real -> real, n: nat): (r: real)
    requires Doubles(rnd) && n <= 22
    ensures r == Tens(n) as real && r > 0.0
  {
    TableIsExact(rnd, n);
    rnd(Tens(n) as real)
  }

  function Scaled(rnd: real -> real, sig: real, eff: int): real
    requires Doubles(rnd) && -22 <= eff <= 22
  {
    if eff >= 0 then rnd(sig * Table(rnd, eff)) else rnd(sig / Table(rnd, -eff))
  }

  function ReadDouble(rnd: real -> real, t: text): Number
    requires Doubles(rnd)
  {
    var signed := t != [] && (t[0] == 45 || t[0] == 43);
    var neg := t != [] && t[0] == 45;
    var p := if signed then 1 else 0;
    if p < |t| && (t[p] == 78 || t[p] == 110) then Number.NaN
    else if p < |t| && (t[p] == 73 || t[p] == 105) then Infinity(neg)
    else
      var q := MantissaEnd(t, p);
      var m := TakeAllDouble(rnd, t[p..q]);
      var eff := ExponentAt(t, q) - m.fd;
      if m.hard || eff > 22 || eff < -22 then Slow
      else
        var x := Scaled(rnd, m.sig, eff);
        Double(if neg then -x else x)
  }

  /** The decoder: one cursor over the cell, in the arithmetic of doubles. */
  method TxtF64(rnd: real -> real, t: text) returns (r: Number)
    requires Doubles(rnd)
    ensures r == ReadDouble(rnd, t)
  {
    var p, neg := 0, false;
    if Cell(t, 0) == 45 { neg, p := true, 1; } else if Cell(t, 0) == 43 { p := 1; }
    if Cell(t, p) == 78 || Cell(t, p) == 110 { return Number.NaN; }
    if Cell(t, p) == 73 || Cell(t, p) == 105 { return Infinity(neg); }
    var m, q := ReadMantissa(rnd, t, p);
    var e := ReadExponent(t, q);
    hide TakeAllDouble, ExponentAt, Doubles;
    var eff := e - m.fd;
    if m.hard || eff > 22 || eff < -22 { return Slow; }
    var x := Scaled(rnd, m.sig, eff);
    r := Double(if neg then -x else x);
  }

  method ReadMantissa(rnd: real -> real, t: text, start: nat) returns (m: DoubleMantissa, p: nat)
    requires start <= |t|
    ensures p == MantissaEnd(t, start) && m == TakeAllDouble(rnd, t[start..p])
  {
    var sig, nd: nat, fd: nat, dot, hard := 0.0, 0, 0, false, false;
    p := start;
    hide TakeDouble, Int64.Accumulated, TakeAllDouble, MantissaEnd, MantissaOnly;
    TakesNothing(rnd, t, start);
    while p < |t|
      invariant start <= p <= |t| && MantissaEnd(t, p) == MantissaEnd(t, start) && MantissaOnly(t[start..p])
      invariant DoubleMantissa(sig, nd, fd, dot, hard) == TakeAllDouble(rnd, t[start..p])
    {
      var c := t[p];
      MantissaGoesOn(t, p);
      if !InMantissa(c) { break; }
      ghost var before := DoubleMantissa(sig, nd, fd, dot, hard);
      TakesNext(rnd, t, start, p);
      TakeDef(rnd, before, c);
      if c == 46 {
        dot := true;
      } else if sig == 0.0 && c == 48 {
        if dot { fd := fd + 1; }
      } else if nd < 15 {
        sig, nd := Int64.Accumulated(rnd, sig, c - 48), nd + 1;
        if dot { fd := fd + 1; }
      } else {
        hard := true;
      }
      p := p + 1;
    }
    if p == |t| { MantissaGoesOn(t, p); }
    m := DoubleMantissa(sig, nd, fd, dot, hard);
  }

  lemma TakesNothing(rnd: real -> real, t: text, p: nat)
    requires p <= |t|
    ensures MantissaOnly(t[p..p]) && TakeAllDouble(rnd, t[p..p]) == DoubleMantissa(0.0, 0, 0, false, false)
  {
  }

  lemma TakesNext(rnd: real -> real, t: text, start: nat, p: nat)
    requires start <= p < |t| && MantissaOnly(t[start..p]) && InMantissa(t[p])
    ensures MantissaOnly(t[start..p + 1])
    ensures TakeAllDouble(rnd, t[start..p + 1]) == TakeDouble(rnd, TakeAllDouble(rnd, t[start..p]), t[p])
  {
    assert t[start..p + 1][..p - start] == t[start..p];
    hide TakeDouble;
  }

  lemma MantissaGoesOn(t: text, p: nat)
    requires p <= |t|
    ensures MantissaEnd(t, p) == if p < |t| && InMantissa(t[p]) then MantissaEnd(t, p + 1) else p
  {
  }

  lemma TakeDef(rnd: real -> real, m: DoubleMantissa, c: int)
    requires InMantissa(c)
    ensures c == 46 ==> TakeDouble(rnd, m, c) == m.(dot := true)
    ensures c != 46 && m.sig == 0.0 && c == 48 ==> TakeDouble(rnd, m, c) == if m.dot then m.(fd := m.fd + 1) else m
    ensures c != 46 && !(m.sig == 0.0 && c == 48) && m.nd < 15 ==>
              TakeDouble(rnd, m, c)
              == m.(sig := Int64.Accumulated(rnd, m.sig, c - 48), nd := m.nd + 1, fd := if m.dot then m.fd + 1 else m.fd)
    ensures c != 46 && !(m.sig == 0.0 && c == 48) && m.nd >= 15 ==> TakeDouble(rnd, m, c) == m.(hard := true)
  {
  }

  method ReadExponent(t: text, q: nat) returns (e: int)
    requires q <= |t|
    ensures e == ExponentAt(t, q)
  {
    var exp, es, p := 0, 1, q;
    if Cell(t, p) == 101 || Cell(t, p) == 69 {
      p := p + 1;
      if Cell(t, p) == 45 { es, p := -1, p + 1; } else if Cell(t, p) == 43 { p := p + 1; }
      exp, p := ReadDigits(t, p, |t|);
    }
    e := es * exp;
  }

  // ---- decimal text ----

  /** `sign`: as printed, if any; `dot`: a decimal point was printed; `exponent`: sign as printed and digits. */
  datatype Decimal = Decimal(sign: Option<bool>, whole: text, dot: bool, fraction: text, exponent: Option<Exponent>)
  datatype Exponent = Exponent(upper: bool, sign: Option<bool>, digits: text)

  function SignText(sign: Option<bool>): text
  {
    match sign
    case None => []
    case Some(minus) => [if minus then 45 else 43]
  }

  function ExponentText(x: Option<Exponent>): text
  {
    match x
    case None => []
    case Some(e) => [if e.upper then 69 else 101] + SignText(e.sign) + e.digits
  }

  function MantissaText(d: Decimal): text
  {
    d.whole + (if d.dot then [46] + d.fraction else [])
  }

  function Print(d: Decimal): text
  {
    SignText(d.sign) + MantissaText(d) + ExponentText(d.exponent)
  }

  predicate Valid(d: Decimal)
  {
    && AllDigits(d.whole) && AllDigits(d.fraction) && d.whole + d.fraction != [] && (!d.dot ==> d.fraction == [])
    && (d.exponent.Some? ==> AllDigits(d.exponent.value.digits))
  }

  /** The text denotes Value(Digits) * 10^Scale, negated after a minus. */
  function Digits(d: Decimal): text
  {
    d.whole + d.fraction
  }

  function ExponentValue(d: Decimal): int
  {
    if d.exponent.None? then 0
    else if d.exponent.value.sign == Some(true) then -Value(d.exponent.value.digits)
    else Value(d.exponent.value.digits)
  }

  function Scale(d: Decimal): int
  {
    ExponentValue(d) - |d.fraction|
  }

  /** The digits from the first that is not zero. */
  function Significant(t: text): (r: text)
    ensures |r| <= |t|
  {
    if t == [] then []
    else
      var r := Significant(t[..|t| - 1]);
      if r == [] && t[|t| - 1] == 48 then [] else r + [t[|t| - 1]]
  }

  // ---- reading it ----

  lemma {:induction false} SignificantValue(t: text)
    requires AllDigits(t)
    ensures AllDigits(Significant(t)) && Value(Significant(t)) == Value(t)
    ensures Significant(t) != [] <==> Value(t) > 0
    decreases |t|
  {
    if t != [] {
      var t', c := t[..|t| - 1], t[|t| - 1];
      SignificantValue(t');
      var r := Significant(t');
      assert (r + [c])[..|r|] == r;
      ValueBounds(t');
    }
  }

  /** What holds after the digits `p` were taken, `nf` of them behind the point. */
  ghost predicate Took(m: Mantissa, p: text, nf: nat)
  {
    && AllDigits(p)
    && (m.hard <==> |Significant(p)| > 15)
    && (!m.hard ==> m.sig == Value(p) && m.nd == |Significant(p)| && m.fd == nf)
    && (m.hard ==> m.sig > 0 && m.nd == 15)
  }

  lemma TookOne(m: Mantissa, p: text, nf: nat, c: int)
    requires Took(m, p, nf) && IsDigit(c)
    ensures Took(Take(m, c), p + [c], nf + if m.dot then 1 else 0) && Take(m, c).dot == m.dot
  {
    assert (p + [c])[..|p|] == p;
    SignificantValue(p);
    ValueBounds(p);
  }

  lemma {:induction false} TookMore(m: Mantissa, p: text, nf: nat, ds: text)
    requires Took(m, p, nf) && AllDigits(ds)
    ensures MantissaOnly(ds)
    ensures Took(TakeAll(m, ds), p + ds, nf + if m.dot then |ds| else 0) && TakeAll(m, ds).dot == m.dot
    decreases |ds|
  {
    if ds == [] {
      assert p + ds == p;
    } else {
      var ds', c := ds[..|ds| - 1], ds[|ds| - 1];
      TookMore(m, p, nf, ds');
      hide Took, Take;
      assert p + ds' + [c] == p + ds;
      TookOne(TakeAll(m, ds'), p + ds', nf + (if m.dot then |ds'| else 0), c);
    }
  }

  lemma {:induction false} TakeAllAppend(m: Mantissa, a: text, b: text)
    requires MantissaOnly(a) && MantissaOnly(b)
    ensures MantissaOnly(a + b)
    ensures TakeAll(m, a + b) == TakeAll(TakeAll(m, a), b)
    decreases |b|
  {
    hide Take;
    if b == [] {
      assert a + b == a;
    } else {
      assert (a + b)[..|a + b| - 1] == a + b[..|b| - 1];
      TakeAllAppend(m, a, b[..|b| - 1]);
    }
  }

  lemma MantissaInRange(d: Decimal)
    requires Valid(d)
    ensures MantissaOnly(MantissaText(d))
  {
  }

  lemma MantissaReads(d: Decimal)
    requires Valid(d)
    ensures MantissaOnly(MantissaText(d))
    ensures Took(TakeAll(Start(), MantissaText(d)), Digits(d), |d.fraction|)
  {
    MantissaInRange(d);
    assert Took(Start(), [], 0);
    TookMore(Start(), [], 0, d.whole);
    assert [] + d.whole == d.whole;
    var m := TakeAll(Start(), d.whole);
    if d.dot {
      var dotted := Take(m, 46);
      TakeAllAppend(Start(), d.whole, [46] + d.fraction);
      TakeAllAppend(m, [46], d.fraction);
      assert [46][..0] == [] && TakeAll(m, [46]) == dotted;
      TookMore(dotted, d.whole, 0, d.fraction);
    } else {
      assert MantissaText(d) == d.whole == Digits(d);
    }
  }

  lemma ExponentReads(t: text, q: nat, x: Option<Exponent>)
    requires At(t, q, ExponentText(x)) && q + |ExponentText(x)| == |t| && (x.Some? ==> AllDigits(x.value.digits))
    ensures ExponentAt(t, q) == if x.None? then 0 else if x.value.sign == Some(true) then -Value(x.value.digits) else Value(x.value.digits)
    ensures q < |t| ==> !InMantissa(t[q])
  {
    if x.Some? {
      var e := x.value;
      hide Value;
      var mark: text := [if e.upper then 69 else 101];
      AtParts(t, q, mark + SignText(e.sign), e.digits);
      AtParts(t, q, mark, SignText(e.sign));
      AtOne(t, q, mark[0]);
      var p := q + 1 + |SignText(e.sign)|;
      if e.sign.Some? { AtOne(t, q + 1, SignText(e.sign)[0]); }
      DigitsToEnd(t, p, e.digits);
      assert e.sign.None? && p < |t| ==> IsDigit(t[p]);
      hide At, DigitsEnd, AllDigits, ExponentText;
    }
  }

  lemma DigitsToEnd(t: text, p: nat, digits: text)
    requires p <= |t| && t[p..] == digits && AllDigits(digits)
    ensures DigitsEnd(t, p, |t|) == |t| && t[p..|t|] == digits && forall i :: p <= i < |t| ==> IsDigit(t[i])
  {
    assert t[p..|t|] == digits;
    forall i | p <= i < |t| ensures IsDigit(t[i]) { assert t[i] == digits[i - p]; }
    DigitsReach(t, p, |t|, |t|);
  }

  lemma {:induction false} MantissaReach(t: text, p: nat, q: nat)
    requires p <= q <= |t| && (forall i :: p <= i < q ==> InMantissa(t[i])) && (q < |t| ==> !InMantissa(t[q]))
    ensures MantissaEnd(t, p) == q
    decreases q - p
  {
    if p < q { MantissaReach(t, p + 1, q); }
  }

  lemma FirstOfMantissa(d: Decimal)
    requires Valid(d)
    ensures MantissaText(d) != [] && InMantissa(MantissaText(d)[0])
  {
    MantissaInRange(d);
  }

  /** The cell falls apart into sign, mantissa and exponent. */
  lemma PartsStand(d: Decimal)
    requires Valid(d)
    ensures var t := Print(d); var p := |SignText(d.sign)|; var q := p + |MantissaText(d)|;
            At(t, 0, SignText(d.sign)) && At(t, p, MantissaText(d)) && At(t, q, ExponentText(d.exponent)) && q + |ExponentText(d.exponent)| == |t|
  {
    var t := Print(d);
    hide SignText, MantissaText, ExponentText;
    var sign, mantissa, exponent := SignText(d.sign), MantissaText(d), ExponentText(d.exponent);
    assert At(t, 0, sign + mantissa + exponent) by { assert t[0..|t|] == t; }
    AtParts(t, 0, sign + mantissa, exponent);
    AtParts(t, 0, sign, mantissa);
  }

  lemma MantissaStands(t: text, p: nat, d: Decimal)
    requires Valid(d) && At(t, p, MantissaText(d))
    requires p + |MantissaText(d)| < |t| ==> !InMantissa(t[p + |MantissaText(d)|])
    ensures var q := p + |MantissaText(d)|; p < |t| && InMantissa(t[p]) && MantissaEnd(t, p) == q && t[p..q] == MantissaText(d)
  {
    FirstOfMantissa(d);
    MantissaInRange(d);
    hide MantissaText;
    var q := p + |MantissaText(d)|;
    forall i | p <= i < q ensures InMantissa(t[i]) { assert t[i] == t[p..q][i - p]; }
    MantissaReach(t, p, q);
  }

  lemma SignStands(t: text, sign: Option<bool>)
    requires At(t, 0, SignText(sign)) && |SignText(sign)| < |t| && InMantissa(t[|SignText(sign)|])
    ensures var p := |SignText(sign)|; p == (if t[0] == 45 || t[0] == 43 then 1 else 0) && (t[0] == 45) == (sign == Some(true))
  {
    if sign.Some? { AtOne(t, 0, SignText(sign)[0]); }
  }

  lemma ExponentStands(t: text, q: nat, d: Decimal)
    requires Valid(d) && At(t, q, ExponentText(d.exponent)) && q + |ExponentText(d.exponent)| == |t|
    ensures ExponentAt(t, q) == ExponentValue(d) && (q < |t| ==> !InMantissa(t[q]))
  {
    ExponentReads(t, q, d.exponent);
  }

  lemma ReadOf(t: text, p: nat, q: nat, e: int)
    requires p == (if t != [] && (t[0] == 45 || t[0] == 43) then 1 else 0) && p < |t| && InMantissa(t[p])
    requires MantissaEnd(t, p) == q && ExponentAt(t, q) == e
    ensures var m := TakeAll(Start(), t[p..q]); var eff := e - m.fd;
            Read(t) == if m.hard || eff > 22 || eff < -22 then Fallback else Exact(t[0] == 45, m.sig, eff)
  {
    hide TakeAll, ExponentAt, MantissaEnd;
  }

  lemma CutPoints(d: Decimal) returns (p: nat, q: nat)
    requires Valid(d)
    ensures var t := Print(d);
            && p == (if t != [] && (t[0] == 45 || t[0] == 43) then 1 else 0) && p < |t| && InMantissa(t[p])
            && (t[0] == 45) == (d.sign == Some(true))
            && MantissaEnd(t, p) == q && t[p..q] == MantissaText(d) && ExponentAt(t, q) == ExponentValue(d)
  {
    PartsStand(d);
    hide Print, At, MantissaText, SignText, MantissaEnd, ExponentAt, ExponentText, Valid, ExponentValue, InMantissa;
    var t := Print(d);
    p := |SignText(d.sign)|;
    q := p + |MantissaText(d)|;
    ExponentStands(t, q, d);
    MantissaStands(t, p, d);
    SignStands(t, d.sign);
  }

  lemma PartsRead(d: Decimal)
    requires Valid(d)
    ensures MantissaOnly(MantissaText(d))
    ensures var m := TakeAll(Start(), MantissaText(d)); var eff := ExponentValue(d) - m.fd;
            Read(Print(d)) == if m.hard || eff > 22 || eff < -22 then Fallback else Exact(d.sign == Some(true), m.sig, eff)
  {
    MantissaInRange(d);
    hide *;
    var p, q := CutPoints(d);
    ReadOf(Print(d), p, q, ExponentValue(d));
  }

  /** Exactly when the text has at most 15 significant digits and its scale is within 22, the fast path gives
      its digits as an integer below 10^15 and its scale: significand times ten to the exponent is the
      rational number that the text denotes. Every other decimal text falls back. */
  lemma FastPathIsExact(d: Decimal)
    requires Valid(d)
    ensures Read(Print(d)) ==
              if |Significant(Digits(d))| > 15 || Scale(d) > 22 || Scale(d) < -22 then Fallback
              else Exact(d.sign == Some(true), Value(Digits(d)), Scale(d))
    ensures |Significant(Digits(d))| <= 15 ==> Value(Digits(d)) < 1000000000000000
  {
    DigitsValid(d);
    ScaleIs(d);
    hide *;
    PartsRead(d);
    MantissaReads(d);
    TookFacts(TakeAll(Start(), MantissaText(d)), Digits(d), |d.fraction|);
    SignificantValue(Digits(d));
    FewDigits(Significant(Digits(d)));
  }

  lemma DigitsValid(d: Decimal)
    requires Valid(d)
    ensures AllDigits(Digits(d))
  {
  }

  lemma ScaleIs(d: Decimal)
    ensures Scale(d) == ExponentValue(d) - |d.fraction|
  {
  }

  lemma TookFacts(m: Mantissa, p: text, nf: nat)
    requires Took(m, p, nf)
    ensures m.hard <==> |Significant(p)| > 15
    ensures !m.hard ==> m.sig == Value(p) && m.fd == nf
  {
  }

  lemma FewDigits(t: text)
    requires AllDigits(t)
    ensures |t| <= 15 ==> Value(t) < 1000000000000000
  {
    ValueBounds(t);
    if |t| <= 15 {
      TensGrow(|t|, 15);
      TensValues();
    }
  }

  // ---- the one rounding ----

  /** Ten to the power up to 22 is a power of two times an integer below 2^53, so a double holds it exactly. */
  lemma {:induction false} PowersAreExact(n: nat)
    requires n <= 22
    ensures Tens(n) == Fives(n) * Twos(n) && Fives(n) <= 2384185791015625 < 9007199254740992
  {
    TensAreFivesTwos(n);
    FivesGrow(n, 22);
    FivesAt22();
  }

  lemma {:induction false} TensAreFivesTwos(n: nat)
    ensures Tens(n) == Fives(n) * Twos(n)
  {
    if n > 0 {
      TensAreFivesTwos(n - 1);
      var f, t := Fives(n - 1), Twos(n - 1);
      assert (5 * f) * (2 * t) == 10 * (f * t);
    }
  }

  lemma {:induction false} FivesGrow(n: nat, m: nat)
    requires n <= m
    ensures 0 < Fives(n) <= Fives(m)
    decreases m
  {
    if n < m { FivesGrow(n, m - 1); } else if n > 0 { FivesGrow(n - 1, n - 1); }
  }

  lemma FivesAt22()
    ensures Fives(22) == 2384185791015625
  {
    assert Fives(6) == 5 * Fives(5) && Fives(5) == 5 * Fives(4) && Fives(4) == 5 * Fives(3) && Fives(3) == 5 * Fives(2) && Fives(2) == 5 * Fives(1) && Fives(1) == 5;
    assert Fives(12) == 5 * Fives(11) && Fives(11) == 5 * Fives(10) && Fives(10) == 5 * Fives(9) && Fives(9) == 5 * Fives(8) && Fives(8) == 5 * Fives(7) && Fives(7) == 5 * Fives(6);
    assert Fives(18) == 5 * Fives(17) && Fives(17) == 5 * Fives(16) && Fives(16) == 5 * Fives(15) && Fives(15) == 5 * Fives(14) && Fives(14) == 5 * Fives(13) && Fives(13) == 5 * Fives(12);
    assert Fives(22) == 5 * Fives(21) && Fives(21) == 5 * Fives(20) && Fives(20) == 5 * Fives(19) && Fives(19) == 5 * Fives(18);
  }

  /** So the table's entries are the powers themselves. */
  lemma TableIsExact(rnd: real -> real, n: nat)
    requires Doubles(rnd) && n <= 22
    ensures rnd(Tens(n) as real) == Tens(n) as real
  {
    PowersAreExact(n);
    assert Shifted(Fives(n), n) == Tens(n) as real;
  }

  function InDoubles(m: Mantissa): DoubleMantissa
  {
    DoubleMantissa(m.sig as real, m.nd, m.fd, m.dot, m.hard)
  }

  /** Up to fifteen digits the rounded loop is exact: no sum or product comes to 2^53. */
  lemma {:induction false} LoopIsExact(rnd: real -> real, t: text)
    requires Int64.Rounding(rnd) && MantissaOnly(t)
    ensures var m := TakeAll(Start(), t); TakeAllDouble(rnd, t) == InDoubles(m) && m.nd <= 15 && m.sig < Tens(m.nd)
    decreases |t|
  {
    if t != [] {
      LoopIsExact(rnd, t[..|t| - 1]);
      DigitIsExact(rnd, TakeAll(Start(), t[..|t| - 1]), t[|t| - 1]);
    }
  }

  lemma DigitIsExact(rnd: real -> real, m: Mantissa, c: int)
    requires Int64.Rounding(rnd) && InMantissa(c) && m.nd <= 15 && m.sig < Tens(m.nd)
    ensures TakeDouble(rnd, InDoubles(m), c) == InDoubles(Take(m, c)) && Take(m, c).nd <= 15 && Take(m, c).sig < Tens(Take(m, c).nd)
  {
    if c != 46 && !(m.sig == 0 && c == 48) && m.nd < 15 {
      TensGrow(m.nd + 1, 15);
      TensValues();
      var n, d := m.sig * 10, c - 48;
      assert n + d < Tens(m.nd + 1) <= 1000000000000000;
      assert (m.sig as real) * 10.0 == Int64.Whole(n) && rnd(Int64.Whole(n)) == Int64.Whole(n);
      assert Int64.Whole(n) + Int64.Whole(d) == Int64.Whole(n + d) && rnd(Int64.Whole(n + d)) == Int64.Whole(n + d);
    }
  }

  /** Where the mantissa begins, and whether the text is a word instead. */
  function After(t: text): (p: nat)
    ensures p <= |t|
  {
    if t != [] && (t[0] == 45 || t[0] == 43) then 1 else 0
  }

  predicate IsWord(t: text)
  {
    After(t) < |t| && t[After(t)] in {78, 110, 73, 105}
  }

  lemma ReadsMantissa(t: text)
    requires !IsWord(t)
    ensures var m := TakeAll(Start(), t[After(t)..MantissaEnd(t, After(t))]); var eff := ExponentAt(t, MantissaEnd(t, After(t))) - m.fd;
            Read(t) == if m.hard || eff > 22 || eff < -22 then Fallback else Exact(t != [] && t[0] == 45, m.sig, eff)
  {
    hide TakeAll, ExponentAt, MantissaEnd, MantissaOnly;
  }

  lemma ReadsMantissaDouble(rnd: real -> real, t: text)
    requires Doubles(rnd) && !IsWord(t)
    ensures var m := TakeAllDouble(rnd, t[After(t)..MantissaEnd(t, After(t))]); var eff := ExponentAt(t, MantissaEnd(t, After(t))) - m.fd;
            ReadDouble(rnd, t) == if m.hard || eff > 22 || eff < -22 then Slow
                                  else Double(if t != [] && t[0] == 45 then -Scaled(rnd, m.sig, eff) else Scaled(rnd, m.sig, eff))
  {
    hide TakeAllDouble, ExponentAt, MantissaEnd, MantissaOnly, Doubles, Scaled;
  }

  /** The doubles find what the integers find, and then scale it. */
  lemma ReadsTheSame(rnd: real -> real, t: text)
    requires Doubles(rnd)
    ensures ReadDouble(rnd, t) == match Read(t)
                                  case NotANumber => Number.NaN
                                  case Infinite(neg) => Infinity(neg)
                                  case Fallback => Slow
                                  case Exact(neg, sig, eff) => if -22 <= eff <= 22 then Double(if neg then -Scaled(rnd, sig as real, eff) else Scaled(rnd, sig as real, eff)) else Slow
  {
    hide Doubles, Scaled, TakeAll, TakeAllDouble, ExponentAt;
    if IsWord(t) {
      WordsAreTheSame(rnd, t);
    } else {
      ReadsMantissa(t);
      ReadsMantissaDouble(rnd, t);
      hide Read, ReadDouble, IsWord, MantissaOnly, MantissaEnd;
      TakesTheSame(rnd, t[After(t)..MantissaEnd(t, After(t))]);
    }
  }

  lemma TakesTheSame(rnd: real -> real, t: text)
    requires Doubles(rnd) && MantissaOnly(t)
    ensures TakeAllDouble(rnd, t) == InDoubles(TakeAll(Start(), t))
  {
    LoopIsExact(rnd, t);
  }

  lemma WordsAreTheSame(rnd: real -> real, t: text)
    requires Doubles(rnd) && IsWord(t)
    ensures || (Read(t) == NotANumber && ReadDouble(rnd, t) == Number.NaN)
            || (exists neg :: Read(t) == Infinite(neg) && ReadDouble(rnd, t) == Infinity(neg))
  {
    hide Doubles, Scaled, TakeAll, TakeAllDouble, ExponentAt;
    var neg := t[0] == 45;
    if t[After(t)] in {73, 105} { assert Read(t) == Infinite(neg) && ReadDouble(rnd, t) == Infinity(neg); }
  }

  function TimesTens(v: real, e: int): real
  {
    if e >= 0 then v * Tens(e) as real else v / Tens(-e) as real
  }

  /** The rational number that the text denotes: its digits times ten to its scale, signed. */
  function Denoted(d: Decimal): real
  {
    var x := TimesTens(Value(Digits(d)) as real, Scale(d));
    if d.sign == Some(true) then -x else x
  }

  lemma ScaledOnce(rnd: real -> real, v: real, e: int)
    requires Doubles(rnd) && -22 <= e <= 22
    ensures Scaled(rnd, v, e) == rnd(TimesTens(v, e)) && -Scaled(rnd, v, e) == rnd(-TimesTens(v, e))
  {
    hide Tens;
    var x := TimesTens(v, e);
    assert rnd(-x) == -rnd(x);
  }

  /** With every operation of the loop and every entry of the table rounded, the result on the fast path is the
      rational number that the text denotes, rounded once; any other text is left to Number(). */
  lemma FastPathRoundsOnce(rnd: real -> real, d: Decimal)
    requires Doubles(rnd) && Valid(d)
    ensures ReadDouble(rnd, Print(d)) == if |Significant(Digits(d))| > 15 || Scale(d) > 22 || Scale(d) < -22 then Slow else Double(rnd(Denoted(d)))
  {
    hide Read, ReadDouble, Value, Scale, Digits, Significant, Doubles, TimesTens, Print, Valid;
    ReadsTheSame(rnd, Print(d));
    FastPathIsExact(d);
    if -22 <= Scale(d) <= 22 { ScaledOnce(rnd, Value(Digits(d)) as real, Scale(d)); }
  }
}
