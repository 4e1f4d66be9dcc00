/** Decimal values: the text of a binary numeric, and the fast reading of decimal text as a number. */
module Numeric {
  import opened Bytes
  import opened Int64
  import opened PowersOfTen
  import opened Temporal
  import opened TemporalText

  // ---- powers and digits ----

  predicate AllDigits(t: text)
  {
    forall i :: 0 <= i < |t| ==> IsDigit(t[i])
  }

  lemma {:induction false} ValueAppend(a: text, b: text)
    ensures Value(a + b) == Value(a) * Tens(|b|) + Value(b)
    decreases |b|
  {
    if b == [] {
      assert a + b == a;
    } else {
      var b' := b[..|b| - 1];
      assert (a + b)[..|a + b| - 1] == a + b';
      ValueAppend(a, b');
      assert Tens(|b|) == 10 * Tens(|b'|);
    }
  }

  lemma {:induction false} ValueBounds(t: text)
    requires AllDigits(t)
    ensures 0 <= Value(t) < Tens(|t|)
  {
    if t != [] { ValueBounds(t[..|t| - 1]); }
  }

  /** The product of two reals, and its laws one by one. */
  function Times(a: real, b: real): real
  {
    a * b
  }

  lemma TimesLe(a: real, b: real, c: real)
    requires a <= b && c >= 0.0
    ensures Times(a, c) <= Times(b, c)
  {
  }

  lemma TimesLt(a: real, b: real, c: real)
    requires a < b && c > 0.0
    ensures Times(a, c) < Times(b, c)
  {
  }

  lemma TimesAssoc(a: real, b: real, c: real)
    ensures Times(Times(a, b), c) == Times(a, Times(b, c))
  {
  }

  lemma TimesAdd(a: real, b: real, c: real)
    ensures Times(a + b, c) == Times(a, c) + Times(b, c)
  {
  }

  lemma TimesTen4(a: real, c: real)
    ensures Times(a, 10000.0 * c) == Times(a * 10000.0, c) == 10000.0 * Times(a, c)
  {
  }

  lemma TimesUnit(c: real)
    ensures Times(1.0, c) == c == Times(c, 1.0) && Times(0.0, c) == 0.0
  {
  }

  lemma TimesSwap(a: real, b: real)
    ensures Times(a, b) == Times(b, a)
    ensures a > 0.0 && b > 0.0 ==> Times(a, b) > 0.0
  {
  }

  // ---- the text of a binary numeric ----

  /** Group `i` of the base-10000 digits; groups that are not sent are zero. */
  function Group(ds: seq<nat>, i: int): nat
  {
    if 0 <= i < |ds| then ds[i] else 0
  }

  /** Groups 1 to `weight` with four digits each, after the first. */
  function MoreGroups(ds: seq<nat>, from: int, n: nat): (r: text)
    ensures AllDigits(r)
  {
    if n == 0 then [] else MoreGroups(ds, from, n - 1) + Pad(Group(ds, from + n - 1), 4)
  }

  function IntegerText(ds: seq<nat>, weight: int): (r: text)
    ensures AllDigits(r) && r != []
  {
    if weight < 0 || ds == [] then [48] else Pad(ds[0], 1) + MoreGroups(ds, 1, weight)
  }

  /** The number of groups that hold `dscale` fraction digits. */
  function GroupsFor(dscale: nat): nat
  {
    (dscale + 3) / 4
  }

  /** Groups are below 10000. */
  predicate ValidGroups(ds: seq<nat>)
  {
    forall i :: 0 <= i < |ds| ==> ds[i] < 10000
  }

  lemma {:induction false} MoreGroupsLength(ds: seq<nat>, from: int, n: nat)
    requires ValidGroups(ds)
    ensures |MoreGroups(ds, from, n)| == 4 * n
  {
    if n > 0 {
      MoreGroupsLength(ds, from, n - 1);
      FourDigits(Group(ds, from + n - 1));
    }
  }

  lemma FourDigits(d: nat)
    requires d < 10000
    ensures |Pad(d, 4)| == 4
  {
    assert d / 10 / 10 / 10 / 10 == 0;
    assert Pad(d / 10 / 10 / 10 / 10, 0) == [];
    assert |Pad(d / 10 / 10 / 10, 1)| == 1;
    assert |Pad(d / 10 / 10, 2)| == 2;
    assert |Pad(d / 10, 3)| == 3;
  }

  function FractionDigits(ds: seq<nat>, weight: int, dscale: nat): (r: text)
    requires ValidGroups(ds)
    ensures |r| == dscale && AllDigits(r)
  {
    MoreGroupsLength(ds, weight + 1, GroupsFor(dscale));
    MoreGroups(ds, weight + 1, GroupsFor(dscale))[..dscale]
  }

  function NumericText(ds: seq<nat>, weight: int, negative: bool, dscale: nat): text
    requires ValidGroups(ds)
  {
    (if negative then [45] else []) + IntegerText(ds, weight) + (if dscale > 0 then [46] + FractionDigits(ds, weight, dscale) else [])
  }

  // ---- what it denotes ----

  /** 10000 to the power `e`, negative ones too. */
  function Power(e: int): (r: real)
    ensures r > 0.0
    decreases if e < 0 then -e else e
  {
    if e == 0 then 1.0 else if e > 0 then 10000.0 * Power(e - 1) else Power(e + 1) / 10000.0
  }

  lemma PowerStep(e: int)
    ensures Power(e + 1) == 10000.0 * Power(e)
  {
  }

  /** The digit sum: each group times 10000 to its weight. */
  function Sum(ds: seq<nat>, weight: int): real
  {
    if ds == [] then 0.0 else Times(ds[0] as real, Power(weight)) + Sum(ds[1..], weight - 1)
  }

  /** The number that the first `n` groups make. */
  function Leading(ds: seq<nat>, n: int): nat
    decreases if n < 0 then 0 else n
  {
    if n <= 0 then 0 else Leading(ds, n - 1) * 10000 + Group(ds, n - 1)
  }

  lemma {:induction false} SumBounds(ds: seq<nat>, weight: int)
    requires ValidGroups(ds)
    ensures 0.0 <= Sum(ds, weight) < Power(weight + 1)
    decreases |ds|
  {
    PowerStep(weight);
    if ds != [] {
      SumBounds(ds[1..], weight - 1);
      assert weight - 1 + 1 == weight;
      TimesLe(0.0, ds[0] as real, Power(weight));
      TimesLe(ds[0] as real, 9999.0, Power(weight));
      assert Times(9999.0, Power(weight)) == 9999.0 * Power(weight);
      TimesUnit(Power(weight));
      hide Times, Power;
    }
  }

  lemma {:induction false} SumSplits(ds: seq<nat>, weight: int, n: nat)
    requires n <= |ds|
    ensures Sum(ds, weight) == Times(Leading(ds, n) as real, Power(weight + 1 - n)) + Sum(ds[n..], weight - n)
    decreases n
  {
    if n == 0 {
      assert ds[0..] == ds;
    } else {
      SumSplits(ds, weight, n - 1);
      SumTail(ds, weight - (n - 1), n - 1);
      PowerStep(weight + 1 - n);
      assert Leading(ds, n) == Leading(ds, n - 1) * 10000 + ds[n - 1];
      hide Power, Sum, Leading, Times;
      var l, d, p := Leading(ds, n - 1) as real, ds[n - 1] as real, Power(weight + 1 - n);
      TimesTen4(l, p);
      TimesAdd(l * 10000.0, d, p);
      assert Leading(ds, n) as real == l * 10000.0 + d;
    }
  }

  lemma SumTail(ds: seq<nat>, weight: int, n: nat)
    requires n < |ds|
    ensures Sum(ds[n..], weight) == Times(ds[n] as real, Power(weight)) + Sum(ds[n + 1..], weight - 1)
  {
    assert ds[n..][1..] == ds[n + 1..];
  }

  lemma {:induction false} LeadingPast(ds: seq<nat>, n: nat, weight: int)
    requires n >= |ds|
    ensures Times(Leading(ds, n) as real, Power(weight + 1 - n)) == Times(Leading(ds, |ds|) as real, Power(weight + 1 - |ds|))
    decreases n
  {
    if n > |ds| {
      LeadingPast(ds, n - 1, weight);
      PowerStep(weight + 1 - n);
      assert Leading(ds, n) == Leading(ds, n - 1) * 10000;
      hide Power, Leading, Times;
      TimesTen4(Leading(ds, n - 1) as real, Power(weight + 1 - n));
      assert Leading(ds, n) as real == Leading(ds, n - 1) as real * 10000.0;
    }
  }

  lemma {:induction false} PowerGrows(e: int, k: nat)
    ensures Power(e) <= Power(e + k)
    decreases k
  {
    if k > 0 {
      PowerGrows(e, k - 1);
      PowerStep(e + k - 1);
    }
  }

  /** `n` in units of `p` is `sum` cut off. */
  predicate CutAt(n: int, p: real, sum: real)
  {
    Times(n as real, p) <= sum < Times((n + 1) as real, p)
  }

  lemma Within(sum: real, leading: nat, p: real, rest: real)
    requires sum == Times(leading as real, p) + rest && 0.0 <= rest < p
    ensures CutAt(leading, p, sum)
  {
    TimesAdd(leading as real, 1.0, p);
    TimesUnit(p);
    assert (leading + 1) as real == leading as real + 1.0;
    hide Times;
  }

  /** Any number of leading groups is the digit sum cut off there. */
  lemma LeadingIsSum(ds: seq<nat>, weight: int, n: int)
    requires ValidGroups(ds)
    ensures CutAt(Leading(ds, n), Power(weight + 1 - n), Sum(ds, weight))
  {
    var p := Power(weight + 1 - n);
    if n < 0 {
      SumBounds(ds, weight);
      PowerGrows(weight + 1, -n);
      NoLeading(ds, n);
      TimesUnit(p);
      hide Power, Sum, Times, CutAt;
      Within(Sum(ds, weight), 0, p, Sum(ds, weight));
    } else if n <= |ds| {
      SumSplits(ds, weight, n);
      SumBounds(ds[n..], weight - n);
      hide Power, Sum, Leading, Times, CutAt;
      Within(Sum(ds, weight), Leading(ds, n), p, Sum(ds[n..], weight - n));
    } else {
      SumSplits(ds, weight, |ds|);
      LeadingPast(ds, n, weight);
      assert Sum(ds[|ds|..], weight - |ds|) == 0.0;
      hide Power, Sum, Leading, Times, CutAt;
      Within(Sum(ds, weight), Leading(ds, n), p, 0.0);
    }
  }

  // ---- the text denotes the sum ----

  lemma {:induction false} GroupsMake(head: text, ds: seq<nat>, from: int, n: nat)
    requires ValidGroups(ds) && Value(head) == Leading(ds, from)
    ensures Value(head + MoreGroups(ds, from, n)) == Leading(ds, from + n)
    decreases n
  {
    if n == 0 {
      assert head + [] == head;
    } else {
      var d := Group(ds, from + n - 1);
      var before := head + MoreGroups(ds, from, n - 1);
      GroupsMake(head, ds, from, n - 1);
      Assoc(head, MoreGroups(ds, from, n - 1), Pad(d, 4));
      ValueAppend(before, Pad(d, 4));
      FourDigits(d);
      PadValue(d, 4);
      assert Tens(4) == 10000 by { assert Tens(3) == 10 * Tens(2) && Tens(2) == 10 * Tens(1); }
      if from + n <= 0 { NoLeading(ds, from + n); }
    }
  }

  /** Before the first group there is nothing. */
  lemma NoLeading(ds: seq<nat>, n: int)
    requires n <= 0
    ensures Leading(ds, n) == 0 && Leading(ds, n - 1) == 0 && Group(ds, n - 1) == 0
  {
  }

  lemma {:induction false} NoGroups(n: int)
    ensures Leading([], n) == 0
    decreases if n < 0 then 0 else n
  {
    if n > 0 { NoGroups(n - 1); } else { NoLeading([], n); }
  }

  lemma IntegerIs(ds: seq<nat>, weight: int)
    requires ValidGroups(ds)
    ensures Value(IntegerText(ds, weight)) == Leading(ds, weight + 1)
  {
    if weight < 0 || ds == [] {
      assert [48][..0] == [] && Value([48]) == 0;
      if weight >= 0 { NoGroups(weight + 1); }
    } else {
      PadValue(ds[0], 1);
      OneGroup(ds);
      hide Value, Leading, Pad, MoreGroups;
      GroupsMake(Pad(ds[0], 1), ds, 1, weight);
    }
  }

  lemma OneGroup(ds: seq<nat>)
    requires ds != []
    ensures Leading(ds, 1) == ds[0]
  {
  }

  /** Cutting off the last digits divides and floors. */
  lemma CutOff(t: text, n: nat)
    requires AllDigits(t) && n <= |t|
    ensures Value(t[..n]) * Tens(|t| - n) <= Value(t) < (Value(t[..n]) + 1) * Tens(|t| - n)
  {
    assert t == t[..n] + t[n..];
    ValueAppend(t[..n], t[n..]);
    ValueBounds(t[n..]);
  }

  lemma TensFour(n: nat)
    ensures Tens(n + 4) == 10000 * Tens(n)
  {
    assert Tens(n + 4) == 10 * Tens(n + 3) && Tens(n + 3) == 10 * Tens(n + 2) && Tens(n + 2) == 10 * Tens(n + 1);
  }

  lemma {:induction false} PowerOfTens(k: nat)
    ensures Times(Power(-(k as int)), Tens(4 * k) as real) == 1.0
  {
    if k > 0 {
      PowerOfTens(k - 1);
      PowerStep(-(k as int));
      TensFour(4 * (k - 1));
      assert 4 * (k - 1) + 4 == 4 * k;
      hide Power, Tens, Times;
      var p, t := Power(-(k as int)), Tens(4 * (k - 1)) as real;
      TimesTen4(p, t);
      assert 10000.0 * p == p * 10000.0;
      assert Tens(4 * k) as real == 10000.0 * t;
    }
  }

  /** The integer digits and the `dscale` fraction digits, read as one number, are the digit sum in units of
      the last fraction digit, cut off: for every weight, digit count and scale. */
  lemma NumericIsExact(ds: seq<nat>, weight: int, dscale: nat)
    requires ValidGroups(ds)
    ensures var n := Value(IntegerText(ds, weight) + FractionDigits(ds, weight, dscale));
            n as real <= Times(Sum(ds, weight), Tens(dscale) as real) < (n + 1) as real
  {
    hide AllDigits, FractionDigits, IntegerText, Value, ValidGroups;
    var k := GroupsFor(dscale);
    var t: nat := 4 * k - dscale;
    hide GroupsFor;
    var n := Value(IntegerText(ds, weight) + FractionDigits(ds, weight, dscale));
    CutDigits(ds, weight, dscale);
    LeadingIsSum(ds, weight, weight + 1 + k);
    PowerOfTens(k);
    TensAdd(dscale, t);
    hide Sum, Tens, Power, Leading, Times, CutAt;
    assert weight + 1 - (weight + 1 + k) == -(k as int) && dscale + t == 4 * k;
    Scaled(n, Tens(t), Leading(ds, weight + 1 + k), Power(-(k as int)), Tens(dscale), Sum(ds, weight));
  }

  lemma CutDigits(ds: seq<nat>, weight: int, dscale: nat)
    requires ValidGroups(ds)
    ensures var n := Value(IntegerText(ds, weight) + FractionDigits(ds, weight, dscale)); var k := GroupsFor(dscale);
            n * Tens(4 * k - dscale) <= Leading(ds, weight + 1 + k) < (n + 1) * Tens(4 * k - dscale)
  {
    var k := GroupsFor(dscale);
    var head, raw := IntegerText(ds, weight), MoreGroups(ds, weight + 1, k);
    IntegerIs(ds, weight);
    GroupsMake(head, ds, weight + 1, k);
    MoreGroupsLength(ds, weight + 1, k);
    assert head + FractionDigits(ds, weight, dscale) == (head + raw)[..|head| + dscale];
    CutOff(head + raw, |head| + dscale);
  }

  /** n t <= h < (n + 1) t, and h p <= sum < (h + 1) p, where p d t = 1. */
  lemma Scaled(n: int, t: nat, h: int, p: real, d: nat, sum: real)
    requires p > 0.0 && d > 0 && t > 0 && Times(p, (d * t) as real) == 1.0
    requires n * t <= h < (n + 1) * t && CutAt(h, p, sum)
    ensures n as real <= Times(sum, d as real) < (n + 1) as real
  {
    var dr, tr := d as real, t as real;
    var q := Times(p, dr);
    Product(d, t);
    Product(n, t);
    Product(n + 1, t);
    hide Times;
    TimesAssoc(p, dr, tr);
    TimesSwap(p, dr);
    TimesSwap(tr, q);
    assert Times(tr, q) == 1.0;
    TimesLe(Times(h as real, p), sum, dr);
    TimesLt(sum, Times((h + 1) as real, p), dr);
    TimesAssoc(h as real, p, dr);
    TimesAssoc((h + 1) as real, p, dr);
    TimesLe((n * t) as real, h as real, q);
    TimesLe((h + 1) as real, ((n + 1) * t) as real, q);
    TimesAssoc(n as real, tr, q);
    TimesAssoc((n + 1) as real, tr, q);
    TimesUnit(n as real);
    TimesUnit((n + 1) as real);
  }

  lemma Product(a: int, b: int)
    ensures (a * b) as real == Times(a as real, b as real)
  {
  }

  // ---- the whole text ----

  /** A sign, the digits before and after the point, and how many stand after it. */
  datatype Reading = Reading(negative: bool, digits: text, scale: nat)

  /** The place of the point, or the length. */
  function Point(t: text): (i: nat)
    ensures i <= |t| && (forall j :: 0 <= j < i ==> t[j] != '.' as int) && (i < |t| ==> t[i] == '.' as int)
  {
    if t == [] || t[0] == '.' as int then 0 else 1 + Point(t[1..])
  }

  /** Digits, and if there is a point more digits behind it. */
  function UnsignedIn(t: text): Option<(text, nat)>
  {
    var p := Point(t);
    if p == 0 || !AllDigits(t[..p]) then None
    else if p == |t| then Some((t, 0))
    else if p + 1 == |t| || !AllDigits(t[p + 1..]) then None
    else Some((t[..p] + t[p + 1..], |t| - p - 1))
  }

  function DecimalIn(t: text): Option<Reading>
  {
    var negative := t != [] && t[0] == '-' as int;
    match UnsignedIn(if negative then t[1..] else t)
    case None => None
    case Some((digits, scale)) => Some(Reading(negative, digits, scale))
  }

  lemma PointIs(t: text, p: nat)
    requires p <= |t| && AllDigits(t[..p]) && (p < |t| ==> t[p] == '.' as int)
    ensures Point(t) == p
  {
    assert forall j :: 0 <= j < p ==> t[j] == t[..p][j];
    hide Point;
  }

  lemma UnsignedReads(integer: text, fraction: text)
    requires AllDigits(integer) && integer != [] && AllDigits(fraction)
    ensures UnsignedIn(integer + if fraction != [] then ['.' as int] + fraction else []) == Some((integer + fraction, |fraction|))
  {
    var t := integer + if fraction != [] then ['.' as int] + fraction else [];
    var p := |integer|;
    assert t[..p] == integer;
    if fraction != [] { assert t[p + 1..] == fraction; } else { assert t == integer && integer + fraction == integer; }
    hide AllDigits;
    PointIs(t, p);
  }

  lemma SignedReads(integer: text, fraction: text, negative: bool)
    requires AllDigits(integer) && integer != [] && AllDigits(fraction)
    ensures DecimalIn((if negative then [45] else []) + integer + (if fraction != [] then [46] + fraction else []))
            == Some(Reading(negative, integer + fraction, |fraction|))
  {
    UnsignedReads(integer, fraction);
    assert IsDigit(integer[0]);
    hide UnsignedIn, AllDigits;
    var tail: text := if fraction != [] then [46] + fraction else [];
    if negative { assert ([45] + integer + tail)[1..] == integer + tail; } else { assert [] + integer + tail == integer + tail; }
  }

  /** The whole text is a decimal with the sign that was sent and `dscale` digits behind its point, none without
      a point; its digits are the digit sum in units of the last one, cut off. */
  lemma TextIsExact(ds: seq<nat>, weight: int, negative: bool, dscale: nat)
    requires ValidGroups(ds)
    ensures match DecimalIn(NumericText(ds, weight, negative, dscale))
            case None => false
            case Some(r) =>
              && r.negative == negative && r.scale == dscale
              && Value(r.digits) as real <= Times(Sum(ds, weight), Tens(dscale) as real) < (Value(r.digits) + 1) as real
  {
    NumericIsExact(ds, weight, dscale);
    SignedReads(IntegerText(ds, weight), FractionDigits(ds, weight, dscale), negative);
    hide Sum, Tens, Times, Value, IntegerText, FractionDigits, DecimalIn, ValidGroups, AllDigits;
    if dscale == 0 { assert FractionDigits(ds, weight, dscale) == []; }
  }

  // ---- the decoder ----

  /** An unsigned 16-bit number of the buffer. */
  function Word(b: seq<byte>, p: nat): nat
    requires p + 2 <= |b|
  {
    256 * (b[p] as int) + b[p + 1]
  }

  function Weight(n: nat): int
  {
    if n < 0x8000 then n else n - 0x10000
  }

  function GroupsAt(b: seq<byte>, p: nat, n: nat): (r: seq<nat>)
    requires p + 2 * n <= |b|
    ensures |r| == n && forall i :: 0 <= i < n ==> r[i] == Word(b, p + 2 * i)
  {
    seq(n, i requires 0 <= i < n => Word(b, p + 2 * i))
  }

  const NAN: text := ['N' as int, 'a' as int, 'N' as int]
  const INFINITE: text := ['I' as int, 'n' as int, 'f' as int, 'i' as int, 'n' as int, 'i' as int, 't' as int, 'y' as int]

  /** A whole binary numeric: count, weight, sign, scale, groups. */
  predicate WellFormed(b: seq<byte>)
  {
    && |b| >= 8 && 8 + 2 * Word(b, 0) <= |b|
    && ValidGroups(GroupsAt(b, 8, Word(b, 0)))
  }

  method BinNumericStr(b: seq<byte>) returns (s: text)
    requires WellFormed(b)
    ensures s == match Word(b, 4)
                 case 0xc000 => NAN
                 case 0xd000 => INFINITE
                 case 0xf000 => [45] + INFINITE
                 case sign => NumericText(GroupsAt(b, 8, Word(b, 0)), Weight(Word(b, 2)), sign == 0x4000, Word(b, 6))
  {
    var nd, weight, sign, dscale := Word(b, 0), Weight(Word(b, 2)), Word(b, 4), Word(b, 6);
    if sign == 0xc000 { return NAN; }
    if sign == 0xd000 { return INFINITE; }
    if sign == 0xf000 { return [45] + INFINITE; }
    ghost var ds := GroupsAt(b, 8, nd);
    hide IntegerText, FractionDigits, WellFormed;
    var integer := Integer(b, nd, weight, ds);
    var fraction: text := [];
    if dscale > 0 {
      fraction := Fraction(b, nd, weight, dscale, ds);
      fraction := [46] + fraction;
    }
    s := (if sign == 0x4000 then [45] else []) + integer + fraction;
  }

  method Integer(b: seq<byte>, nd: nat, weight: int, ghost ds: seq<nat>) returns (integer: text)
    requires 8 + 2 * nd <= |b| && ds == GroupsAt(b, 8, nd)
    ensures integer == IntegerText(ds, weight)
  {
    hide Pad, AllDigits;
    if weight < 0 || nd == 0 { return [48]; }
    integer := [];
    for i := 0 to weight + 1
      invariant integer == if i == 0 then [] else Pad(ds[0], 1) + MoreGroups(ds, 1, i - 1)
    {
      var d := if i < nd then Word(b, 8 + i * 2) else 0;
      assert d == Group(ds, i);
      if i == 0 {
        integer := integer + Pad(d, 1);
      } else {
        Assoc(Pad(ds[0], 1), MoreGroups(ds, 1, i - 1), Pad(d, 4));
        integer := integer + Pad(d, 4);
      }
    }
  }

  method Fraction(b: seq<byte>, nd: nat, weight: int, dscale: nat, ghost ds: seq<nat>) returns (fraction: text)
    requires 8 + 2 * nd <= |b| && ds == GroupsAt(b, 8, nd) && ValidGroups(ds)
    ensures fraction == FractionDigits(ds, weight, dscale)
  {
    hide Pad, AllDigits;
    var frac: text := [];
    var g := 0;
    while |frac| < dscale
      invariant frac == MoreGroups(ds, weight + 1, g) && |frac| == 4 * g && g <= GroupsFor(dscale)
      decreases dscale - |frac|
    {
      var i := weight + 1 + g;
      var d := if i >= 0 && i < nd then Word(b, 8 + i * 2) else 0;
      MoreGroupsLength(ds, weight + 1, g + 1);
      frac := frac + Pad(d, 4);
      g := g + 1;
    }
    fraction := frac[..dscale];
  }
}
