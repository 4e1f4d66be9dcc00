/** Temporal text as PostgreSQL and Date.toISOString print it, and the instant it names. */
module TemporalText {
  import opened Bytes
  import opened Calendar
  import opened Temporal

  /** The decimal digits of `n`, at least `w` of them. */
  function Pad(n: nat, w: nat): (r: text)
    ensures |r| >= w && forall i :: 0 <= i < |r| ==> IsDigit(r[i])
    decreases n, w
  {
    if n == 0 && w == 0 then [] else Pad(n / 10, if w == 0 then 0 else w - 1) + [48 + n % 10]
  }

  lemma {:induction false} PadValue(n: nat, w: nat)
    ensures Value(Pad(n, w)) == n
    decreases n, w
  {
    if n != 0 || w != 0 {
      var rest := Pad(n / 10, if w == 0 then 0 else w - 1);
      PadValue(n / 10, if w == 0 then 0 else w - 1);
      assert Pad(n, w)[..|rest|] == rest;
    }
  }

  lemma PadTwo(n: nat)
    requires n < 100
    ensures Pad(n, 2) == [48 + n / 10, 48 + n % 10]
  {
    assert n / 10 / 10 == 0;
    assert Pad(n / 10 / 10, 0) == [];
    assert Pad(n / 10, 1) == [48 + n / 10 % 10];
  }

  // ---- what is printed ----

  datatype Zone = Local | Zulu | Offset(west: bool, h: nat, rest: Option<Minutes>)
  datatype Minutes = Minutes(mi: nat, s: Option<nat>)

  /** `sep` is a space or a T; `frac`: the fraction digits, if any. */
  datatype TimeOfDay = TimeOfDay(sep: int, h: nat, mi: nat, s: nat, frac: text, zone: Zone)

  datatype Stamp = Stamp(year: nat, bc: bool, month: nat, date: nat, time: Option<TimeOfDay>)

  predicate ValidZone(z: Zone)
  {
    z.Offset? ==> z.h < 100 && (z.rest.Some? ==> z.rest.value.mi < 100 && (z.rest.value.s.Some? ==> z.rest.value.s.value < 100))
  }

  predicate ValidTime(c: TimeOfDay)
  {
    && (c.sep == 32 || c.sep == 84) && c.h < 100 && c.mi < 100 && c.s < 100
    && (forall i :: 0 <= i < |c.frac| ==> IsDigit(c.frac[i])) && ValidZone(c.zone)
  }

  predicate Valid(st: Stamp)
  {
    1 <= st.month <= 12 && 1 <= st.date <= 31 && (st.time.Some? ==> ValidTime(st.time.value))
  }

  function MinutesText(rest: Option<Minutes>): text
  {
    match rest
    case None => []
    case Some(m) => ([58] + Pad(m.mi, 2)) + (if m.s.Some? then [58] + Pad(m.s.value, 2) else [])
  }

  function ZoneText(z: Zone): text
  {
    match z
    case Local => []
    case Zulu => [90]
    case Offset(west, h, rest) =>
      ([if west then 45 else 43] + Pad(h, 2)) + MinutesText(rest)
  }

  function FractionText(frac: text): text
  {
    if frac == [] then [] else [46] + frac
  }

  function TimeText(c: TimeOfDay): text
  {
    ([c.sep] + Pad(c.h, 2) + [58] + Pad(c.mi, 2) + [58] + Pad(c.s, 2)) + (FractionText(c.frac) + ZoneText(c.zone))
  }

  function DateText(st: Stamp): text
  {
    Pad(st.year, 4) + ([45] + Pad(st.month, 2) + [45] + Pad(st.date, 2))
  }

  /** Year with 4 or more digits, month, date, time of day, and the era at the end. */
  function Print(st: Stamp): text
  {
    (DateText(st) + (if st.time.Some? then TimeText(st.time.value) else [])) + (if st.bc then [32, 66, 67] else [])
  }

  // ---- what it means ----

  function ZoneSeconds(z: Zone): int
  {
    if !z.Offset? then 0
    else
      var mi := if z.rest.Some? then z.rest.value.mi else 0;
      var s := if z.rest.Some? && z.rest.value.s.Some? then z.rest.value.s.value else 0;
      (if z.west then -1 else 1) * ((z.h * 60 + mi) * 60 + s)
  }

  /** The first three fraction digits as milliseconds. */
  function FracMs(frac: text): int
  {
    if frac == [] then 0 else Millis(frac)
  }

  function ClockOf(st: Stamp): Clock
  {
    if st.time.None? then Clock(0, 0, 0, 0, 0)
    else var c := st.time.value; Clock(c.h, c.mi, c.s, FracMs(c.frac), ZoneSeconds(c.zone))
  }

  /** The astronomical year: 1 BC is year 0. */
  function YearNumber(st: Stamp): int
  {
    if st.bc then 1 - st.year else st.year
  }

  /** The instant in the proleptic Gregorian calendar. */
  function TrueInstant(st: Stamp): int
  {
    var c := ClockOf(st);
    Instant(YearNumber(st), st.month - 1, st.date, c.h, c.mi, c.s - c.offset, c.ms)
  }

  // ---- reading back what was printed ----

  /** `s` stands in `t` at `p`. */
  ghost predicate At(t: text, p: nat, s: text)
  {
    p + |s| <= |t| && t[p..p + |s|] == s
  }

  lemma AtParts(t: text, p: nat, a: text, b: text)
    requires At(t, p, a + b)
    ensures At(t, p, a) && At(t, p + |a|, b)
  {
    assert t[p..p + |a| + |b|][..|a|] == a;
    assert t[p..p + |a| + |b|][|a|..] == b;
  }

  lemma AtTwo(t: text, p: nat, n: nat)
    requires n < 100 && At(t, p, Pad(n, 2))
    ensures |Pad(n, 2)| == 2 && Two(t, p) == n
  {
    PadTwo(n);
    assert t[p..p + 2][0] == t[p] && t[p..p + 2][1] == t[p + 1];
  }

  lemma AtOne(t: text, p: nat, c: int)
    requires At(t, p, [c])
    ensures t[p] == c
  {
    assert t[p..p + 1][0] == t[p];
  }

  lemma {:induction false} DigitsReach(t: text, p: nat, q: nat, e: nat)
    requires p <= q <= e <= |t| && (forall i :: p <= i < q ==> IsDigit(t[i])) && (q < e ==> !IsDigit(t[q]))
    ensures DigitsEnd(t, p, e) == q
    decreases q - p
  {
    if p < q { DigitsReach(t, p + 1, q, e); }
  }

  lemma ZoneReads(t: text, e: nat, p: nat, z: Zone)
    requires ValidZone(z) && e <= |t| && At(t, p, ZoneText(z)) && p + |ZoneText(z)| == e
    ensures ZonePart(t, e, p) == Some(ZoneSeconds(z))
    ensures p < e ==> !IsDigit(t[p]) && t[p] != 46
  {
    match z
    case Local =>
    case Zulu => AtOne(t, p, 90);
    case Offset(west, h, rest) =>
      OffsetReads(t, p, z);
  }

  lemma MinutesRead(t: text, p: nat, rest: Option<Minutes>)
    requires ValidZone(Offset(false, 0, rest)) && At(t, p, MinutesText(rest))
    ensures rest.Some? ==> t[p] == 58 && Two(t, p + 1) == rest.value.mi
    ensures rest.Some? && rest.value.s.Some? ==> t[p + 3] == 58 && Two(t, p + 4) == rest.value.s.value
    ensures |MinutesText(rest)| == if rest.None? then 0 else if rest.value.s.None? then 3 else 6
  {
    hide Two, Pad;
    if rest.Some? {
      var m := rest.value;
      AtParts(t, p, [58] + Pad(m.mi, 2), if m.s.Some? then [58] + Pad(m.s.value, 2) else []);
      AtParts(t, p, [58], Pad(m.mi, 2));
      AtOne(t, p, 58);
      AtTwo(t, p + 1, m.mi);
      if m.s.Some? {
        AtParts(t, p + 3, [58], Pad(m.s.value, 2));
        AtOne(t, p + 3, 58);
        AtTwo(t, p + 4, m.s.value);
      }
    }
  }

  lemma OffsetReads(t: text, p: nat, z: Zone)
    requires ValidZone(z) && z.Offset? && At(t, p, ZoneText(z))
    ensures ZonePart(t, p + |ZoneText(z)|, p) == Some(ZoneSeconds(z))
    ensures t[p] == 45 || t[p] == 43
  {
    hide Two, Pad, MinutesText;
    var sign: text := [if z.west then 45 else 43];
    AtParts(t, p, sign + Pad(z.h, 2), MinutesText(z.rest));
    AtParts(t, p, sign, Pad(z.h, 2));
    AtOne(t, p, sign[0]);
    AtTwo(t, p + 1, z.h);
    MinutesRead(t, p + 3, z.rest);
  }

  lemma FractionReads(t: text, e: nat, p: nat, frac: text)
    requires e <= |t| && (forall i :: 0 <= i < |frac| ==> IsDigit(frac[i])) && At(t, p, FractionText(frac))
    requires p + |FractionText(frac)| <= e
    requires p + |FractionText(frac)| < e ==> !IsDigit(t[p + |FractionText(frac)|]) && t[p + |FractionText(frac)|] != 46
    ensures FractionEnd(t, e, p) == p + |FractionText(frac)| && FractionMs(t, e, p) == FracMs(frac)
  {
    hide Millis;
    if frac != [] {
      AtParts(t, p, [46], frac);
      AtOne(t, p, 46);
      var q := p + 1 + |frac|;
      assert t[p + 1..q] == frac;
      forall i | p + 1 <= i < q ensures IsDigit(t[i]) { assert t[i] == t[p + 1..q][i - p - 1] == frac[i - p - 1]; }
      DigitsReach(t, p + 1, q, e);
    }
  }

  lemma TimeReads(t: text, e: nat, p: nat, c: TimeOfDay)
    requires ValidTime(c) && e <= |t| && At(t, p, TimeText(c)) && p + |TimeText(c)| == e
    ensures ClockPart(t, e, p) == Some(Clock(c.h, c.mi, c.s, FracMs(c.frac), ZoneSeconds(c.zone)))
    ensures p < e && (t[p] == 32 || t[p] == 84)
  {
    hide ZoneText, FractionText, ZonePart, FractionMs, FractionEnd, Pad, ZoneSeconds, FracMs, Two;
    var tail := FractionText(c.frac) + ZoneText(c.zone);
    TimeHead(t, p, c, tail);
    AtParts(t, p + 9, FractionText(c.frac), ZoneText(c.zone));
    ZoneReads(t, e, p + 9 + |FractionText(c.frac)|, c.zone);
    FractionReads(t, e, p + 9, c.frac);
  }

  lemma TimeHead(t: text, p: nat, c: TimeOfDay, tail: text)
    requires ValidTime(c) && At(t, p, ([c.sep] + Pad(c.h, 2) + [58] + Pad(c.mi, 2) + [58] + Pad(c.s, 2)) + tail)
    ensures p + 9 <= |t| && t[p] == c.sep && t[p + 3] == 58 && t[p + 6] == 58 && At(t, p + 9, tail)
    ensures Two(t, p + 1) == c.h && Two(t, p + 4) == c.mi && Two(t, p + 7) == c.s
    ensures |[c.sep] + Pad(c.h, 2) + [58] + Pad(c.mi, 2) + [58] + Pad(c.s, 2)| == 9
  {
    PadTwo(c.h);
    PadTwo(c.mi);
    PadTwo(c.s);
    hide Pad;
    var head: text := [c.sep, 48 + c.h / 10, 48 + c.h % 10, 58, 48 + c.mi / 10, 48 + c.mi % 10, 58, 48 + c.s / 10, 48 + c.s % 10];
    assert [c.sep] + Pad(c.h, 2) + [58] + Pad(c.mi, 2) + [58] + Pad(c.s, 2) == head;
    AtParts(t, p, head, tail);
    forall i | 0 <= i < 9 ensures t[p + i] == head[i] { assert t[p..p + 9][i] == head[i]; }
    assert t[p] == head[0] && t[p + 1] == head[1] && t[p + 2] == head[2] && t[p + 3] == head[3] && t[p + 4] == head[4];
    assert t[p + 5] == head[5] && t[p + 6] == head[6] && t[p + 7] == head[7] && t[p + 8] == head[8];
  }

  lemma DateReads(t: text, e: nat, st: Stamp)
    requires Valid(st) && e <= |t| && At(t, 0, DateText(st)) && |DateText(st)| <= e
    ensures var q := DigitsEnd(t, 0, e);
            && q + 6 == |DateText(st)| && q >= 4 && t[q] == 45 && t[q + 3] == 45 && Value(t[..q]) == st.year
            && Two(t, q + 1) == st.month && Two(t, q + 4) == st.date
  {
    hide Two, Value;
    var q := |Pad(st.year, 4)|;
    var rest: text := [45] + Pad(st.month, 2) + [45] + Pad(st.date, 2);
    AtParts(t, 0, Pad(st.year, 4), rest);
    assert t[0..q] == t[..q];
    PadValue(st.year, 4);
    AtParts(t, q, [45] + Pad(st.month, 2) + [45], Pad(st.date, 2));
    AtParts(t, q, [45] + Pad(st.month, 2), [45]);
    AtParts(t, q, [45], Pad(st.month, 2));
    AtOne(t, q, 45);
    AtTwo(t, q + 1, st.month);
    AtOne(t, q + 3, 45);
    AtTwo(t, q + 4, st.date);
    forall i | 0 <= i < q ensures IsDigit(t[i]) { assert t[i] == t[0..q][i]; }
    DigitsReach(t, 0, q, e);
  }

  /** The era is recognised exactly where it was printed: no other text ends in a C. */
  lemma EraReads(st: Stamp)
    requires Valid(st)
    ensures EndsBc(Print(st)) == st.bc
  {
    var body := DateText(st) + (if st.time.Some? then TimeText(st.time.value) else []);
    if !st.bc {
      assert Print(st) == body;
      LastIsNotC(st);
    } else {
      assert Print(st) == body + [32, 66, 67];
    }
  }

  lemma LastIsNotC(st: Stamp)
    requires Valid(st)
    ensures var body := DateText(st) + (if st.time.Some? then TimeText(st.time.value) else []); body[|body| - 1] != 67
  {
    PadTwo(st.date);
    if st.time.Some? {
      var c := st.time.value;
      PadTwo(c.s);
      LastOfZone(c);
    }
  }

  lemma LastOfZone(c: TimeOfDay)
    requires ValidTime(c)
    ensures var r := TimeText(c); r[|r| - 1] != 67
  {
    var head := [c.sep] + Pad(c.h, 2) + [58] + Pad(c.mi, 2) + [58] + Pad(c.s, 2);
    var z := ZoneText(c.zone);
    if z == [] {
      assert FractionText(c.frac) + z == FractionText(c.frac);
      if c.frac == [] {
        assert TimeText(c) == head;
        assert head[|head| - 1] == Pad(c.s, 2)[|Pad(c.s, 2)| - 1];
      } else {
        assert TimeText(c)[|TimeText(c)| - 1] == c.frac[|c.frac| - 1];
      }
    } else {
      assert TimeText(c)[|TimeText(c)| - 1] == z[|z| - 1];
    }
  }

  /** Fields of a year 0 to 99, and the same 400 years later, are inside the range of a Date. */
  lemma EarlyYearsInRange(y: int, month: int, date: int, h: int, mi: int, s: int, ms: int)
    requires 0 <= y <= 99 && 0 <= month <= 11 && 1 <= date <= 31 && 0 <= h < 100 && 0 <= mi < 100 && -1000000 < s < 1000000 && 0 <= ms < 1000
    ensures var t := Instant(y, month, date, h, mi, s, ms); -MAX_TIME <= t <= t + 12622780800000 <= MAX_TIME
  {
    SmallMonth(month);
    YearBounds(y);
    hide DayFromYear, Leap;
  }

  /** Despite the remap of years 0 to 99 in Date.UTC, the parser computes the true instant. */
  lemma UtcIsTrue(y: int, month: int, date: int, c: Clock)
    requires 1 <= month <= 12 && 1 <= date <= 31 && 0 <= c.h < 100 && 0 <= c.mi < 100 && -1000000 < c.s - c.offset < 1000000 && 0 <= c.ms < 1000
    ensures var t := Instant(y, month - 1, date, c.h, c.mi, c.s - c.offset, c.ms);
            Utc(y, month, date, c) == if -MAX_TIME <= t <= MAX_TIME then Ms(t) else NaN
  {
    hide Instant;
    if 0 <= y <= 99 {
      EarlyYearsInRange(y, month - 1, date, c.h, c.mi, c.s - c.offset, c.ms);
      InstantFourCenturies(y, month - 1, date, c.h, c.mi, c.s - c.offset, c.ms);
    }
  }

  lemma MillisBounds(frac: text)
    requires forall i :: 0 <= i < |frac| ==> IsDigit(frac[i])
    ensures 0 <= FracMs(frac) < 1000
  {
    var d := (frac + [48, 48, 48])[..3];
    assert IsDigit(d[0]) && IsDigit(d[1]) && IsDigit(d[2]);
    assert d[..2][..1] == d[..1] && d[..1][..0] == [];
    assert Value(d[..1]) == d[0] - 48;
    assert Value(d[..2]) == (d[0] - 48) * 10 + (d[1] - 48);
  }

  lemma ZoneBounds(z: Zone)
    requires ValidZone(z)
    ensures -366039 <= ZoneSeconds(z) <= 366039
  {
  }

  function Body(st: Stamp): text
  {
    DateText(st) + (if st.time.Some? then TimeText(st.time.value) else [])
  }

  lemma BodyReads(st: Stamp, t: text)
    requires Valid(st) && At(t, 0, Body(st))
    ensures At(t, 0, DateText(st)) && |DateText(st)| <= |Body(st)|
    ensures ClockPart(t, |Body(st)|, |DateText(st)|) == Some(ClockOf(st))
  {
    hide TimeText, DateText, FracMs, ZoneSeconds;
    AtParts(t, 0, DateText(st), if st.time.Some? then TimeText(st.time.value) else []);
    if st.time.Some? { TimeReads(t, |Body(st)|, |DateText(st)|, st.time.value); }
  }

  lemma ClockBounds(st: Stamp)
    requires Valid(st)
    ensures var c := ClockOf(st); 0 <= c.h < 100 && 0 <= c.mi < 100 && -1000000 < c.s - c.offset < 1000000 && 0 <= c.ms < 1000
  {
    if st.time.Some? {
      MillisBounds(st.time.value.frac);
      ZoneBounds(st.time.value.zone);
    }
  }

  lemma PrintedFields(st: Stamp)
    requires Valid(st)
    ensures Parse(Print(st)) == Utc(YearNumber(st), st.month, st.date, ClockOf(st))
  {
    hide Utc, EndsBc, ClockPart, DigitsEnd, Two, Value, ClockOf, Body, DateText, Valid, Print, At;
    var t := Print(st);
    PrintedShape(st);
    BodyReads(st, t);
    DateReads(t, |Body(st)|, st);
    var q := DigitsEnd(t, 0, |Body(st)|);
    assert |Body(st)| - q >= 6 && ClockPart(t, |Body(st)|, q + 6) == Some(ClockOf(st));
  }

  /** Every date text that the server prints, years 0 to 99 and BC included, is read as the true proleptic
      Gregorian instant; one outside the range of a Date gives NaN. */
  lemma PrintedParses(st: Stamp)
    requires Valid(st)
    ensures var t := TrueInstant(st); Parse(Print(st)) == if -MAX_TIME <= t <= MAX_TIME then Ms(t) else NaN
  {
    hide Utc, Instant, ClockOf, Valid, Print, Parse;
    PrintedFields(st);
    ClockBounds(st);
    Months(st);
    UtcIsTrue(YearNumber(st), st.month, st.date, ClockOf(st));
  }

  lemma Months(st: Stamp)
    requires Valid(st)
    ensures 1 <= st.month <= 12 && 1 <= st.date <= 31
  {
  }

  lemma PrintedShape(st: Stamp)
    requires Valid(st)
    ensures EndsBc(Print(st)) == st.bc && At(Print(st), 0, Body(st))
    ensures |Print(st)| == |Body(st)| + if st.bc then 3 else 0
  {
    hide TimeText, DateText, EndsBc;
    EraReads(st);
    assert Print(st)[0..|Body(st)|] == Body(st);
  }

  // ---- toISOString ----

  function IsoStamp(f: Fields): Stamp
    requires 0 <= f.year && 0 <= f.month && 0 <= f.date && 0 <= f.h && 0 <= f.mi && 0 <= f.s && 0 <= f.ms
  {
    Stamp(f.year, false, f.month + 1, f.date,
          Some(TimeOfDay(84, f.h, f.mi, f.s, [48 + f.ms / 100, 48 + f.ms / 10 % 10, 48 + f.ms % 10], Zulu)))
  }

  /** The ISO text of an instant; years outside 0 to 9999 have a sign and six digits. */
  function Iso(t: int): text
  {
    var f := FieldsOf(t);
    if 0 <= f.year <= 9999 then Print(IsoStamp(f))
    else [if f.year < 0 then 45 else 43] + Pad(if f.year < 0 then -f.year else f.year, 6) + Print(IsoStamp(f.(year := 0)))[4..]
  }

  lemma IsoMillis(ms: int)
    requires 0 <= ms < 1000
    ensures FracMs([48 + ms / 100, 48 + ms / 10 % 10, 48 + ms % 10]) == ms
  {
    var d: text := [48 + ms / 100, 48 + ms / 10 % 10, 48 + ms % 10];
    assert (d + [48, 48, 48])[..3] == d;
    assert d[..2][..1] == d[..1] && d[..1][..0] == [];
    assert Value(d[..1]) == ms / 100;
    assert Value(d[..2]) == ms / 100 * 10 + ms / 10 % 10;
    assert ms / 100 == ms / 10 / 10;
  }

  /** The ISO text of every Date in years 0 to 9999 is read back to the same millisecond. */
  lemma IsoRoundTrip(t: int)
    requires -MAX_TIME <= t <= MAX_TIME && 0 <= FieldsOf(t).year <= 9999
    ensures !StartsInfinite(Iso(t)) && Parse(Iso(t)) == Ms(t)
  {
    hide FieldsOf, Instant, Print, FracMs, Parse;
    var f := FieldsOf(t);
    FieldsName(t);
    IsoMillis(f.ms);
    PrintedParses(IsoStamp(f));
    assert TrueInstant(IsoStamp(f)) == t;
    FirstIsDigit(IsoStamp(f));
  }

  lemma FirstIsDigit(st: Stamp)
    ensures Print(st) != [] && IsDigit(Print(st)[0])
  {
    assert Print(st)[0] == Pad(st.year, 4)[0];
  }

  /** Digits, separators and capital letters: no quote and no backslash. */
  predicate IsPlain(t: text)
  {
    forall i :: 0 <= i < |t| ==> 40 <= t[i] < 91
  }

  lemma IsoIsPlain(t: int)
    ensures IsPlain(Iso(t))
  {
    hide FieldsOf;
    var f := FieldsOf(t);
    StampIsPlain(f);
    StampIsPlain(f.(year := 0));
  }

  lemma StampIsPlain(f: Fields)
    requires 0 <= f.month < 12 && 1 <= f.date <= 31 && 0 <= f.h < 24 && 0 <= f.mi < 60 && 0 <= f.s < 60 && 0 <= f.ms < 1000
    ensures f.year >= 0 ==> IsPlain(Print(IsoStamp(f))) && |Print(IsoStamp(f))| >= 4
  {
    if f.year >= 0 {
      var st := IsoStamp(f);
      assert IsPlain(DateText(st));
      assert IsPlain(TimeText(st.time.value));
    }
  }

  // ---- reading it ----

  /** The signs between the fields that follow a year of `n` characters. */
  predicate Signs(t: text, n: nat)
    requires |t| == n + 20
  {
    && t[n] == '-' as int && t[n + 3] == '-' as int && t[n + 6] == 'T' as int && t[n + 9] == ':' as int && t[n + 12] == ':' as int
    && t[n + 15] == '.' as int && t[n + 19] == 'Z' as int
  }

  function YearWidth(t: text): nat
  {
    if t != [] && (t[0] == '+' as int || t[0] == '-' as int) then 7 else 4
  }

  function YearIn(t: text): int
    requires |t| >= YearWidth(t)
  {
    if YearWidth(t) == 4 then Value(t[..4]) else if t[0] == '-' as int then -Value(t[1..7]) else Value(t[1..7])
  }

  /** The instant that a date-time of ECMA-262, section 21.4.1.32, names: four digits of the year, or a sign and
      six. */
  function IsoIn(t: text): Option<int>
  {
    var n := YearWidth(t);
    if |t| != n + 20 || !Signs(t, n) then None
    else
      Some(Instant(YearIn(t), Two(t, n + 1) - 1, Two(t, n + 4), Two(t, n + 7), Two(t, n + 10), Two(t, n + 13), Value(t[n + 16..n + 19])))
  }

  function YearText(y: int): text
  {
    if 0 <= y <= 9999 then Pad(y, 4) else [if y < 0 then 45 else 43] + Pad(if y < 0 then -y else y, 6)
  }

  function TwoText(sign: int, n: int): text
  {
    [sign, 48 + n / 10, 48 + n % 10]
  }

  /** What follows the year. */
  function RestText(f: Fields): (r: text)
    ensures |r| == 20
  {
    TwoText(45, f.month + 1) + TwoText(45, f.date) + DayText(f)
  }

  predicate InRange(f: Fields)
  {
    0 <= f.month < 12 && 1 <= f.date <= 31 && 0 <= f.h < 24 && 0 <= f.mi < 60 && 0 <= f.s < 60 && 0 <= f.ms < 1000
  }

  /** The time of day and its Z. */
  function DayText(f: Fields): text
  {
    TwoText(84, f.h) + TwoText(58, f.mi) + TwoText(58, f.s) + [46, 48 + f.ms / 100, 48 + f.ms / 10 % 10, 48 + f.ms % 10, 90]
  }

  lemma TimeOfStamp(f: Fields)
    requires InRange(f) && f.year >= 0
    ensures TimeText(IsoStamp(f).time.value) == DayText(f)
  {
    PadTwo(f.h);
    PadTwo(f.mi);
    PadTwo(f.s);
    hide Pad;
  }

  lemma StampText(f: Fields)
    requires InRange(f) && f.year >= 0
    ensures Print(IsoStamp(f)) == Pad(f.year, 4) + RestText(f)
  {
    PadTwo(f.month + 1);
    PadTwo(f.date);
    TimeOfStamp(f);
    hide Pad, TimeText;
    var date: text := [45] + Pad(f.month + 1, 2) + [45] + Pad(f.date, 2);
    assert date == TwoText(45, f.month + 1) + TwoText(45, f.date);
    assert DateText(IsoStamp(f)) == Pad(f.year, 4) + date;
    hide TwoText, DayText, DateText;
    Assoc(Pad(f.year, 4), date, DayText(f));
    assert Print(IsoStamp(f)) == DateText(IsoStamp(f)) + DayText(f);
  }

  /** A Date's year has six digits at most. */
  lemma YearFits(t: int)
    requires -MAX_TIME <= t <= MAX_TIME
    ensures -999999 <= FieldsOf(t).year <= 999999
  {
    var y := FieldsOf(t).year;
    YearBounds(y);
    YearBounds(y + 1);
  }

  lemma {:induction false} PadLength(n: nat, w: nat, m: nat)
    requires w > 0 && n < m && m == Power(w)
    ensures |Pad(n, w)| == w
    decreases w
  {
    if w == 1 { assert n / 10 == 0 && Pad(0, 0) == []; } else { PadLength(n / 10, w - 1, Power(w - 1)); }
  }

  function Power(w: nat): nat
  {
    if w == 0 then 1 else 10 * Power(w - 1)
  }

  lemma IsoParts(t: int)
    requires -MAX_TIME <= t <= MAX_TIME
    ensures Iso(t) == YearText(FieldsOf(t).year) + RestText(FieldsOf(t))
    ensures |YearText(FieldsOf(t).year)| == if 0 <= FieldsOf(t).year <= 9999 then 4 else 7
  {
    var f := FieldsOf(t);
    YearFits(t);
    assert Power(6) == 1000000 && Power(4) == 10000 by { assert Power(3) == 1000; }
    hide FieldsOf, RestText, Pad, Power;
    if 0 <= f.year <= 9999 {
      StampText(f);
      PadLength(f.year, 4, 10000);
    } else {
      PadLength(if f.year < 0 then -f.year else f.year, 6, 1000000);
      StampText(f.(year := 0));
      PadLength(0, 4, 10000);
      assert RestText(f.(year := 0)) == RestText(f) by { SameRest(f); }
      assert (Pad(0, 4) + RestText(f))[4..] == RestText(f);
    }
  }

  lemma SameRest(f: Fields)
    ensures RestText(f.(year := 0)) == RestText(f)
  {
  }

  lemma RestReads(year: text, f: Fields)
    requires InRange(f)
    ensures var t := year + RestText(f); var n := |year|;
            && Signs(t, n) && Two(t, n + 1) == f.month + 1 && Two(t, n + 4) == f.date && Two(t, n + 7) == f.h
            && Two(t, n + 10) == f.mi && Two(t, n + 13) == f.s && Value(t[n + 16..n + 19]) == f.ms
  {
    var t, n := year + RestText(f), |year|;
    var r := RestText(f);
    assert forall i :: 0 <= i < 20 ==> t[n + i] == r[i];
    var d: text := t[n + 16..n + 19];
    assert d == [48 + f.ms / 100, 48 + f.ms / 10 % 10, 48 + f.ms % 10];
    MillisValue(f.ms);
    assert r[0] == 45 && r[1] == 48 + (f.month + 1) / 10 && r[2] == 48 + (f.month + 1) % 10;
    assert r[3] == 45 && r[4] == 48 + f.date / 10 && r[5] == 48 + f.date % 10;
    assert r[6] == 84 && r[7] == 48 + f.h / 10 && r[8] == 48 + f.h % 10;
    assert r[9] == 58 && r[10] == 48 + f.mi / 10 && r[11] == 48 + f.mi % 10;
    assert r[12] == 58 && r[13] == 48 + f.s / 10 && r[14] == 48 + f.s % 10;
    assert r[15] == 46 && r[19] == 90;
  }

  lemma MillisValue(ms: int)
    requires 0 <= ms < 1000
    ensures Value([48 + ms / 100, 48 + ms / 10 % 10, 48 + ms % 10]) == ms
  {
    IsoMillis(ms);
    var d: text := [48 + ms / 100, 48 + ms / 10 % 10, 48 + ms % 10];
    assert d[..2][..1] == d[..1] && d[..1][..0] == [];
    assert Value(d[..1]) == ms / 100;
    assert Value(d[..2]) == ms / 100 * 10 + ms / 10 % 10;
    assert ms / 100 == ms / 10 / 10;
  }

  lemma YearReads(y: int, rest: text)
    requires -999999 <= y <= 999999
    ensures var t := YearText(y) + rest; YearWidth(t) == |YearText(y)| && YearIn(t) == y
  {
    var t := YearText(y) + rest;
    var m := if y < 0 then -y else y;
    assert Power(6) == 1000000 && Power(4) == 10000 by { assert Power(3) == 1000; }
    if 0 <= y <= 9999 {
      PadValue(y, 4);
      PadLength(y, 4, 10000);
      assert t[..4] == Pad(y, 4) && IsDigit(t[0]);
    } else {
      PadValue(m, 6);
      PadLength(m, 6, 1000000);
      assert t[1..7] == Pad(m, 6);
    }
  }

  /** The ISO text of every Date, in any year of its range, names its instant. */
  lemma IsoReads(t: int)
    requires -MAX_TIME <= t <= MAX_TIME
    ensures IsoIn(Iso(t)) == Some(t)
  {
    hide Instant, FieldsOf, Two, Value, Pad, RestText, Iso, YearIn, YearText, Signs, YearWidth;
    var f := FieldsOf(t);
    IsoParts(t);
    FieldsName(t);
    YearFits(t);
    YearReads(f.year, RestText(f));
    RestReads(YearText(f.year), f);
  }
}
