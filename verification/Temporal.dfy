/** PostgreSQL's ISO temporal text read as an instant, by the byte parser and by the string parser. */
module Temporal {
  import opened Bytes
  import opened Calendar

  /** Character codes. */
  type text = seq<int>

  /** Not temporal text; an infinity or an instant out of range; milliseconds since 1970. */
  datatype Parsed = NotText | NaN | Ms(t: int)

  predicate IsDigit(c: int)
  {
    48 <= c <= 57
  }

  function Value(ds: text): int
  {
    if ds == [] then 0 else Value(ds[..|ds| - 1]) * 10 + (ds[|ds| - 1] - 48)
  }

  /** The end of the digits that start at `p`, not past `e`. */
  function DigitsEnd(t: text, p: nat, e: nat): (q: nat)
    requires p <= e <= |t|
    ensures p <= q <= e && (forall i :: p <= i < q ==> IsDigit(t[i])) && (q < e ==> !IsDigit(t[q]))
    decreases e - p
  {
    if p < e && IsDigit(t[p]) then DigitsEnd(t, p + 1, e) else p
  }

  /** Two characters as a number, whatever they are. */
  function Two(t: text, p: nat): int
    requires p + 2 <= |t|
  {
    (t[p] - 48) * 10 + (t[p + 1] - 48)
  }

  /** Three fraction digits; more are cut off, fewer filled up. */
  function Millis(ds: text): int
  {
    Value((ds + [48, 48, 48])[..3])
  }

  datatype Clock = Clock(h: int, mi: int, s: int, ms: int, offset: int)

  /** The zone at `p`, in seconds, if it ends at `e`. */
  function ZonePart(t: text, e: nat, p: nat): Option<int>
    requires p <= e <= |t|
  {
    if p == e then Some(0)
    else if t[p] == 90 then (if p + 1 == e then Some(0) else None)
    else if t[p] != 43 && t[p] != 45 then None
    else if p + 3 > e then None
    else
      var sg := if t[p] == 45 then -1 else 1;
      var th := Two(t, p + 1);
      if p + 3 == e then Some(sg * (th * 60 * 60))
      else if t[p + 3] != 58 || p + 6 > e then None
      else
        var tm := Two(t, p + 4);
        if p + 6 == e then Some(sg * ((th * 60 + tm) * 60))
        else if t[p + 6] != 58 || p + 9 != e then None
        else Some(sg * ((th * 60 + tm) * 60 + Two(t, p + 7)))
  }

  function FractionEnd(t: text, e: nat, p: nat): (q: nat)
    requires p <= e <= |t|
    ensures p <= q <= e
  {
    if p < e && t[p] == 46 then DigitsEnd(t, p + 1, e) else p
  }

  function FractionMs(t: text, e: nat, p: nat): int
    requires p <= e <= |t|
  {
    if p < e && t[p] == 46 then Millis(t[p + 1..DigitsEnd(t, p + 1, e)]) else 0
  }

  /** What follows the date. */
  function ClockPart(t: text, e: nat, p: nat): Option<Clock>
    requires p <= e <= |t|
  {
    if p == e then Some(Clock(0, 0, 0, 0, 0))
    else if t[p] != 32 && t[p] != 84 then None
    else if e - p < 9 || t[p + 3] != 58 || t[p + 6] != 58 then None
    else
      match ZonePart(t, e, FractionEnd(t, e, p + 9))
      case None => None
      case Some(offset) => Some(Clock(Two(t, p + 1), Two(t, p + 4), Two(t, p + 7), FractionMs(t, e, p + 9), offset))
  }

  predicate EndsBc(t: text)
  {
    |t| >= 3 && t[|t| - 1] == 67 && t[|t| - 2] == 66 && t[|t| - 3] == 32
  }

  /** The instant of the fields: years 0 to 99 are computed 400 years later. */
  function Utc(y: int, month: int, date: int, c: Clock): Parsed
  {
    var sh := if 0 <= y <= 99 then 400 else 0;
    match DateUtc(y + sh, month - 1, date, c.h, c.mi, c.s - c.offset, c.ms)
    case None => NaN
    case Some(t) => Ms(if sh != 0 then t - 12622780800000 else t)
  }

  function Parse(t: text): Parsed
  {
    var bc := EndsBc(t);
    var e := if bc then |t| - 3 else |t|;
    var q := DigitsEnd(t, 0, e);
    if q < 4 || e - q < 6 || t[q] != 45 || t[q + 3] != 45 then NotText
    else
      match ClockPart(t, e, q + 6)
      case None => NotText
      case Some(c) => Utc(if bc then 1 - Value(t[..q]) else Value(t[..q]), Two(t, q + 1), Two(t, q + 4), c)
  }

  const INFINITY: text := ['i' as int, 'n' as int, 'f' as int, 'i' as int, 'n' as int, 'i' as int, 't' as int, 'y' as int]

  predicate StartsInfinite(t: text)
  {
    (|t| > 0 && t[0] == 105) || (|t| > 1 && t[0] == 45 && t[1] == 105)
  }

  /** A cell outside the buffer reads as a number that equals no character code. */
  function Cell(b: text, p: int): int
  {
    if 0 <= p < |b| then b[p] else -1
  }

  // ---- the two parsers ----

  /** The part of the buffer that is the text. */
  ghost predicate Window(b: text, o: nat, t: text, e: nat)
  {
    o <= e <= |b| && e - o <= |t| && forall i :: o <= i < e ==> b[i] == t[i - o]
  }

  lemma {:induction false} DigitsEndWindow(b: text, o: nat, t: text, p: nat, e: nat)
    requires Window(b, o, t, e) && o <= p <= e
    ensures DigitsEnd(b, p, e) == o + DigitsEnd(t, p - o, e - o)
    decreases e - p
  {
    if p < e && IsDigit(b[p]) { DigitsEndWindow(b, o, t, p + 1, e); }
  }

  method ReadDigits(b: text, start: nat, e: nat) returns (y: int, p: nat)
    requires start <= e <= |b|
    ensures p == DigitsEnd(b, start, e) && y == Value(b[start..p])
  {
    y, p := 0, start;
    while p < e
      invariant start <= p <= e && y == Value(b[start..p]) && DigitsEnd(b, start, e) == DigitsEnd(b, p, e)
    {
      if b[p] < 48 || b[p] > 57 { return; }
      assert b[start..p + 1][..p - start] == b[start..p];
      y := y * 10 + (b[p] - 48);
      p := p + 1;
    }
  }

  lemma PadDigit(ds: text)
    ensures Value(ds + [48]) == Value(ds) * 10
  {
    assert (ds + [48])[..|ds|] == ds;
  }

  method FillUp(f: int, k: nat, ghost ds: text) returns (ms: int)
    requires k == |ds| <= 3 && f == Value(ds)
    ensures ms == Value((ds + [48, 48, 48])[..3])
  {
    ms := f;
    var j := k;
    ghost var filled := ds;
    while j < 3
      invariant k <= j <= 3 && |filled| == j && ms == Value(filled)
      invariant filled == (ds + [48, 48, 48])[..j]
    {
      PadDigit(filled);
      ms, j, filled := ms * 10, j + 1, filled + [48];
    }
  }

  /** Up to three fraction digits, filled up with zeros; the rest is skipped. */
  method ReadFraction(b: text, start: nat, e: nat) returns (f: int, p: nat)
    requires start <= e <= |b|
    ensures p == DigitsEnd(b, start, e) && f == Millis(b[start..p])
  {
    f, p := 0, start;
    var k := 0;
    ghost var end := DigitsEnd(b, start, e);
    while p < e && k < 3
      invariant start <= p <= end && k == p - start && k <= 3 && f == Value(b[start..p]) && DigitsEnd(b, p, e) == end
    {
      if b[p] < 48 || b[p] > 57 { break; }
      assert b[start..p + 1][..p - start] == b[start..p];
      f, k, p := f * 10 + (b[p] - 48), k + 1, p + 1;
    }
    hide Value;
    f := FillUp(f, k, b[start..p]);
    assert (b[start..p] + [48, 48, 48])[..3] == (b[start..end] + [48, 48, 48])[..3];
    while p < e
      invariant start <= p <= end && DigitsEnd(b, p, e) == end
    {
      if b[p] < 48 || b[p] > 57 { return; }
      p := p + 1;
    }
  }

  /** What the two parsers share: all but the test for an infinity. A cell read outside the window is
      never used, because the cursor has then passed the end. */
  method ReadInstant(b: text, o: nat, l: nat) returns (r: Parsed)
    requires o + l <= |b|
    ensures r == Parse(b[o..o + l])
  {
    hide Utc, Value, Two, ClockPart;
    ghost var t := b[o..o + l];
    var e := o + l;
    assert Window(b, o, t, e);
    assert l >= 3 ==> b[e - 1] == t[l - 1] && b[e - 2] == t[l - 2] && b[e - 3] == t[l - 3];
    var bc := false;
    if e - o >= 3 && Cell(b, e - 1) == 67 && Cell(b, e - 2) == 66 && Cell(b, e - 3) == 32 { bc, e := true, e - 3; }
    assert bc == EndsBc(t) && e - o == if EndsBc(t) then |t| - 3 else |t|;
    assert Window(b, o, t, e);
    var ok, y, month, date, p := ReadDate(b, o, t, e);
    if !ok { return NotText; }
    var c;
    ok, c, p := ReadClock(b, o, t, p, e);
    if !ok || p != e { return NotText; }
    var yy := if bc then 1 - y else y;
    r := Utc(yy, month, date, c);
  }

  method ReadDate(b: text, o: nat, ghost t: text, e: nat) returns (ok: bool, y: int, month: int, date: int, p: nat)
    requires Window(b, o, t, e)
    ensures var q := DigitsEnd(t, 0, e - o);
            && ok == (q >= 4 && e - o - q >= 6 && t[q] == 45 && t[q + 3] == 45)
            && (ok ==> o <= p <= e && p - o == q + 6 && y == Value(t[..q]) && month == Two(t, q + 1) && date == Two(t, q + 4))
  {
    hide Value;
    DigitsEndWindow(b, o, t, o, e);
    y, p := ReadDigits(b, o, e);
    ghost var q := p - o;
    assert b[o..p] == t[..q];
    if p - o < 4 || Cell(b, p) != 45 || Cell(b, p + 3) != 45 || e - p < 6 { return false, 0, 0, 0, p; }
    p := p + 1;
    month := (Cell(b, p) - 48) * 10 + (Cell(b, p + 1) - 48);
    p := p + 3;
    date := (Cell(b, p) - 48) * 10 + (Cell(b, p + 1) - 48);
    p := p + 2;
    ok := true;
  }

  /** The clock, the fraction and the zone; `p` passes `e` if the text ends too early. */
  method ReadClock(b: text, ghost o: nat, ghost t: text, start: nat, e: nat) returns (ok: bool, c: Clock, p: nat)
    requires Window(b, o, t, e) && o <= start <= e
    ensures ClockPart(t, e - o, start - o) == if ok && p == e then Some(c) else None
  {
    hide ZonePart, FractionEnd, FractionMs;
    p := start;
    c := Clock(0, 0, 0, 0, 0);
    if p < e && (Cell(b, p) == 32 || Cell(b, p) == 84) {
      p := p + 1;
      if e - p < 8 || Cell(b, p + 2) != 58 || Cell(b, p + 5) != 58 { return false, c, p; }
      var h := (Cell(b, p) - 48) * 10 + (Cell(b, p + 1) - 48);
      p := p + 3;
      var mi := (Cell(b, p) - 48) * 10 + (Cell(b, p + 1) - 48);
      p := p + 3;
      var s := (Cell(b, p) - 48) * 10 + (Cell(b, p + 1) - 48);
      p := p + 2;
      var ms, offset;
      ms, p := ReadMillis(b, o, t, p, e);
      offset, p := ReadZone(b, o, t, p, e);
      c := Clock(h, mi, s, ms, offset);
    }
    ok := true;
  }

  method ReadMillis(b: text, ghost o: nat, ghost t: text, start: nat, e: nat) returns (ms: int, p: nat)
    requires Window(b, o, t, e) && o <= start <= e
    ensures o <= p <= e && p - o == FractionEnd(t, e - o, start - o) && ms == FractionMs(t, e - o, start - o)
  {
    hide Millis;
    p, ms := start, 0;
    if p < e && Cell(b, p) == 46 {
      DigitsEndWindow(b, o, t, p + 1, e);
      ms, p := ReadFraction(b, p + 1, e);
      assert b[start + 1..p] == t[start + 1 - o..p - o];
    }
  }

  method ReadZone(b: text, ghost o: nat, ghost t: text, start: nat, e: nat) returns (offset: int, p: nat)
    requires Window(b, o, t, e) && o <= start <= e
    ensures ZonePart(t, e - o, start - o) == if p == e then Some(offset) else None
  {
    p, offset := start, 0;
    if p < e && (Cell(b, p) == 43 || Cell(b, p) == 45) {
      var sg := if Cell(b, p) == 45 then -1 else 1;
      p := p + 1;
      var th := (Cell(b, p) - 48) * 10 + (Cell(b, p + 1) - 48);
      p := p + 2;
      var tm, ts := 0, 0;
      if p < e && Cell(b, p) == 58 {
        p := p + 1;
        tm := (Cell(b, p) - 48) * 10 + (Cell(b, p + 1) - 48);
        p := p + 2;
        if p < e && Cell(b, p) == 58 {
          p := p + 1;
          ts := (Cell(b, p) - 48) * 10 + (Cell(b, p + 1) - 48);
          p := p + 2;
        }
      }
      offset := sg * ((th * 60 + tm) * 60 + ts);
    } else if p < e && Cell(b, p) == 90 {
      p := p + 1;
    }
  }

  method InstantFromBytes(b: text, o: nat, l: nat) returns (r: Parsed)
    requires o + l <= |b|
    ensures var t := b[o..o + l];
            r == if StartsInfinite(t) then (if l == (if t[0] == 45 then 9 else 8) then NaN else NotText) else Parse(t)
  {
    ghost var t := b[o..o + l];
    if Cell(b, o) == 105 || (Cell(b, o) == 45 && Cell(b, o + 1) == 105) {
      assert l > 0 ==> t[0] == b[o];
      assert l > 1 ==> t[1] == b[o + 1];
      r := if l == (if Cell(b, o) == 45 then 9 else 8) then NaN else NotText;
    } else {
      r := ReadInstant(b, o, l);
    }
  }

  method InstantFromString(s: text) returns (r: Parsed)
    ensures r == if StartsInfinite(s) then (if s == INFINITY || s == [45] + INFINITY then NaN else NotText) else Parse(s)
  {
    if Cell(s, 0) == 105 || (Cell(s, 0) == 45 && Cell(s, 1) == 105) {
      r := if s == INFINITY || s == [45] + INFINITY then NaN else NotText;
    } else {
      assert s[0..0 + |s|] == s;
      r := ReadInstant(s, 0, |s|);
    }
  }

  /** The byte parser, whatever bytes surround the text, and the string parser give the same instant on
      every text that does not start like an infinity, and on the two infinities. */
  method ParsersAgree(b: text, o: nat, l: nat) returns (bytes: Parsed, str: Parsed)
    requires o + l <= |b|
    ensures bytes == str <==>
              !StartsInfinite(b[o..o + l]) || b[o..o + l] in {INFINITY, [45] + INFINITY} || l != (if b[o] == 45 then 9 else 8)
  {
    bytes := InstantFromBytes(b, o, l);
    str := InstantFromString(b[o..o + l]);
    assert |INFINITY| == 8 && |[45] + INFINITY| == 9;
  }
}
