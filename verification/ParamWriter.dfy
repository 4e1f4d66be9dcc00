/** The encoders that write parameter values straight into the Bind message. */
module ParamWriter {
  import opened Bytes
  import opened Utf8
  import opened Int64
  import PowersOfTen
  import opened ArrayText
  import opened WriterClass
  import opened Params
  import Calendar
  import TemporalText

  // ---- writing the text of an array ----

  lemma {:induction false} EscapedSnoc(a: jstring, c: unit)
    ensures Escaped(a + [c]) == Escaped(a) + if c == QUOTE || c == BACKSLASH then [BACKSLASH, c] else [c]
  {
    if a == [] {
      assert a + [c] == [c] && [c][1..] == [];
    } else {
      assert (a + [c])[1..] == a[1..] + [c];
      EscapedSnoc(a[1..], c);
    }
  }

  /** A boundary at an ASCII unit is not inside a surrogate pair. */
  lemma EncodePieces(a: jstring, b: jstring)
    requires (a != [] ==> a[|a| - 1] < 128) || (b != [] ==> b[0] < 128)
    ensures Encode(a + b) == Encode(a) + Encode(b)
  {
    EncodeAppend(a, b);
  }

  lemma RunBytes(p: jstring, run: jstring)
    requires p == [] || p[|p| - 1] == BACKSLASH
    ensures Encode(p + run + [BACKSLASH]) == Encode(p) + Encode(run) + [BACKSLASH]
  {
    EncodePieces(p, run);
    EncodePieces(p + run, [BACKSLASH]);
    EncodeAscii([BACKSLASH]);
  }

  /** A run of plain units and the backslash after it. */
  method WriteRun(w: Writer, run: jstring)
    requires w.Valid()
    modifies w`buf, w`off, w.buf
    ensures w.Valid() && (w.buf == old(w.buf) || fresh(w.buf))
    ensures w.Contents() == old(w.Contents()) + Encode(run) + [BACKSLASH]
  {
    if |run| > 0 { w.Str(run); }
    w.Byte(BACKSLASH);
  }

  /** `out` is what was written of the text of s[..i]: all but the run from `start` on. */
  ghost predicate Running(s: jstring, start: nat, i: nat, out: seq<byte>)
  {
    start <= i <= |s| &&
    exists p: jstring ::
      (p == [] || p[|p| - 1] == BACKSLASH) && Escaped(s[..i]) == p + s[start..i] && out == Encode(p)
  }

  lemma RunStarts(s: jstring)
    ensures Running(s, 0, 0, [])
  {
    var p: jstring := [];
    assert s[..0] == [] && Escaped(s[..0]) == p + s[0..0] && Encode(p) == [];
  }

  lemma NextPrefix(s: jstring, start: nat, i: nat)
    requires start <= i < |s|
    ensures s[..i + 1] == s[..i] + [s[i]] && s[start..i + 1] == s[start..i] + [s[i]] && s[i..i + 1] == [s[i]]
  {
  }

  /** One more unit of the string, and the run that starts or grows with it. */
  lemma RunStep(s: jstring, start: nat, i: nat, out: seq<byte>)
    requires Running(s, start, i, out) && i < |s|
    ensures s[i] == QUOTE || s[i] == BACKSLASH ==> Running(s, i, i + 1, out + Encode(s[start..i]) + [BACKSLASH])
    ensures !(s[i] == QUOTE || s[i] == BACKSLASH) ==> Running(s, start, i + 1, out)
  {
    hide Escaped, Encode;
    var p: jstring :| (p == [] || p[|p| - 1] == BACKSLASH) && Escaped(s[..i]) == p + s[start..i] && out == Encode(p);
    NextPrefix(s, start, i);
    EscapedSnoc(s[..i], s[i]);
    if s[i] == QUOTE || s[i] == BACKSLASH {
      RunBytes(p, s[start..i]);
      var q: jstring := p + s[start..i] + [BACKSLASH];
      Assoc(p + s[start..i], [BACKSLASH], [s[i]]);
      assert [BACKSLASH, s[i]] == [BACKSLASH] + [s[i]];
      assert q[|q| - 1] == BACKSLASH && Escaped(s[..i + 1]) == q + s[i..i + 1];
    } else {
      Assoc(p, s[start..i], [s[i]]);
      assert Escaped(s[..i + 1]) == p + s[start..i + 1];
    }
  }

  lemma RunEnds(s: jstring, start: nat, out: seq<byte>)
    requires Running(s, start, |s|, out)
    ensures Encode(Escaped(s)) == out + Encode(s[start..])
  {
    var p: jstring :| (p == [] || p[|p| - 1] == BACKSLASH) && Escaped(s[..|s|]) == p + s[start..|s|] && out == Encode(p);
    assert s[..|s|] == s;
    EncodePieces(p, s[start..]);
  }

  /** The string in runs, with a backslash before each quote and backslash. */
  method WriteEscQuoted(w: Writer, s: jstring)
    requires w.Valid()
    modifies w`buf, w`off, w.buf
    ensures w.Valid() && (w.buf == old(w.buf) || fresh(w.buf)) && w.Contents() == old(w.Contents()) + Encode(Escaped(s))
  {
    hide Running, Escaped, Encode;
    ghost var before := w.Contents();
    var start := 0;
    ghost var out: seq<byte> := [];
    RunStarts(s);
    for i := 0 to |s|
      invariant start <= i && Running(s, start, i, out)
      invariant w.Valid() && (w.buf == old(w.buf) || fresh(w.buf)) && w.Contents() == before + out
    {
      RunStep(s, start, i, out);
      if s[i] == QUOTE || s[i] == BACKSLASH {
        Assoc(before, out, Encode(s[start..i]));
        Assoc(before, out + Encode(s[start..i]), [BACKSLASH]);
        WriteRun(w, s[start..i]);
        out, start := out + Encode(s[start..i]) + [BACKSLASH], i;
      }
    }
    RunEnds(s, start, out);
    Assoc(before, out, Encode(s[start..]));
    if start < |s| { w.Str(s[start..]); } else { assert Encode([]) == []; }
  }

  function Separator(first: bool): jstring
  {
    if first then [] else [COMMA]
  }

  /** All but the first of the elements, each after its comma. */
  function Tail(xs: seq<Lit>): jstring
  {
    if xs == [] then [] else [COMMA] + Items(xs, COMMA)
  }

  lemma TailStep(xs: seq<Lit>)
    requires xs != []
    ensures Items(xs, COMMA) == Print(xs[0], COMMA) + Tail(xs[1..])
    ensures Tail(xs) == [COMMA] + Print(xs[0], COMMA) + Tail(xs[1..])
  {
    hide Print;
  }

  lemma {:induction false} TailSnoc(xs: seq<Lit>, x: Lit)
    ensures Tail(xs + [x]) == Tail(xs) + ([COMMA] + Print(x, COMMA))
    decreases |xs|
  {
    var all := xs + [x];
    TailStep(all);
    if xs == [] {
      assert all[1..] == [] && Tail(all[1..]) == [];
    } else {
      TailStep(xs);
      TailSnoc(xs[1..], x);
      assert all[1..] == xs[1..] + [x] && all[0] == xs[0];
      hide Print, Tail;
      Assoc([COMMA] + Print(xs[0], COMMA), Tail(xs[1..]), [COMMA] + Print(x, COMMA));
    }
  }

  lemma ItemsSnoc(xs: seq<Lit>, x: Lit)
    ensures Items(xs + [x], COMMA) == Items(xs, COMMA) + (Separator(xs == []) + Print(x, COMMA))
  {
    var all := xs + [x];
    TailStep(all);
    if xs == [] {
      assert all[1..] == [] && Tail(all[1..]) == [];
      assert Items(xs, COMMA) == [];
    } else {
      TailStep(xs);
      TailSnoc(xs[1..], x);
      assert all[1..] == xs[1..] + [x] && all[0] == xs[0];
      hide Print, Tail, Items;
      Assoc(Print(xs[0], COMMA), Tail(xs[1..]), [COMMA] + Print(x, COMMA));
    }
  }

  lemma NoItems()
    ensures Items([], COMMA) == [] && Encode([]) == []
  {
  }

  /** The bytes of the elements, one element longer. */
  lemma ItemsBytes(xs: seq<Lit>, x: Lit)
    ensures Encode(Items(xs + [x], COMMA)) == Encode(Items(xs, COMMA)) + Separator(xs == []) + Encode(Print(x, COMMA))
  {
    ItemsSnoc(xs, x);
    var items, text := Items(xs, COMMA), Print(x, COMMA);
    hide Items, Print;
    if xs == [] {
      assert items == [] && Encode(items) == [] by { NoItems(); }
      assert items + (Separator(true) + text) == text;
    } else {
      Assoc(items, [COMMA], text);
      EncodePieces(items, [COMMA]);
      EncodePieces(items + [COMMA], text);
      EncodeAscii([COMMA]);
    }
  }

  lemma NestedText(xs: seq<Lit>)
    ensures Print(Nested(xs), COMMA) == [OPEN] + Items(xs, COMMA) + [CLOSE]
  {
  }

  /** The bytes of a whole literal. */
  lemma NestedBytes(xs: seq<Lit>)
    ensures Encode(Print(Nested(xs), COMMA)) == [OPEN] + Encode(Items(xs, COMMA)) + [CLOSE]
  {
    var items := Items(xs, COMMA);
    EncodePieces([OPEN], items);
    EncodePieces([OPEN] + items, [CLOSE]);
    EncodeAscii([OPEN]);
    EncodeAscii([CLOSE]);
  }

  lemma QuotedBytes(s: jstring)
    ensures Encode(Print(Quoted(s), COMMA)) == [QUOTE] + Encode(Escaped(s)) + [QUOTE]
  {
    EncodePieces([QUOTE], Escaped(s));
    EncodePieces([QUOTE] + Escaped(s), [QUOTE]);
    EncodeAscii([QUOTE]);
  }

  // ---- dates ----

  /** Two digits. */
  method P2(w: Writer, n: nat)
    requires w.Valid() && n < 100
    modifies w`buf, w`off, w.buf
    ensures w.Valid() && (w.buf == old(w.buf) || fresh(w.buf)) && w.Contents() == old(w.Contents()) + [48 + n / 10, 48 + n % 10]
  {
    w.Byte(48 + n / 10);
    w.Byte(48 + n % 10);
  }

  /** The digits and separators that writeIso writes. */
  function YearDigits(y: int): seq<int>
  {
    [48 + y / 1000 % 10, 48 + y / 100 % 10, 48 + y / 10 % 10, 48 + y % 10]
  }

  function Part(separator: int, n: int): seq<int>
  {
    [separator, 48 + n / 10, 48 + n % 10]
  }

  function MillisPart(ms: int): seq<int>
  {
    [46, 48 + ms / 100, 48 + ms / 10 % 10, 48 + ms % 10, 90]
  }

  function IsoDateBytes(f: Calendar.Fields): seq<int>
  {
    YearDigits(f.year) + Part(45, f.month + 1) + Part(45, f.date)
  }

  function IsoTimeBytes(f: Calendar.Fields): seq<int>
  {
    Part(84, f.h) + Part(58, f.mi) + Part(58, f.s) + MillisPart(f.ms)
  }

  lemma PadFour(n: nat)
    requires n < 10000
    ensures TemporalText.Pad(n, 4) == YearDigits(n)
  {
    var a, b, c := n / 10, n / 100, n / 1000;
    assert a / 10 == b && b / 10 == c && c / 10 == 0;
    assert TemporalText.Pad(0, 0) == [];
    assert TemporalText.Pad(c, 1) == [48 + c % 10];
    assert TemporalText.Pad(b, 2) == TemporalText.Pad(c, 1) + [48 + b % 10];
    assert TemporalText.Pad(a, 3) == TemporalText.Pad(b, 2) + [48 + a % 10];
  }

  lemma IsoDate(f: Calendar.Fields)
    requires 0 <= f.year <= 9999 && 0 <= f.month < 12 && 1 <= f.date <= 31 && 0 <= f.h < 24 && 0 <= f.mi < 60 && 0 <= f.s < 60 && 0 <= f.ms < 1000
    ensures TemporalText.DateText(TemporalText.IsoStamp(f)) == IsoDateBytes(f)
  {
    PadFour(f.year);
    TemporalText.PadTwo(f.month + 1);
    TemporalText.PadTwo(f.date);
    hide TemporalText.Pad;
  }

  lemma IsoTime(f: Calendar.Fields)
    requires 0 <= f.year <= 9999 && 0 <= f.month < 12 && 1 <= f.date <= 31 && 0 <= f.h < 24 && 0 <= f.mi < 60 && 0 <= f.s < 60 && 0 <= f.ms < 1000
    ensures TemporalText.TimeText(TemporalText.IsoStamp(f).time.value) == IsoTimeBytes(f)
  {
    TemporalText.PadTwo(f.h);
    TemporalText.PadTwo(f.mi);
    TemporalText.PadTwo(f.s);
    hide TemporalText.Pad;
    var time := TemporalText.IsoStamp(f).time.value;
    assert TemporalText.FractionText(time.frac) + TemporalText.ZoneText(time.zone) == MillisPart(f.ms);
    hide MillisPart, TemporalText.FractionText, TemporalText.ZoneText;
    assert [84] + TemporalText.Pad(f.h, 2) == Part(84, f.h);
    assert [58] + TemporalText.Pad(f.mi, 2) == Part(58, f.mi) && [58] + TemporalText.Pad(f.s, 2) == Part(58, f.s);
  }

  lemma IsoBytesAreIso(t: time)
    requires 0 <= Calendar.FieldsOf(t).year <= 9999
    ensures IsoDateBytes(Calendar.FieldsOf(t)) + IsoTimeBytes(Calendar.FieldsOf(t)) == TemporalText.Iso(t)
  {
    var f := Calendar.FieldsOf(t);
    hide Calendar.FieldsOf, TemporalText.DateText, TemporalText.TimeText, IsoDateBytes, IsoTimeBytes;
    IsoDate(f);
    IsoTime(f);
  }

  /** The ISO text, digit by digit; years outside 0 to 9999 are left to toISOString. */
  method WriteIso(w: Writer, t: time)
    requires w.Valid()
    modifies w`buf, w`off, w.buf
    ensures w.Valid() && (w.buf == old(w.buf) || fresh(w.buf)) && w.Contents() == old(w.Contents()) + Latin1(IsoText(t))
  {
    hide Latin1;
    var f := Calendar.FieldsOf(t);
    if !(0 <= f.year <= 9999) { w.Asc(IsoText(t)); return; }
    IsoBytesAreIso(t);
    ghost var text: seq<int> := Latin1(IsoText(t));
    assert text == IsoDateBytes(f) + IsoTimeBytes(f);
    hide Calendar.FieldsOf, TemporalText.Iso, IsoDateBytes, IsoTimeBytes, IsoText;
    ghost var before: seq<int> := w.Contents();
    Assoc(before, IsoDateBytes(f), IsoTimeBytes(f));
    WriteIsoDate(w, f);
    WriteIsoTime(w, f);
  }

  method WritePart(w: Writer, separator: byte, n: nat)
    requires w.Valid() && n < 100
    modifies w`buf, w`off, w.buf
    ensures w.Valid() && (w.buf == old(w.buf) || fresh(w.buf)) && w.Contents() == old(w.Contents()) + Part(separator, n)
  {
    w.Byte(separator);
    P2(w, n);
  }

  method WriteYear(w: Writer, y: nat)
    requires w.Valid() && y < 10000
    modifies w`buf, w`off, w.buf
    ensures w.Valid() && (w.buf == old(w.buf) || fresh(w.buf)) && w.Contents() == old(w.Contents()) + YearDigits(y)
  {
    w.Byte(48 + y / 1000 % 10);
    w.Byte(48 + y / 100 % 10);
    w.Byte(48 + y / 10 % 10);
    w.Byte(48 + y % 10);
  }

  method WriteIsoDate(w: Writer, f: Calendar.Fields)
    requires w.Valid() && 0 <= f.year <= 9999 && 0 <= f.month < 12 && 1 <= f.date <= 31
    modifies w`buf, w`off, w.buf
    ensures w.Valid() && (w.buf == old(w.buf) || fresh(w.buf)) && w.Contents() == old(w.Contents()) + IsoDateBytes(f)
  {
    hide YearDigits, Part;
    WriteYear(w, f.year);
    WritePart(w, 45, f.month + 1);
    WritePart(w, 45, f.date);
  }

  method WriteIsoTime(w: Writer, f: Calendar.Fields)
    requires w.Valid() && 0 <= f.h < 24 && 0 <= f.mi < 60 && 0 <= f.s < 60 && 0 <= f.ms < 1000
    modifies w`buf, w`off, w.buf
    ensures w.Valid() && (w.buf == old(w.buf) || fresh(w.buf)) && w.Contents() == old(w.Contents()) + IsoTimeBytes(f)
  {
    hide Part, MillisPart;
    WritePart(w, 84, f.h);
    WritePart(w, 58, f.mi);
    WritePart(w, 58, f.s);
    WriteMillis(w, f.ms);
  }

  method WriteMillis(w: Writer, ms: nat)
    requires w.Valid() && ms < 1000
    modifies w`buf, w`off, w.buf
    ensures w.Valid() && (w.buf == old(w.buf) || fresh(w.buf)) && w.Contents() == old(w.Contents()) + MillisPart(ms)
  {
    w.Byte(46);
    w.Byte(48 + ms / 100);
    w.Byte(48 + ms / 10 % 10);
    w.Byte(48 + ms % 10);
    w.Byte(90);
  }

  // ---- arrays as text ----

  /** One element and the comma before it, if any. */
  method WriteElement(json: Json, w: Writer, v: Value) returns (ok: bool)
    requires w.Valid()
    modifies w`buf, w`off, w.buf
    ensures w.Valid() && (w.buf == old(w.buf) || fresh(w.buf)) && old(w.Contents()) <= w.Contents()
    ensures ok == ElementOf(json, v).Some?
    ensures ok ==> w.Contents() == old(w.Contents()) + Encode(Print(ElementOf(json, v).value, COMMA))
    decreases v, 1
  {
    hide Escaped, Encode, IsoText, Hex;
    ok := true;
    match v {
      case Null(_) =>
        EncodeAscii(NULL);
        w.Asc(NULL);
      case Array(elems) =>
        ok := WriteArrayBody(json, w, elems);
      case Number(n) =>
        NumeralIsAscii(Shown(n));
        EncodeAscii(Shown(n));
        w.Asc(Shown(n));
      case BigInt(i) =>
        EncodeAscii(Decimal(i));
        w.Asc(Decimal(i));
      case Bool(b) =>
        EncodeAscii(if b then [116] else [102]);
        w.Byte(if b then 116 else 102);
      case _ =>
        ok := WriteQuotedElement(json, w, v);
    }
  }

  /** A date has nothing to escape. */
  method WriteQuotedElement(json: Json, w: Writer, v: Value) returns (ok: bool)
    requires w.Valid() && (v.Date? || v.Buffer? || v.Object? || v.Str? || v.Other?)
    modifies w`buf, w`off, w.buf
    ensures w.Valid() && (w.buf == old(w.buf) || fresh(w.buf)) && old(w.Contents()) <= w.Contents()
    ensures ok == QuotedText(json, v).Some?
    ensures ok ==> w.Contents() == old(w.Contents()) + Encode(Print(Quoted(QuotedText(json, v).value), COMMA))
  {
    hide Escaped, Encode, Print, IsoText, Hex, Latin1;
    ghost var before := w.Contents();
    w.Byte(QUOTE);
    var text := QuotedText(json, v);
    if text.None? { return false; }
    QuotedBytes(text.value);
    Assoc(before, [QUOTE], Encode(Escaped(text.value)));
    Assoc(before, [QUOTE] + Encode(Escaped(text.value)), [QUOTE]);
    if v.Date? {
      PlainIso(v.t.value);
      WriteIso(w, v.t.value);
    } else {
      WriteEscQuoted(w, text.value);
    }
    w.Byte(QUOTE);
    ok := true;
  }

  lemma {:induction false} PlainText(s: jstring)
    requires forall i :: 0 <= i < |s| ==> s[i] != QUOTE && s[i] != BACKSLASH
    ensures Escaped(s) == s
  {
    if s != [] { PlainText(s[1..]); }
  }

  lemma PlainIso(t: time)
    ensures Encode(Escaped(IsoText(t))) == Latin1(IsoText(t))
  {
    TemporalText.IsoIsPlain(t);
    PlainText(IsoText(t));
    EncodeAscii(IsoText(t));
  }

  method WriteArrayBody(json: Json, w: Writer, arr: seq<Value>) returns (ok: bool)
    requires w.Valid()
    modifies w`buf, w`off, w.buf
    ensures w.Valid() && (w.buf == old(w.buf) || fresh(w.buf)) && old(w.Contents()) <= w.Contents()
    ensures ok == ElementsOf(json, arr).Some?
    ensures ok ==> w.Contents() == old(w.Contents()) + Encode(Print(Nested(ElementsOf(json, arr).value), COMMA))
    decreases arr, 0
  {
    hide Print, Items, Encode, ElementOf, ElementsOf, Separator;
    ghost var before := w.Contents();
    w.Byte(OPEN);
    ghost var xs: seq<Lit> := [];
    NoItems();
    ElementsAt(json, arr);
    for i := 0 to |arr|
      invariant |xs| == i && forall k :: 0 <= k < i ==> ElementOf(json, arr[k]) == Some(xs[k])
      invariant w.Valid() && (w.buf == old(w.buf) || fresh(w.buf))
      invariant w.Contents() == before + [OPEN] + Encode(Items(xs, COMMA))
    {
      WriteSeparator(w, i == 0);
      var written := WriteElement(json, w, arr[i]);
      if !written { return false; }
      ghost var x := ElementOf(json, arr[i]).value;
      ItemsBytes(xs, x);
      Assoc(before + [OPEN], Encode(Items(xs, COMMA)), Separator(xs == []));
      Assoc(before + [OPEN], Encode(Items(xs, COMMA)) + Separator(xs == []), Encode(Print(x, COMMA)));
      xs := xs + [x];
    }
    assert ElementsOf(json, arr).value == xs;
    NestedBytes(xs);
    Assoc(before, [OPEN], Encode(Items(xs, COMMA)));
    Assoc(before, [OPEN] + Encode(Items(xs, COMMA)), [CLOSE]);
    w.Byte(CLOSE);
    ok := true;
  }

  method WriteSeparator(w: Writer, first: bool)
    requires w.Valid()
    modifies w`buf, w`off, w.buf
    ensures w.Valid() && (w.buf == old(w.buf) || fresh(w.buf)) && w.Contents() == old(w.Contents()) + Separator(first)
  {
    if !first { w.Byte(COMMA); }
  }

  /** The printer that builds a string. */
  method ArrayLiteral(json: Json, arr: seq<Value>) returns (s: Option<jstring>)
    ensures s == Literal(json, arr)
    decreases arr
  {
    hide Print, Items, ElementOf, ElementsOf, Separator;
    var text: jstring := [];
    ghost var xs: seq<Lit> := [];
    NoItems();
    ElementsAt(json, arr);
    for i := 0 to |arr|
      invariant |xs| == i && text == Items(xs, COMMA) && forall k :: 0 <= k < i ==> ElementOf(json, arr[k]) == Some(xs[k])
    {
      var element := ElementLiteral(json, arr[i]);
      if element.None? { return None; }
      ghost var x := ElementOf(json, arr[i]).value;
      ItemsSnoc(xs, x);
      text := text + (Separator(i == 0) + element.value);
      xs := xs + [x];
    }
    assert ElementsOf(json, arr).value == xs;
    NestedText(xs);
    s := Some([OPEN] + text + [CLOSE]);
  }

  method ElementLiteral(json: Json, v: Value) returns (s: Option<jstring>)
    ensures s == match ElementOf(json, v) case None => None case Some(x) => Some(Print(x, COMMA))
    decreases v
  {
    match v {
      case Null(_) => s := Some(NULL);
      case Array(elems) => s := ArrayLiteral(json, elems);
      case Number(n) => s := Some(Shown(n));
      case BigInt(i) => s := Some(DecimalNumeral(i));
      case Bool(b) => s := Some(if b then [116] else [102]);
      case _ =>
        var text := QuotedText(json, v);
        if text.None? { return None; }
        EscapedInTwoPasses(text.value);
        s := Some([QUOTE] + Replaced(Replaced(text.value, BACKSLASH), QUOTE) + [QUOTE]);
    }
  }

  // ---- values ----

  /** What a method that encodes one value reports and leaves behind; what was written before stays. */
  ghost predicate Did(e: Encoded, ok: bool, format: nat, before: seq<byte>, after: seq<byte>)
  {
    && ok == e.Wrote?
    && (ok ==> format == e.format && after == before + e.wire)
    && before <= after
  }

  /** A length kept free, the value, and the length patched in. */
  lemma PatchedLength(before: seq<byte>, zero: seq<byte>, value: seq<byte>, n: seq<byte>)
    requires |zero| == |n| == 4
    ensures Patched(before + zero + value, |before|, n) == before + (n + value)
  {
    var s := before + zero + value;
    assert s[..|before|] == before && s[|before| + 4..] == value;
  }

  method ArrayLiteralInto(json: Json, w: Writer, arr: seq<Value>) returns (ok: bool)
    requires w.Valid()
    modifies w`buf, w`off, w.buf
    ensures w.Valid() && (w.buf == old(w.buf) || fresh(w.buf))
    ensures Did(FramedText(Literal(json, arr)), ok, 0, old(w.Contents()), w.Contents())
  {
    hide Print, Encode, ElementsOf, I32;
    ghost var before := w.Contents();
    var lp := w.Mark();
    var _ := w.Int32(0);
    var s := w.Mark();
    var written := WriteArrayBody(json, w, arr);
    if !written { return false; }
    ghost var value := Encode(Literal(json, arr).value);
    PatchedLength(before, I32(0), value, I32(|value|));
    hide Patched;
    var e := w.Mark();
    ok := w.Patch32(lp, e - s);
  }

  /** A date as text: a length kept free, the ISO text, the length patched in. */
  method DateInto(w: Writer, t: time) returns (ok: bool)
    requires w.Valid()
    modifies w`buf, w`off, w.buf
    ensures w.Valid() && (w.buf == old(w.buf) || fresh(w.buf))
    ensures Did(Framed(0, Latin1(IsoText(t))), ok, 0, old(w.Contents()), w.Contents())
  {
    hide IsoText, Latin1, I32;
    ghost var before := w.Contents();
    var lp := w.Mark();
    var _ := w.Int32(0);
    var s := w.Mark();
    WriteIso(w, t);
    ghost var value := Latin1(IsoText(t));
    PatchedLength(before, I32(0), value, I32(|value|));
    hide Patched;
    var e := w.Mark();
    ok := w.Patch32(lp, e - s);
  }

  /** String() of a number: a safe integer digit by digit. */
  method NumberInto(w: Writer, n: Num) returns (ok: bool)
    requires w.Valid()
    modifies w`buf, w`off, w.buf
    ensures w.Valid() && (w.buf == old(w.buf) || fresh(w.buf))
    ensures Did(Framed(0, Latin1(Shown(n))), ok, 0, old(w.Contents()), w.Contents())
  {
    NumeralIsAscii(Shown(n));
    if IsSafe(n) {
      SafeDigits(n.whole.value);
      hide Decimal, I32;
      ghost var digits: seq<byte> := Latin1(Shown(n));
      assert Lp(digits) == Some(I32(|digits|) + digits);
      Assoc(w.Contents(), I32(|digits|), digits);
      w.LpAsciiInt(n.whole.value);
      ok := true;
    } else {
      ok := w.LpAsc(Shown(n));
    }
  }

  lemma SafeDigits(v: int)
    requires -SAFE < v < SAFE
    ensures |Decimal(v)| <= 17
  {
    PowersOfTen.TensValues();
    DigitCount(if v < 0 then -v else v, 16);
  }

  /** One value in its text form. */
  method EncodeValueInto(json: Json, w: Writer, v: Value) returns (ok: bool, format: nat)
    requires w.Valid()
    modifies w`buf, w`off, w.buf
    ensures w.Valid() && (w.buf == old(w.buf) || fresh(w.buf))
    ensures Did(TextEnc(json, v), ok, format, old(w.Contents()), w.Contents())
  {
    hide Encode, Latin1, I32, Lp, Literal, Shown, Decimal, IsoText;
    format := 0;
    match v {
      case Null(_) => ok := w.Int32(-1);
      case Buffer(b) =>
        ok := w.LpBytes(b);
        format := 1;
      case Number(n) => ok := NumberInto(w, n);
      case Str(s) =>
        if 0 in s { return false, 0; }
        ok := w.LpStr(s);
      case Bool(b) =>
        Assoc(w.Contents(), I32(1), [if b then 116 else 102]);
        ok := w.Int32(1);
        w.Byte(if b then 116 else 102);
      case Date(t) =>
        if t.None? { return false, 0; }
        ok := DateInto(w, t.value);
      case Array(elems) => ok := ArrayLiteralInto(json, w, elems);
      case Object(_) =>
        var text := json(v);
        if text.None? { return false, 0; }
        ok := w.LpStr(text.value);
      case BigInt(i) => ok := w.LpAsc(Decimal(i));
      case Other(shown) =>
        if 0 in shown { return false, 0; }
        ok := w.LpStr(shown);
    }
  }

  /** The binary form of a scalar, if the value fits; else nothing is written. */
  method BinaryInto(w: Writer, oid: nat, v: Value) returns (fits: bool)
    requires w.Valid()
    modifies w`buf, w`off, w.buf
    ensures w.Valid() && (w.buf == old(w.buf) || fresh(w.buf)) && fits == Binary(oid, v).Some?
    ensures w.Contents() == old(w.Contents()) + if fits then Binary(oid, v).value else []
  {
    hide I32;
    ghost var before := w.Contents();
    fits := true;
    if oid == 16 && v.Bool? {
      Assoc(before, I32(1), [if v.truth then 1 else 0]);
      var _ := w.Int32(1);
      w.Byte(if v.truth then 1 else 0);
    } else if oid == 21 && v.Number? && InRange(v.n, -32768, 32767) {
      Unsigned16(v.n.whole.value);
      Assoc(before, I32(2), I16(v.n.whole.value % 65536));
      var _ := w.Int32(2);
      var _ := w.Int16(v.n.whole.value % 65536);
    } else if oid == 23 && v.Number? && InRange(v.n, -2147483648, 2147483647) {
      Assoc(before, I32(4), I32(v.n.whole.value));
      var _ := w.Int32(4);
      var _ := w.Int32(v.n.whole.value);
    } else if oid == 20 && v.Number? && IsSafe(v.n) {
      Assoc(before, I32(8), TwosComplement(v.n.whole.value, 8));
      w.LpI64(v.n.whole.value);
    } else if oid == 20 && v.BigInt? && IsInt64(v.i) {
      Assoc(before, I32(8), TwosComplement(v.i, 8));
      w.LpI64Big(v.i);
    } else if oid == 701 && v.Number? {
      Assoc(before, I32(8), v.n.bytes);
      w.LpF8(v.n.bytes);
    } else if (oid == 1114 || oid == 1184) && v.Date? && v.t.Some? {
      MicrosInto(w, v.t.value);
    } else {
      fits := false;
    }
  }

  lemma Unsigned16(v: int)
    ensures I16(v % 65536) == TwosComplement(v, 2)
  {
    PowWord();
  }

  /** Near 2000 the microseconds are a safe integer, else a wide one. */
  method MicrosInto(w: Writer, t: time)
    requires w.Valid()
    modifies w`buf, w`off, w.buf
    ensures w.Valid() && (w.buf == old(w.buf) || fresh(w.buf))
    ensures w.Contents() == old(w.Contents()) + (I32(8) + TwosComplement(Micros(t), 8))
  {
    hide I32, TwosComplement;
    Assoc(w.Contents(), I32(8), TwosComplement(Micros(t), 8));
    var ms := t - PG_EPOCH_MS;
    if -MS_SAFE <= ms <= MS_SAFE { w.LpI64(ms * 1000); } else { w.LpI64Big(ms * 1000); }
  }

  /** How writing a part of an array ends: written, no fit for the declared type, or an exception. */
  datatype Outcome = Written | NoFit | Thrown

  ghost predicate DidElem(e: Elem, r: Outcome, before: seq<byte>, after: seq<byte>)
  {
    before <= after &&
    match e
    case Fits(wire) => r == Written && after == before + wire
    case Mismatch => r == NoFit
    case Throws => r == Thrown
  }

  /** One array element. */
  method ElementInto(w: Writer, oid: nat, v: Value) returns (r: Outcome)
    requires w.Valid()
    modifies w`buf, w`off, w.buf
    ensures w.Valid() && (w.buf == old(w.buf) || fresh(w.buf))
    ensures DidElem(ElemEnc(oid, v), r, old(w.Contents()), w.Contents())
  {
    hide Binary, Lp, I32, Encode;
    r := Written;
    if v.Null? {
      var _ := w.Int32(-1);
    } else if oid == 25 || oid == 1043 {
      NotBinary(oid, v);
      if !v.Str? || 0 in v.s { return NoFit; }
      var ok := w.LpStr(v.s);
      if !ok { r := Thrown; }
    } else {
      var fits := BinaryInto(w, oid, v);
      if !fits { r := NoFit; }
    }
  }

  lemma NotBinary(oid: nat, v: Value)
    requires oid == 25 || oid == 1043
    ensures Binary(oid, v).None?
  {
  }

  /** The dimension header; `n` fits an int32. */
  method HeaderInto(w: Writer, oid: nat, arr: seq<Value>)
    requires w.Valid() && FitsI32(|arr|) && FitsI32(oid)
    modifies w`buf, w`off, w.buf
    ensures w.Valid() && (w.buf == old(w.buf) || fresh(w.buf)) && w.Contents() == old(w.Contents()) + ArrayHeader(oid, arr)
  {
    hide I32;
    ghost var before := w.Contents();
    if |arr| == 0 {
      ThreeWords(w, 0, 0, oid);
    } else {
      var hasNull := 0;
      for i := 0 to |arr|
        invariant hasNull == 0 && forall k :: 0 <= k < i ==> !arr[k].Null?
      {
        if arr[i].Null? { hasNull := 1; break; }
      }
      ghost var head := I32(1) + I32(hasNull) + I32(oid);
      Assoc(before, head, I32(|arr|));
      Assoc(before, head + I32(|arr|), I32(1));
      ThreeWords(w, 1, hasNull, oid);
      var _ := w.Int32(|arr|);
      var _ := w.Int32(1);
    }
  }

  method ThreeWords(w: Writer, a: int, b: int, c: int)
    requires w.Valid() && FitsI32(a) && FitsI32(b) && FitsI32(c)
    modifies w`buf, w`off, w.buf
    ensures w.Valid() && (w.buf == old(w.buf) || fresh(w.buf)) && w.Contents() == old(w.Contents()) + (I32(a) + I32(b) + I32(c))
  {
    hide I32;
    ghost var before := w.Contents();
    Assoc(before, I32(a), I32(b));
    Assoc(before, I32(a) + I32(b), I32(c));
    var _ := w.Int32(a);
    var _ := w.Int32(b);
    var _ := w.Int32(c);
  }

  /** The elements up to the first that does not fit. */
  method ElementsInto(w: Writer, oid: nat, arr: seq<Value>) returns (r: Outcome)
    requires w.Valid()
    modifies w`buf, w`off, w.buf
    ensures w.Valid() && (w.buf == old(w.buf) || fresh(w.buf))
    ensures DidElem(ElemsEnc(oid, arr), r, old(w.Contents()), w.Contents())
  {
    hide ElemEnc;
    ghost var before := w.Contents();
    ghost var wire: seq<byte> := [];
    for i := 0 to |arr|
      invariant w.Valid() && (w.buf == old(w.buf) || fresh(w.buf)) && w.Contents() == before + wire
      invariant ElemsEnc(oid, arr[..i]) == Fits(wire)
    {
      assert arr[..i + 1][..i] == arr[..i];
      ghost var e := ElemEnc(oid, arr[i]);
      r := ElementInto(w, oid, arr[i]);
      if r != Written {
        Stuck(oid, arr, i + 1);
        return;
      }
      Assoc(before, wire, e.wire);
      wire := wire + e.wire;
    }
    assert arr[..|arr|] == arr;
    r := Written;
  }

  /** The first element that does not fit decides. */
  lemma {:induction false} Stuck(oid: nat, arr: seq<Value>, n: nat)
    requires n <= |arr| && !ElemsEnc(oid, arr[..n]).Fits?
    ensures ElemsEnc(oid, arr) == ElemsEnc(oid, arr[..n])
    decreases |arr| - n
  {
    if n == |arr| {
      assert arr[..n] == arr;
    } else {
      assert arr[..n + 1][..n] == arr[..n];
      Stuck(oid, arr, n + 1);
    }
  }

  /** The binary array; the length is patched in at the end. */
  method BinaryArrayInto(w: Writer, oid: nat, arr: seq<Value>) returns (r: Outcome)
    requires w.Valid() && FitsI32(oid)
    modifies w`buf, w`off, w.buf
    ensures w.Valid() && (w.buf == old(w.buf) || fresh(w.buf))
    ensures DidElem(BinaryArray(oid, arr), r, old(w.Contents()), w.Contents())
  {
    hide I32, ArrayHeader, ElemsEnc;
    ghost var before := w.Contents();
    var lenPos := w.Mark();
    var _ := w.Int32(0);
    if !FitsI32(|arr|) { return Thrown; }
    HeaderInto(w, oid, arr);
    r := ElementsInto(w, oid, arr);
    if r != Written { return; }
    r := PatchLength(w, lenPos, before, ArrayHeader(oid, arr), ElemsEnc(oid, arr).wire);
  }

  /** The length of what follows `lenPos`, patched in there. */
  method PatchLength(w: Writer, lenPos: nat, ghost before: seq<byte>, ghost head: seq<byte>, ghost tail: seq<byte>) returns (r: Outcome)
    requires w.Valid() && lenPos == |before| && w.Contents() == before + I32(0) + head + tail
    modifies w.buf
    ensures w.Valid()
    ensures DidElem(match Lp(head + tail) case None => Throws case Some(all) => Fits(all), r, before, w.Contents())
  {
    hide I32;
    ghost var value := head + tail;
    Assoc(before + I32(0), head, tail);
    PatchedLength(before, I32(0), value, I32(|value|));
    hide Patched;
    var e := w.Mark();
    var ok := w.Patch32(lenPos, e - lenPos - 4);
    r := if ok then Written else Thrown;
  }

  /** A value of an array type: on a mismatch the writer goes back to where it was, and the bytes are those
      of the text path. */
  method ArrayInto(json: Json, w: Writer, oid: nat, v: Value) returns (ok: bool, format: nat)
    requires w.Valid() && FitsI32(oid)
    modifies w`buf, w`off, w.buf
    ensures w.Valid() && (w.buf == old(w.buf) || fresh(w.buf))
    ensures Did(ArrayEnc(json, oid, v), ok, format, old(w.Contents()), w.Contents())
  {
    hide TextEnc, BinaryArray, Framed;
    if !v.Array? { ok, format := EncodeValueInto(json, w, v); return; }
    ghost var before := w.Contents();
    var mark := w.Mark();
    var r := BinaryArrayInto(w, oid, v.elems);
    match r {
      case Written => ok, format := true, 1;
      case Thrown => ok, format := false, 0;
      case NoFit =>
        w.Rewind(mark);
        assert w.Contents() == before;
        ok := ArrayLiteralInto(json, w, v.elems);
        format := 0;
        TextOfArray(json, v);
    }
  }

  lemma TextOfArray(json: Json, v: Value)
    requires v.Array?
    ensures TextEnc(json, v) == FramedText(Literal(json, v.elems))
    ensures TextEnc(json, v).Wrote? ==> TextEnc(json, v).format == 0
  {
  }

  /** One parameter under the generic plan. */
  method ParamInto(json: Json, w: Writer, oid: nat, v: Value) returns (ok: bool, format: nat)
    requires w.Valid()
    modifies w`buf, w`off, w.buf
    ensures w.Valid() && (w.buf == old(w.buf) || fresh(w.buf))
    ensures Did(ParamEnc(json, oid, v), ok, format, old(w.Contents()), w.Contents())
  {
    hide TextEnc, Binary, ArrayEnc, ElemOid;
    if IsFast(oid) {
      var fits := BinaryInto(w, oid, v);
      if fits { return true, 1; }
      ok, format := EncodeValueInto(json, w, v);
    } else if oid == 114 || oid == 3802 {
      ok := JsonInto(json, w, v);
      format := 0;
    } else {
      match ElemOid(oid) {
        case Some(elem) =>
          ElemOidFits(oid);
          ok, format := ArrayInto(json, w, elem, v);
        case None => ok, format := EncodeValueInto(json, w, v);
      }
    }
  }

  lemma ElemOidFits(oid: nat)
    ensures ElemOid(oid).Some? ==> ElemOid(oid).value < 10000
  {
  }

  method JsonInto(json: Json, w: Writer, v: Value) returns (ok: bool)
    requires w.Valid()
    modifies w`buf, w`off, w.buf
    ensures w.Valid() && (w.buf == old(w.buf) || fresh(w.buf))
    ensures Did(JsonEnc(json, v), ok, 0, old(w.Contents()), w.Contents())
  {
    hide Encode, Lp;
    var text := if v.Str? then Some(v.s) else json(v);
    if text.None? { return false; }
    ok := w.LpStr(text.value);
  }
}
