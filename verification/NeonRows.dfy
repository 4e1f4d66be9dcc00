/** DataRow bodies built from the rows of a JSON response: by a scan over its bytes, and from the parsed rows. */
module NeonRows {
  import opened Bytes
  import opened WriterClass
  import opened RowMapper
  import opened JsonScan

  // ---- the row buffer ----

  class RowBuf {
    var buf: array<byte>
    var pos: nat

    ghost predicate Valid()
      reads this
    {
      2 <= pos <= buf.Length
    }

    /** The cells so far, behind the place of the count. */
    ghost function Cells(): seq<byte>
      requires Valid()
      reads this, buf
    {
      buf[2..pos]
    }

    constructor ()
      ensures Valid() && fresh(buf) && Cells() == []
    {
      buf := new byte[4096];
      pos := 2;
    }

    method Reset()
      requires Valid()
      modifies this`pos
      ensures Valid() && Cells() == []
    {
      pos := 2;
    }

    method Ensure(n: nat)
      requires Valid()
      modifies this`buf
      ensures Valid() && (buf == old(buf) || fresh(buf)) && Cells() == old(Cells()) && pos + n <= buf.Length
    {
      if buf.Length < pos + n {
        var nb := new byte[if pos + n > buf.Length * 2 then pos + n else buf.Length * 2];
        forall i | 0 <= i < buf.Length { nb[i] := buf[i]; }
        assert nb[2..pos] == buf[2..pos];
        buf := nb;
      }
    }

    method Append(b: seq<byte>)
      requires Valid() && pos + |b| <= buf.Length
      modifies this`pos, buf
      ensures Valid() && Cells() == old(Cells()) + b
    {
      forall i | 0 <= i < |b| { buf[pos + i] := b[i]; }
      assert buf[2..pos + |b|] == old(buf[2..pos]) + b;
      pos := pos + |b|;
    }

    method PushNull()
      requires Valid()
      modifies this`buf, this`pos, buf
      ensures Valid() && (buf == old(buf) || fresh(buf)) && Cells() == old(Cells()) + I32(-1)
    {
      Ensure(4);
      Append(I32(-1));
    }

    method PushSlice(src: seq<byte>, start: nat, end: nat)
      requires Valid() && start <= end <= |src|
      modifies this`buf, this`pos, buf
      ensures Valid() && (buf == old(buf) || fresh(buf)) && Cells() == old(Cells()) + (I32(end - start) + src[start..end])
    {
      Assoc(Cells(), I32(end - start), src[start..end]);
      Ensure(4 + (end - start));
      Append(I32(end - start));
      Append(src[start..end]);
    }

    /** A null, or the UTF-8 bytes of the text. */
    method PushText(s: cell)
      requires Valid()
      modifies this`buf, this`pos, buf
      ensures Valid() && (buf == old(buf) || fresh(buf)) && Cells() == old(Cells()) + CellBytes([s])
    {
      hide I32;
      assert [s][1..] == [];
      if s.None? { PushNull(); } else { PushSlice(s.value, 0, |s.value|); }
    }

    /** The count goes in front; the result is a view that the next reset overwrites. */
    method Finish(ncols: nat) returns (body: seq<byte>)
      requires Valid()
      modifies buf
      ensures Valid() && body == I16(ncols) + Cells() && Cells() == old(Cells())
    {
      var count := I16(ncols);
      buf[0], buf[1] := count[0], count[1];
      assert buf[2..pos] == old(buf[2..pos]);
      assert buf[..pos] == count + buf[2..pos];
      body := buf[..pos];
    }
  }

  // ---- rows as JSON text ----

  /** A cell of the response: null, or a string. */
  datatype JsonCell = JsonCell(before: ws, s: Option<seq<StrChar>>, after: ws)

  /** A row: the cells in brackets; `gap` stands in a row without cells. */
  datatype JsonRow = JsonRow(before: ws, gap: ws, cells: seq<JsonCell>, after: ws)

  const NULL: seq<byte> := [0x6e, 0x75, 0x6c, 0x6c]

  function CellText(c: JsonCell): seq<byte>
  {
    c.before + (match c.s case None => NULL case Some(cs) => StringBytes(cs)) + c.after
  }

  function CellsText(cells: seq<JsonCell>): seq<byte>
  {
    if cells == [] then [] else CellText(cells[0]) + (if |cells| == 1 then [] else [COMMA] + CellsText(cells[1..]))
  }

  function Inner(r: JsonRow): seq<byte>
  {
    if r.cells == [] then r.gap else CellsText(r.cells)
  }

  function RowText(r: JsonRow): seq<byte>
  {
    r.before + [0x5b] + Inner(r) + [0x5d] + r.after
  }

  function RowsText(rows: seq<JsonRow>): seq<byte>
  {
    if rows == [] then [] else RowText(rows[0]) + (if |rows| == 1 then [] else [COMMA] + RowsText(rows[1..]))
  }

  /** JSON.parse of a quoted string, as UTF-8 bytes: a string without an escape is its own bytes. */
  ghost predicate ParsesStrings(unescape: seq<byte> -> seq<byte>)
  {
    forall cs: seq<StrChar> :: !HasEscape(cs) ==> unescape(StringBytes(cs)) == CharsBytes(cs)
  }

  /** The value of a cell after JSON.parse. */
  function ParsedCell(unescape: seq<byte> -> seq<byte>, c: JsonCell): cell
  {
    match c.s
    case None => None
    case Some(cs) => Some(unescape(StringBytes(cs)))
  }

  function ParsedCells(unescape: seq<byte> -> seq<byte>, cells: seq<JsonCell>): (r: seq<cell>)
    ensures |r| == |cells|
  {
    if cells == [] then [] else [ParsedCell(unescape, cells[0])] + ParsedCells(unescape, cells[1..])
  }

  /** The bodies that the rows stand for. */
  function Bodies(unescape: seq<byte> -> seq<byte>, rows: seq<JsonRow>): seq<seq<byte>>
  {
    if rows == [] then [] else [RowBody(ParsedCells(unescape, rows[0].cells))] + Bodies(unescape, rows[1..])
  }

  // ---- from the parsed rows ----

  lemma {:induction false} CellBytesAppend(a: seq<cell>, b: seq<cell>)
    ensures CellBytes(a + b) == CellBytes(a) + CellBytes(b)
    decreases |a|
  {
    hide I32;
    if a == [] {
      assert a + b == b;
    } else {
      assert (a + b)[1..] == a[1..] + b;
      CellBytesAppend(a[1..], b);
      Assoc(match a[0] case None => I32(-1) case Some(v) => I32(|v|) + v, CellBytes(a[1..]), CellBytes(b));
    }
  }

  /** One row after JSON.parse: its cells pushed one by one. */
  method ParsedBody(rb: RowBuf, row: seq<cell>) returns (body: seq<byte>)
    requires rb.Valid()
    modifies rb, rb.buf
    ensures rb.Valid() && (rb.buf == old(rb.buf) || fresh(rb.buf)) && body == RowBody(row)
  {
    hide CellBytes;
    rb.Reset();
    NoCells();
    for c := 0 to |row|
      invariant rb.Valid() && (rb.buf == old(rb.buf) || fresh(rb.buf)) && rb.Cells() == CellBytes(row[..c])
    {
      assert row[..c + 1] == row[..c] + [row[c]];
      CellBytesAppend(row[..c], [row[c]]);
      rb.PushText(row[c]);
    }
    assert row[..|row|] == row;
    body := rb.Finish(|row|);
  }

  lemma NoCells()
    ensures CellBytes([]) == []
  {
  }

  method DecodeParsed(rows: seq<seq<cell>>) returns (bodies: seq<seq<byte>>)
    ensures |bodies| == |rows| && forall i :: 0 <= i < |rows| ==> bodies[i] == RowBody(rows[i])
  {
    var rb := new RowBuf();
    bodies := [];
    for i := 0 to |rows|
      invariant rb.Valid() && fresh(rb) && fresh(rb.buf)
      invariant |bodies| == i && forall k :: 0 <= k < i ==> bodies[k] == RowBody(rows[k])
    {
      var body := ParsedBody(rb, rows[i]);
      bodies := bodies + [body];
    }
  }

  // ---- from the bytes ----

  /** Whitespace and commas before a cell or a row. */
  function Separated(t: seq<byte>): (r: seq<byte>)
    decreases |t|
  {
    var s := SkipWs(t);
    if s != [] && s[0] == COMMA then Separated(s[1..]) else s
  }

  lemma {:induction false} WsTwice(t: seq<byte>)
    ensures SkipWs(SkipWs(t)) == SkipWs(t)
  {
    if t != [] && IsWsByte(t[0]) { WsTwice(t[1..]); }
  }

  method SkipSeparators(raw: seq<byte>, start: nat) returns (i: nat)
    requires start <= |raw|
    ensures start <= i <= |raw| && raw[i..] == Separated(raw[start..])
  {
    hide SkipWs;
    i := SkipWsFrom(raw, start);
    WsTwice(raw[start..]);
    while i < |raw| && raw[i] == COMMA
      invariant start <= i <= |raw| && Separated(raw[start..]) == Separated(raw[i..]) && raw[i..] == SkipWs(raw[i..])
      decreases |raw| - i
    {
      assert raw[i..][0] == COMMA && raw[i..][1..] == raw[i + 1..];
      WsTwice(raw[i + 1..]);
      i := SkipWsFrom(raw, i + 1);
    }
  }

  /** A byte that a cell or a row starts with. */
  predicate IsToken(b: byte)
  {
    b == QUOTE || b == 0x6e || b == 0x5b || b == 0x5d
  }

  lemma TokenStays(t: seq<byte>)
    requires t != [] && IsToken(t[0])
    ensures SkipWs(t) == t && Separated(t) == t
  {
  }

  lemma WsToToken(w: seq<byte>, t: seq<byte>)
    requires IsWs(w) && t != [] && IsToken(t[0])
    ensures SkipWs(w + t) == t && Separated(w + t) == t
  {
    WsSkipped(w, t);
    TokenStays(t);
    hide SkipWs;
  }

  lemma CommaToToken(w1: seq<byte>, w2: seq<byte>, t: seq<byte>)
    requires IsWs(w1) && IsWs(w2) && t != [] && IsToken(t[0])
    ensures Separated(w1 + ([COMMA] + (w2 + t))) == t
  {
    var s := [COMMA] + (w2 + t);
    WsSkipped(w1, s);
    assert SkipWs(s) == s && s[1..] == w2 + t;
    WsToToken(w2, t);
    hide SkipWs;
  }

  function Token(c: JsonCell): (r: seq<byte>)
    ensures r != [] && IsToken(r[0]) && r[0] != 0x5b && r[0] != 0x5d
  {
    match c.s
    case None => NULL
    case Some(cs) => StringBytes(cs)
  }

  /** What stands after `k` cells of a row. */
  function AfterCells(cells: seq<JsonCell>, k: nat): seq<byte>
    requires k <= |cells|
  {
    if k == 0 then CellsText(cells)
    else cells[k - 1].after + (if k < |cells| then [COMMA] + CellsText(cells[k..]) else [])
  }

  lemma CellsStep(cells: seq<JsonCell>, k: nat)
    requires k < |cells|
    ensures CellsText(cells[k..]) == cells[k].before + (Token(cells[k]) + AfterCells(cells, k + 1))
  {
    hide StringBytes;
    var more := if k + 1 < |cells| then [COMMA] + CellsText(cells[k + 1..]) else [];
    assert cells[k..][0] == cells[k] && cells[k..][1..] == cells[k + 1..];
    assert CellText(cells[k]) == cells[k].before + Token(cells[k]) + cells[k].after;
    Assoc(cells[k].before + Token(cells[k]), cells[k].after, more);
    Assoc(cells[k].before, Token(cells[k]), cells[k].after + more);
  }

  /** From anywhere between two cells the next one is found. */
  lemma NextCell(cells: seq<JsonCell>, k: nat, rest: seq<byte>)
    requires k < |cells|
    ensures Separated(AfterCells(cells, k) + rest) == Token(cells[k]) + (AfterCells(cells, k + 1) + rest)
  {
    CellsStep(cells, k);
    hide Separated, CellsText, Token;
    var t := Token(cells[k]) + (AfterCells(cells, k + 1) + rest);
    Assoc(Token(cells[k]), AfterCells(cells, k + 1), rest);
    Assoc(cells[k].before, Token(cells[k]) + AfterCells(cells, k + 1), rest);
    if k == 0 {
      assert cells[0..] == cells;
      WsToToken(cells[k].before, t);
    } else {
      var text := CellsText(cells[k..]);
      Assoc(cells[k - 1].after, [COMMA] + text, rest);
      Assoc([COMMA], text, rest);
      CommaToToken(cells[k - 1].after, cells[k].before, t);
    }
  }

  /** One cell where its token stands: null, or a string, whose escapes are left to JSON.parse. */
  method RawCell(rb: RowBuf, raw: seq<byte>, start: nat, unescape: seq<byte> -> seq<byte>, ghost c: JsonCell, ghost rest: seq<byte>) returns (i: nat)
    requires rb.Valid() && start <= |raw| && raw[start..] == Token(c) + rest && rest != [] && ParsesStrings(unescape)
    modifies rb`buf, rb`pos, rb.buf
    ensures rb.Valid() && (rb.buf == old(rb.buf) || fresh(rb.buf)) && rb.Cells() == old(rb.Cells()) + CellBytes([ParsedCell(unescape, c)])
    ensures i <= |raw| && raw[i..] == rest
  {
    hide I32, SkipString, CharsBytes;
    assert [ParsedCell(unescape, c)][1..] == [];
    assert raw[start] == raw[start..][0] == Token(c)[0];
    if raw[start] == 0x6e {
      rb.PushNull();
      i := start + 4;
      assert raw[i..] == raw[start..][4..];
    } else {
      ghost var cs := c.s.value;
      StringSkipped(cs, rest);
      assert raw[start + 1..] == raw[start..][1..] == CharsBytes(cs) + [QUOTE] + rest;
      var escaped;
      i, escaped := ScanString(raw, start);
      assert |raw| - i == |rest|;
      assert raw[start..i] == raw[start..][..i - start] == StringBytes(cs);
      if escaped {
        var b := unescape(raw[start..i]);
        rb.PushSlice(b, 0, |b|);
      } else {
        assert raw[start + 1..i - 1] == raw[start..i][1..i - start - 1] == CharsBytes(cs);
        rb.PushSlice(raw, start + 1, i - 1);
      }
    }
  }

  /** One row, from behind its opening bracket to behind its closing one. */
  method RawRow(rb: RowBuf, raw: seq<byte>, start: nat, ncols: nat, unescape: seq<byte> -> seq<byte>, ghost r: JsonRow, ghost rest: seq<byte>)
    returns (body: seq<byte>, i: nat)
    requires rb.Valid() && start <= |raw| && raw[start..] == Inner(r) + ([0x5d] + rest) && ncols == |r.cells| && ParsesStrings(unescape)
    modifies rb, rb.buf
    ensures rb.Valid() && (rb.buf == old(rb.buf) || fresh(rb.buf)) && body == RowBody(ParsedCells(unescape, r.cells))
    ensures start <= i <= |raw| && raw[i..] == rest
  {
    hide CellBytes, CellsText, Separated, Token, ParsesStrings, ParsedCells, SkipWs;
    rb.Reset();
    NoCells();
    i := start;
    ghost var cells := r.cells;
    ghost var end := [0x5d] + rest;
    ghost var parsed := ParsedCells(unescape, cells);
    for col := 0 to ncols
      invariant rb.Valid() && (rb.buf == old(rb.buf) || fresh(rb.buf)) && rb.Cells() == CellBytes(parsed[..col])
      invariant start <= i <= |raw| && raw[i..] == (if ncols == 0 then r.gap else AfterCells(cells, col)) + end
    {
      NextCell(cells, col, end);
      NthParsed(unescape, cells, col);
      assert parsed[..col + 1] == parsed[..col] + [parsed[col]];
      CellBytesAppend(parsed[..col], [parsed[col]]);
      i := SkipSeparators(raw, i);
      ghost var i1 := i;
      i := RawCell(rb, raw, i, unescape, cells[col], AfterCells(cells, col + 1) + end);
      assert |raw[i..]| < |raw[i1..]|;
    }
    assert parsed[..ncols] == parsed;
    if ncols > 0 { assert cells[ncols - 1].after + [] == cells[ncols - 1].after; }
    WsToToken(if ncols == 0 then r.gap else cells[ncols - 1].after, end);
    i := SkipWsFrom(raw, i);
    assert raw[i] == raw[i..][0];
    if raw[i] == 0x5d { i := i + 1; }
    assert raw[i..] == end[1..];
    body := rb.Finish(ncols);
  }

  lemma {:induction false} NthParsed(unescape: seq<byte> -> seq<byte>, cells: seq<JsonCell>, k: nat)
    requires k < |cells|
    ensures ParsedCells(unescape, cells)[k] == ParsedCell(unescape, cells[k])
  {
    if k > 0 { NthParsed(unescape, cells[1..], k - 1); }
  }

  /** What stands after `k` rows. */
  function AfterRows(rows: seq<JsonRow>, k: nat): seq<byte>
    requires k <= |rows|
  {
    if k == 0 then RowsText(rows)
    else rows[k - 1].after + (if k < |rows| then [COMMA] + RowsText(rows[k..]) else [])
  }

  lemma RowsStep(rows: seq<JsonRow>, k: nat)
    requires k < |rows|
    ensures RowsText(rows[k..]) == rows[k].before + ([0x5b] + (Inner(rows[k]) + ([0x5d] + AfterRows(rows, k + 1))))
  {
    hide Inner;
    var more := if k + 1 < |rows| then [COMMA] + RowsText(rows[k + 1..]) else [];
    var r := rows[k];
    assert rows[k..][0] == r && rows[k..][1..] == rows[k + 1..];
    hide RowsText;
    Assoc(r.before + [0x5b] + Inner(r) + [0x5d], r.after, more);
    Assoc(r.before + [0x5b] + Inner(r), [0x5d], r.after + more);
    Assoc(r.before + [0x5b], Inner(r), [0x5d] + (r.after + more));
    Assoc(r.before, [0x5b], Inner(r) + ([0x5d] + (r.after + more)));
  }

  lemma NextRow(rows: seq<JsonRow>, k: nat, rest: seq<byte>)
    requires k < |rows|
    ensures Separated(AfterRows(rows, k) + rest) == [0x5b] + (Inner(rows[k]) + ([0x5d] + (AfterRows(rows, k + 1) + rest)))
  {
    RowsStep(rows, k);
    hide Separated, Inner, RowsText;
    var x := AfterRows(rows, k + 1);
    var t := [0x5b] + (Inner(rows[k]) + ([0x5d] + (x + rest)));
    Assoc([0x5d], x, rest);
    Assoc(Inner(rows[k]), [0x5d] + x, rest);
    Assoc([0x5b], Inner(rows[k]) + ([0x5d] + x), rest);
    Assoc(rows[k].before, [0x5b] + (Inner(rows[k]) + ([0x5d] + x)), rest);
    if k == 0 {
      assert rows[0..] == rows;
      WsToToken(rows[k].before, t);
    } else {
      var text := RowsText(rows[k..]);
      Assoc(rows[k - 1].after, [COMMA] + text, rest);
      Assoc([COMMA], text, rest);
      CommaToToken(rows[k - 1].after, rows[k].before, t);
    }
  }

  /** The scan over the rows array, from behind its opening bracket: for every array of rows of strings and
      nulls with one cell a column, the bodies are those of the parsed rows. */
  method DecodeSingleRaw(raw: seq<byte>, start: nat, ncols: nat, unescape: seq<byte> -> seq<byte>, ghost gap: ws, ghost rows: seq<JsonRow>, ghost rest: seq<byte>)
    returns (bodies: seq<seq<byte>>, i: nat)
    requires start <= |raw| && raw[start..] == (if rows == [] then gap else RowsText(rows)) + ([0x5d] + rest)
    requires (forall k :: 0 <= k < |rows| ==> |rows[k].cells| == ncols) && ParsesStrings(unescape)
    ensures bodies == Bodies(unescape, rows) && i <= |raw| && raw[i..] == rest
  {
    hide RowsText, Inner, Separated, ParsesStrings, RowBody, SkipWs;
    var rb := new RowBuf();
    bodies := [];
    i := start;
    ghost var end := [0x5d] + rest;
    ghost var k := 0;
    assert AfterRows(rows, 0) == RowsText(rows);
    NoBodies(unescape, rows);
    while true
      invariant rb.Valid() && fresh(rb) && fresh(rb.buf)
      invariant k <= |rows| && bodies == Bodies(unescape, rows[..k])
      invariant i <= |raw| && raw[i..] == (if rows == [] then gap else AfterRows(rows, k)) + end
      decreases |rows| - k
    {
      if k == |rows| {
        if k > 0 { assert rows[k - 1].after + [] == rows[k - 1].after; }
        WsToToken(if rows == [] then gap else rows[k - 1].after, end);
      } else {
        NextRow(rows, k, end);
      }
      i := SkipSeparators(raw, i);
      assert raw[i] == raw[i..][0];
      if raw[i] == 0x5d {
        assert k == |rows| && rows[..k] == rows && raw[i + 1..] == raw[i..][1..] == rest;
        i := i + 1;
        return;
      }
      assert raw[i + 1..] == raw[i..][1..];
      var body;
      body, i := RawRow(rb, raw, i + 1, ncols, unescape, rows[k], AfterRows(rows, k + 1) + end);
      BodiesSnoc(unescape, rows, k);
      bodies := bodies + [body];
      k := k + 1;
    }
  }

  /** The bodies of the scan are, row by row, those that the parse-first path builds from the parsed cells. */
  lemma {:induction false} BodiesAt(unescape: seq<byte> -> seq<byte>, rows: seq<JsonRow>, k: nat)
    requires k < |rows|
    ensures |Bodies(unescape, rows)| == |rows| && Bodies(unescape, rows)[k] == RowBody(ParsedCells(unescape, rows[k].cells))
    decreases |rows|
  {
    hide RowBody;
    if |rows| == 1 { assert Bodies(unescape, rows[1..]) == []; } else { BodiesAt(unescape, rows[1..], if k > 0 then k - 1 else 0); }
  }

  /** Both decoders on the same rows, once as text and once parsed: they build the same list of rows. */
  method DecodersAgree(raw: seq<byte>, start: nat, ncols: nat, parsed: seq<seq<cell>>, unescape: seq<byte> -> seq<byte>,
                       ghost gap: ws, ghost rows: seq<JsonRow>, ghost rest: seq<byte>)
    returns (scanned: seq<seq<byte>>, built: seq<seq<byte>>)
    requires start <= |raw| && raw[start..] == (if rows == [] then gap else RowsText(rows)) + ([0x5d] + rest)
    requires (forall k :: 0 <= k < |rows| ==> |rows[k].cells| == ncols) && ParsesStrings(unescape)
    requires |parsed| == |rows| && forall k :: 0 <= k < |rows| ==> parsed[k] == ParsedCells(unescape, rows[k].cells)
    ensures scanned == built
  {
    hide RowsText, RowBody, ParsesStrings, ParsedCells, Bodies;
    var i;
    scanned, i := DecodeSingleRaw(raw, start, ncols, unescape, gap, rows, rest);
    built := DecodeParsed(parsed);
    BodiesCount(unescape, rows);
    forall k | 0 <= k < |rows| ensures scanned[k] == built[k] { BodiesAt(unescape, rows, k); }
  }

  lemma BodiesCount(unescape: seq<byte> -> seq<byte>, rows: seq<JsonRow>)
    ensures |Bodies(unescape, rows)| == |rows|
  {
    if rows != [] { BodiesAt(unescape, rows, 0); }
  }

  lemma NoBodies(unescape: seq<byte> -> seq<byte>, rows: seq<JsonRow>)
    ensures Bodies(unescape, rows[..0]) == []
  {
  }

  lemma {:induction false} BodiesAppend(unescape: seq<byte> -> seq<byte>, a: seq<JsonRow>, b: seq<JsonRow>)
    ensures Bodies(unescape, a + b) == Bodies(unescape, a) + Bodies(unescape, b)
    decreases |a|
  {
    hide RowBody;
    if a == [] {
      assert a + b == b;
    } else {
      assert (a + b)[1..] == a[1..] + b;
      BodiesAppend(unescape, a[1..], b);
    }
  }

  lemma BodiesSnoc(unescape: seq<byte> -> seq<byte>, rows: seq<JsonRow>, k: nat)
    requires k < |rows|
    ensures Bodies(unescape, rows[..k + 1]) == Bodies(unescape, rows[..k]) + [RowBody(ParsedCells(unescape, rows[k].cells))]
  {
    hide RowBody;
    assert rows[..k + 1] == rows[..k] + [rows[k]] && [rows[k]][1..] == [];
    BodiesAppend(unescape, rows[..k], [rows[k]]);
  }
}
