/** A DataRow body turned into a row object by the interpreted and by the compiled mapper. */
module RowMapper {
  import opened Bytes
  import opened WriterClass
  import opened Objects
  import opened RowAssembly
  import RowContents

  /** The decoder of column `i`. */
  type Decode = (nat, seq<byte>) -> Value

  /** A cell is its bytes, or None for a null. */
  type cell = Option<seq<byte>>

  predicate ValidCells(cells: seq<cell>)
  {
    forall i :: 0 <= i < |cells| ==> cells[i].Some? ==> FitsI32(|cells[i].value|)
  }

  function CellBytes(cells: seq<cell>): seq<byte>
  {
    if cells == [] then []
    else (match cells[0] case None => I32(-1) case Some(b) => I32(|b|) + b) + CellBytes(cells[1..])
  }

  /** The body of a DataRow. */
  function RowBody(cells: seq<cell>): seq<byte>
  {
    I16(|cells|) + CellBytes(cells)
  }

  function Decoded(cells: seq<cell>, decode: Decode): (r: seq<Value>)
    ensures |r| == |cells|
  {
    seq(|cells|, i requires 0 <= i < |cells| => if cells[i].None? then Null else decode(i, cells[i].value))
  }

  lemma CellReads(b: seq<byte>, o: nat, cells: seq<cell>)
    requires o <= |b| && b[o..] == CellBytes(cells) && cells != [] && ValidCells(cells)
    ensures o + 4 <= |b|
    ensures var l := ReadI32(b, o);
            if cells[0].None? then l == -1 && b[o + 4..] == CellBytes(cells[1..])
            else l == |cells[0].value| && o + 4 + l <= |b| && b[o + 4..o + 4 + l] == cells[0].value && b[o + 4 + l..] == CellBytes(cells[1..])
  {
    hide I32, ReadI32;
    var rest := CellBytes(cells[1..]);
    match cells[0]
    case None => I32Reads(b, o, -1, rest);
    case Some(v) =>
      Assoc(I32(|v|), v, rest);
      I32Reads(b, o, |v|, v + rest);
      assert b[o + 4..o + 4 + |v|] == b[o + 4..][..|v|] && b[o + 4 + |v|..] == b[o + 4..][|v|..];
  }

  /** The cells of a row, one after the other behind the column count. */
  method ReadRow(b: seq<byte>, n: nat, decode: Decode, ghost cells: seq<cell>) returns (vals: seq<Value>)
    requires n == |cells| && ValidCells(cells) && b == RowBody(cells)
    ensures vals == Decoded(cells, decode)
  {
    hide I32, ReadI32, I16, CellBytes;
    var o: nat := 2;
    vals := [];
    assert b[2..] == CellBytes(cells) && cells[0..] == cells;
    for i := 0 to n
      invariant o <= |b| && b[o..] == CellBytes(cells[i..]) && |vals| == i && forall j :: 0 <= j < i ==> vals[j] == Decoded(cells, decode)[j]
    {
      CellReads(b, o, cells[i..]);
      assert cells[i..][0] == cells[i] && cells[i..][1..] == cells[i + 1..];
      var l := ReadI32(b, o);
      assert l != -1 ==> cells[i].Some? && l == |cells[i].value| && o + 4 + l <= |b|;
      o := o + 4;
      var v := Null;
      if l != -1 { v, o := decode(i, b[o..o + l]), o + l; }
      vals := vals + [v];
    }
  }

  /** The interpreted mapper: key by key without groups and transforms, else by the tree. */
  method InterpretedMapper(cols: seq<Col>, b: seq<byte>, decode: Decode, apply: Apply, ghost cells: seq<cell>) returns (row: Value)
    requires |cols| == |cells| && ValidCells(cells) && b == RowBody(cells)
    ensures row == Assemble(Tree(cols), Decoded(cells, decode), apply)
  {
    hide RowBody, ValidCells, Decoded;
    var vals := ReadRow(b, |cols|, decode, cells);
    if forall c :: c in cols ==> c.path == [] && c.xform.None? {
      FlatAgrees(cols, vals, apply);
      row := Object(Assigned([], FlatFields(cols, vals, 0)));
    } else {
      var tree := BuildObjTree(cols);
      row := AssembleObj(tree, vals, apply);
    }
  }

  /** The compiled mapper: the cells into temporaries, then the literal. */
  method CompiledMapper(cols: seq<Col>, b: seq<byte>, decode: Decode, apply: Apply, ghost cells: seq<cell>) returns (row: Value)
    requires |cols| == |cells| && ValidCells(cells) && b == RowBody(cells)
    ensures row == Assemble(Tree(cols), Decoded(cells, decode), apply)
  {
    hide RowBody, ValidCells, Decoded, Body, Eval, Assemble;
    var vals := ReadRow(b, |cols|, decode, cells);
    var tree := BuildObjTree(cols);
    var (literal, table) := Body(tree, []);
    LiteralAgrees(cols, [], vals, apply);
    row := Eval(literal, vals, table, apply);
  }

  /** The value of column `i` in its place in the row: null for a null cell, else what its decoder makes of the
      cell's bytes, with its transform unless that is null. */
  ghost predicate CellIsThere(cols: seq<Col>, cells: seq<cell>, decode: Decode, apply: Apply, row: Value, i: nat)
    requires |cols| == |cells| && i < |cols|
  {
    var v := if cells[i].None? then Null else decode(i, cells[i].value);
    RowContents.Follow(row, cols[i].path + [cols[i].name]) == Some(if v != Null && cols[i].xform.Some? then apply(cols[i].xform.value, v) else v)
  }

  /** For every DataRow and every list of columns the two mappers build the same object, and every column that
      the row shows has its value there. */
  method MappersAgree(cols: seq<Col>, b: seq<byte>, decode: Decode, apply: Apply, ghost cells: seq<cell>) returns (interpreted: Value, compiled: Value)
    requires |cols| == |cells| && ValidCells(cells) && b == RowBody(cells)
    ensures interpreted == compiled == Assemble(Tree(cols), Decoded(cells, decode), apply)
    ensures forall i :: 0 <= i < |cols| && RowContents.Shown(cols, Decoded(cells, decode), i) ==> CellIsThere(cols, cells, decode, apply, interpreted, i)
  {
    interpreted := InterpretedMapper(cols, b, decode, apply, cells);
    compiled := CompiledMapper(cols, b, decode, apply, cells);
    ghost var vals := Decoded(cells, decode);
    forall i | 0 <= i < |cols| && RowContents.Shown(cols, vals, i) ensures CellIsThere(cols, cells, decode, apply, interpreted, i) {
      RowContents.RowHolds(cols, vals, apply, i);
    }
  }
}
