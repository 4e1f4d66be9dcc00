/** Binary arrays of any number of dimensions, read back from the bytes that array_recv and the parameter
    encoder write. */
module BinaryArrays {
  import opened Bytes
  import opened Int64
  import opened WriterClass
  import opened Params

  /** An element's bytes, or a level of the nesting; None is a null. */
  datatype Node = Cell(v: Option<seq<byte>>) | Level(kids: seq<Node>)

  /** Every level has as many entries as its dimension says; cells stand below the last one. */
  predicate Shaped(dims: seq<nat>, x: Node)
    decreases x
  {
    if dims == [] then x.Cell? && (x.v.Some? ==> FitsI32(|x.v.value|))
    else x.Level? && |x.kids| == dims[0] && forall i :: 0 <= i < |x.kids| ==> Shaped(dims[1..], x.kids[i])
  }

  /** The cells in row-major order, each a length and its bytes, -1 for a null. */
  function Cells(x: Node): seq<byte>
    decreases x, 0
  {
    match x
    case Cell(None) => I32(-1)
    case Cell(Some(b)) => I32(|b|) + b
    case Level(kids) => AllCells(kids)
  }

  function AllCells(kids: seq<Node>): seq<byte>
    decreases kids, 1
  {
    if kids == [] then [] else Cells(kids[0]) + AllCells(kids[1..])
  }

  /** A length and a lower bound for each dimension. */
  function DimBytes(dims: seq<nat>, lower: int): seq<byte>
  {
    if dims == [] then [] else I32(dims[0]) + I32(lower) + DimBytes(dims[1..], lower)
  }

  function ArrayBytes(dims: seq<nat>, hasNull: int, elem: int, lower: int, x: Node): seq<byte>
  {
    I32(|dims|) + I32(hasNull) + I32(elem) + DimBytes(dims, lower) + Cells(x)
  }

  predicate Dimensions(dims: seq<nat>)
  {
    FitsI32(|dims|) && forall i :: 0 <= i < |dims| ==> FitsI32(dims[i])
  }

  // ---- reading ----

  method ReadDims(b: seq<byte>, start: nat, ndim: nat, ghost dims: seq<nat>, ghost lower: int, ghost rest: seq<byte>)
    returns (read: seq<nat>, p: nat)
    requires |dims| == ndim && Dimensions(dims) && FitsI32(lower) && start <= |b| && b[start..] == DimBytes(dims, lower) + rest
    ensures read == dims && p <= |b| && b[p..] == rest
  {
    hide I32;
    read, p := [], start;
    for d := 0 to ndim
      invariant read == dims[..d] && p <= |b| && b[p..] == DimBytes(dims[d..], lower) + rest
    {
      assert dims[d..][1..] == dims[d + 1..];
      ghost var tail := DimBytes(dims[d + 1..], lower) + rest;
      assert b[p..] == I32(dims[d]) + (I32(lower) + tail);
      I32Reads(b, p, dims[d], I32(lower) + tail);
      I32Reads(b, p + 4, lower, tail);
      read := read + [ReadI32(b, p)];
      p := p + 8;
    }
    assert b[p..] == [] + rest;
  }

  /** One level: its entries in order, each read from where the one before ended. */
  method ReadLevel(b: seq<byte>, dims: seq<nat>, dim: nat, start: nat, ghost x: Node, ghost rest: seq<byte>) returns (r: Node, p: nat)
    requires dim < |dims| && Shaped(dims[dim..], x) && start <= |b| && b[start..] == Cells(x) + rest
    ensures r == x && p <= |b| && b[p..] == rest
    decreases |dims| - dim
  {
    hide I32, Cells, AllCells, Shaped;
    LevelCells(dims[dim..], x);
    var out: seq<Node> := [];
    p := start;
    for i := 0 to dims[dim]
      invariant out == x.kids[..i] && p <= |b| && b[p..] == AllCells(x.kids[i..]) + rest
    {
      ghost var after := AllCells(x.kids[i + 1..]) + rest;
      KidCells(dims[dim..], x, i);
      Assoc(Cells(x.kids[i]), AllCells(x.kids[i + 1..]), rest);
      assert dims[dim..][1..] == dims[dim + 1..];
      var kid;
      if dim + 1 < |dims| {
        kid, p := ReadLevel(b, dims, dim + 1, p, x.kids[i], after);
      } else {
        kid, p := ReadCell(b, p, x.kids[i], after);
      }
      out := out + [kid];
    }
    assert x.kids[dims[dim]..] == [];
    r := Level(out);
  }

  lemma LevelCells(dims: seq<nat>, x: Node)
    requires dims != [] && Shaped(dims, x)
    ensures x.Level? && |x.kids| == dims[0] && Cells(x) == AllCells(x.kids) && x.kids[0..] == x.kids && AllCells([]) == []
  {
  }

  lemma KidCells(dims: seq<nat>, x: Node, i: nat)
    requires dims != [] && Shaped(dims, x) && x.Level? && i < |x.kids|
    ensures Shaped(dims[1..], x.kids[i]) && AllCells(x.kids[i..]) == Cells(x.kids[i]) + AllCells(x.kids[i + 1..])
  {
    assert x.kids[i..][1..] == x.kids[i + 1..];
  }

  method ReadCell(b: seq<byte>, start: nat, ghost x: Node, ghost rest: seq<byte>) returns (r: Node, p: nat)
    requires Shaped([], x) && start <= |b| && b[start..] == Cells(x) + rest
    ensures r == x && p <= |b| && b[p..] == rest
  {
    hide I32;
    if x.v.None? {
      I32Reads(b, start, -1, rest);
    } else {
      Assoc(I32(|x.v.value|), x.v.value, rest);
      I32Reads(b, start, |x.v.value|, x.v.value + rest);
    }
    var len := ReadI32(b, start);
    p := start + 4;
    if len == -1 { return Cell(None), p; }
    assert b[p..][..len] == b[p..p + len] && b[p..][len..] == b[p + len..];
    r := Cell(Some(b[p..p + len]));
    p := p + len;
  }

  /** Any array of any dimensions is read back as it was written; no dimension at all is the empty array. */
  method BinArray(b: seq<byte>, ghost dims: seq<nat>, ghost hasNull: int, ghost elem: int, ghost lower: int, ghost x: Node) returns (r: Node)
    requires Dimensions(dims) && FitsI32(hasNull) && FitsI32(elem) && FitsI32(lower) && b == ArrayBytes(dims, hasNull, elem, lower, x)
    requires if dims == [] then x == Level([]) else Shaped(dims, x)
    ensures r == x
  {
    hide I32, Shaped, Cells;
    ghost var tail := DimBytes(dims, lower) + Cells(x);
    assert b[0..] == I32(|dims|) + (I32(hasNull) + (I32(elem) + tail));
    I32Reads(b, 0, |dims|, I32(hasNull) + (I32(elem) + tail));
    I32Reads(b, 4, hasNull, I32(elem) + tail);
    I32Reads(b, 8, elem, tail);
    var ndim := ReadI32(b, 0);
    if ndim == 0 { return Level([]); }
    var read, p := ReadDims(b, 12, ndim, dims, lower, Cells(x));
    assert dims[0..] == dims && b[p..] == Cells(x) + [];
    r, p := ReadLevel(b, read, 0, p, x, []);
  }

  // ---- what the parameter encoder writes ----

  /** The cell of an element that fits its type. */
  function CellOf(wire: seq<byte>): Node
  {
    if wire == I32(-1) then Cell(None) else Cell(Some(if |wire| >= 4 then wire[4..] else []))
  }

  lemma ElementIsCell(oid: nat, v: Value)
    requires ElemEnc(oid, v).Fits?
    ensures var w := ElemEnc(oid, v).wire; |w| >= 4 && (w == I32(-1) <==> v.Null?)
    ensures Shaped([], CellOf(ElemEnc(oid, v).wire)) && Cells(CellOf(ElemEnc(oid, v).wire)) == ElemEnc(oid, v).wire
  {
    var w := ElemEnc(oid, v).wire;
    if !v.Null? {
      ElementLength(oid, v);
      NotMinusOne(|w| - 4);
      assert w == I32(|w| - 4) + w[4..];
    }
  }

  lemma NotMinusOne(n: nat)
    requires FitsI32(n)
    ensures forall rest: seq<byte> :: I32(n) + rest != I32(-1)
  {
    I32Inverse(n);
    I32Inverse(-1);
    hide I32;
    forall rest: seq<byte> ensures I32(n) + rest != I32(-1) {
      assert (I32(n) + rest)[..4] == I32(n) && I32(-1)[..4] == I32(-1);
    }
  }

  lemma ElementLength(oid: nat, v: Value)
    requires ElemEnc(oid, v).Fits? && !v.Null?
    ensures var w := ElemEnc(oid, v).wire; |w| >= 4 && FitsI32(|w| - 4) && w[..4] == I32(|w| - 4)
  {
  }

  function CellsOf(oid: nat, elems: seq<Value>): seq<Node>
  {
    if elems == [] then []
    else CellsOf(oid, elems[..|elems| - 1]) + [match ElemEnc(oid, elems[|elems| - 1]) case Fits(w) => CellOf(w) case _ => Cell(None)]
  }

  lemma {:induction false} AllCellsSnoc(kids: seq<Node>, x: Node)
    ensures AllCells(kids + [x]) == AllCells(kids) + Cells(x)
    decreases |kids|
  {
    if kids == [] {
      assert kids + [x] == [x] && AllCells([x][1..]) == [];
    } else {
      assert (kids + [x])[1..] == kids[1..] + [x];
      AllCellsSnoc(kids[1..], x);
      Assoc(Cells(kids[0]), AllCells(kids[1..]), Cells(x));
    }
  }

  lemma {:induction false} ElementsAreCells(oid: nat, elems: seq<Value>)
    requires ElemsEnc(oid, elems).Fits?
    ensures |CellsOf(oid, elems)| == |elems| && AllCells(CellsOf(oid, elems)) == ElemsEnc(oid, elems).wire
    ensures forall i :: 0 <= i < |elems| ==> Shaped([], CellsOf(oid, elems)[i]) && (CellsOf(oid, elems)[i] == Cell(None) <==> elems[i].Null?)
  {
    hide ElemEnc, CellOf;
    if elems != [] {
      var before, last := elems[..|elems| - 1], elems[|elems| - 1];
      ElementsAreCells(oid, before);
      ElementIsCell(oid, last);
      var w := ElemEnc(oid, last).wire;
      CellIsNull(w);
      AllCellsSnoc(CellsOf(oid, before), CellOf(w));
    }
  }

  lemma CellIsNull(w: seq<byte>)
    ensures CellOf(w) == Cell(None) <==> w == I32(-1)
  {
  }

  /** Every array that the parameter encoder writes in binary, behind its length, is one of the arrays that
      the reader reads back: one dimension with one cell for each element, null where the element is null. */
  lemma EncodedArrayIsReadable(oid: nat, elems: seq<Value>)
    requires BinaryArray(oid, elems).Fits? && FitsI32(oid)
    ensures var x := Level(CellsOf(oid, elems)); var dims: seq<nat> := if elems == [] then [] else [|elems|];
            && Dimensions(dims) && (if dims == [] then x == Level([]) else Shaped(dims, x))
            && BinaryArray(oid, elems).wire[4..] == ArrayBytes(dims, if HasNull(elems) then 1 else 0, oid, 1, x)
            && |x.kids| == |elems| && forall i :: 0 <= i < |elems| ==> (x.kids[i] == Cell(None) <==> elems[i].Null?)
  {
    ElementsAreCells(oid, elems);
    var body := ArrayHeader(oid, elems) + ElemsEnc(oid, elems).wire;
    BodyOf(oid, elems, body);
    HeaderBytes(oid, elems, Level(CellsOf(oid, elems)));
    var x := Level(CellsOf(oid, elems));
    if elems != [] { assert Shaped([|elems|], x) by { assert [|elems|][1..] == []; } }
  }

  lemma BodyOf(oid: nat, elems: seq<Value>, body: seq<byte>)
    requires BinaryArray(oid, elems).Fits? && body == ArrayHeader(oid, elems) + ElemsEnc(oid, elems).wire
    ensures BinaryArray(oid, elems).wire[4..] == body
  {
    hide ElemsEnc, ArrayHeader, I32;
    assert (I32(|body|) + body)[4..] == body;
  }

  lemma HeaderBytes(oid: nat, elems: seq<Value>, x: Node)
    ensures ArrayHeader(oid, elems) + Cells(x) ==
              ArrayBytes(if elems == [] then [] else [|elems|], if HasNull(elems) then 1 else 0, oid, 1, x)
  {
    hide I32, Cells;
    if elems != [] {
      var h := I32(1) + I32(if HasNull(elems) then 1 else 0) + I32(oid);
      assert [|elems|][1..] == [] && DimBytes([|elems|], 1) == I32(|elems|) + I32(1);
      Assoc(h, I32(|elems|), I32(1));
    }
  }
}
