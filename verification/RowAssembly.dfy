/** Nested row objects: the literal that the compiled mapper evaluates, and the tree that the interpreted
    mapper assembles. */
module RowAssembly {
  import opened Bytes
  import opened Objects

  /** A decoded value: null, anything else that is no row object, or an object with its keys in order. */
  datatype Value = Null | Scalar(id: nat) | Object(fields: seq<(string, Value)>)

  // ---- columns and the tree ----

  /** `path`: the groups that the column lies in; `groupNullable`: for each of them, whether it becomes null on
      a miss. `xform` numbers a transform. */
  datatype Col = Col(name: string, path: seq<string>, groupNullable: seq<bool>, nullable: bool, xform: Option<nat>)

  datatype Leaf = Leaf(key: string, i: nat, xform: Option<nat>, required: bool)
  datatype Group = Group(key: string, node: Node)
  datatype Node = Node(leaves: seq<Leaf>, groups: seq<Group>, nullable: bool)

  function Empty(nullable: bool): Node
  {
    Node([], [], nullable)
  }

  /** The place of the group `key`, or the number of groups. */
  function Find(groups: seq<Group>, key: string): (k: nat)
    ensures k <= |groups| && (k < |groups| ==> groups[k].key == key) && forall j :: 0 <= j < k ==> groups[j].key != key
  {
    if groups == [] || groups[0].key == key then 0 else 1 + Find(groups[1..], key)
  }

  /** The leaf goes to the end of its path, whose groups are made as they are met. */
  function Insert(node: Node, path: seq<string>, gn: seq<bool>, leaf: Leaf): Node
    decreases |path|
  {
    if path == [] then node.(leaves := node.leaves + [leaf])
    else
      var k := Find(node.groups, path[0]);
      var child := if k < |node.groups| then node.groups[k].node else Empty(gn != [] && gn[0]);
      var child' := Insert(child, path[1..], if gn == [] then [] else gn[1..], leaf);
      node.(groups := if k < |node.groups| then node.groups[k := Group(path[0], child')] else node.groups + [Group(path[0], child')])
  }

  function LeafOf(c: Col, i: nat): Leaf
  {
    Leaf(c.name, i, c.xform, !c.nullable)
  }

  /** The columns from number `start` on are inserted in order. */
  function InsertAll(node: Node, cols: seq<Col>, start: nat): Node
    decreases |cols|
  {
    if cols == [] then node
    else InsertAll(Insert(node, cols[0].path, cols[0].groupNullable, LeafOf(cols[0], start)), cols[1..], start + 1)
  }

  function Tree(cols: seq<Col>): Node
  {
    InsertAll(Empty(false), cols, 0)
  }

  // ---- the interpreted assembly ----

  /** Transforms by number. */
  type Apply = (nat, Value) -> Value

  function At(vals: seq<Value>, i: nat): Value
  {
    if i < |vals| then vals[i] else Null
  }

  function LeafValue(l: Leaf, vals: seq<Value>, apply: Apply): Value
  {
    if l.xform.Some? && At(vals, l.i) != Null then apply(l.xform.value, At(vals, l.i)) else At(vals, l.i)
  }

  function LeafFields(leaves: seq<Leaf>, vals: seq<Value>, apply: Apply): (r: seq<(string, Value)>)
    ensures |r| == |leaves| && forall j :: 0 <= j < |leaves| ==> r[j] == (leaves[j].key, LeafValue(leaves[j], vals, apply))
  {
    if leaves == [] then [] else [(leaves[0].key, LeafValue(leaves[0], vals, apply))] + LeafFields(leaves[1..], vals, apply)
  }

  predicate AllNull(node: Node, vals: seq<Value>)
    decreases node, 0
  {
    (forall j :: 0 <= j < |node.leaves| ==> At(vals, node.leaves[j].i) == Null) && GroupsAllNull(node.groups, vals)
  }

  predicate GroupsAllNull(groups: seq<Group>, vals: seq<Value>)
    decreases groups, 1
  {
    groups != [] ==> AllNull(groups[0].node, vals) && GroupsAllNull(groups[1..], vals)
  }

  predicate AnyRequired(leaves: seq<Leaf>)
  {
    exists j :: 0 <= j < |leaves| && leaves[j].required
  }

  /** A missed group: a required leaf is null, or, with no required leaf, every field is. */
  predicate Missed(node: Node, vals: seq<Value>)
  {
    if AnyRequired(node.leaves) then exists j :: 0 <= j < |node.leaves| && node.leaves[j].required && At(vals, node.leaves[j].i) == Null
    else AllNull(node, vals)
  }

  function Assemble(node: Node, vals: seq<Value>, apply: Apply): Value
    decreases node, 1
  {
    Object(Assigned([], LeafFields(node.leaves, vals, apply) + GroupFields(node.groups, vals, apply)))
  }

  function GroupFields(groups: seq<Group>, vals: seq<Value>, apply: Apply): (r: seq<(string, Value)>)
    ensures |r| == |groups|
    decreases groups, 0
  {
    if groups == [] then []
    else [(groups[0].key, AssembleGroup(groups[0].node, vals, apply))] + GroupFields(groups[1..], vals, apply)
  }

  function AssembleGroup(node: Node, vals: seq<Value>, apply: Apply): Value
    decreases node, 2
  {
    if node.nullable && Missed(node, vals) then Null else Assemble(node, vals, apply)
  }

  // ---- the generated literal ----

  datatype Test = IsNull(i: nat) | AnyOf(tests: seq<Test>) | AllOf(tests: seq<Test>)

  /** `Call` applies the transform in place `k` of the table that the literal closes over. */
  datatype Expr = NullLit | Var(i: nat) | Call(k: nat, arg: Expr) | Cond(test: Test, yes: Expr, no: Expr)
                | ObjectLit(parts: seq<Part>) | ArrayLit(elems: seq<Expr>)

  datatype Part = Part(key: string, e: Expr)

  predicate Holds(t: Test, vals: seq<Value>)
  {
    match t
    case IsNull(i) => At(vals, i) == Null
    case AnyOf(tests) => exists j :: 0 <= j < |tests| && Holds(tests[j], vals)
    case AllOf(tests) => forall j :: 0 <= j < |tests| ==> Holds(tests[j], vals)
  }

  /** `table` holds the numbers of the transforms. */
  function Eval(e: Expr, vals: seq<Value>, table: seq<nat>, apply: Apply): Value
    decreases e, 0
  {
    match e
    case NullLit => Null
    case Var(i) => At(vals, i)
    case Call(k, arg) => var v := Eval(arg, vals, table, apply); if k < |table| then apply(table[k], v) else v
    case Cond(test, yes, no) => if Holds(test, vals) then Eval(yes, vals, table, apply) else Eval(no, vals, table, apply)
    case ObjectLit(parts) => Object(Assigned([], EvalParts(parts, vals, table, apply)))
    case ArrayLit(elems) => Object(EvalElems(elems, vals, table, apply))
  }

  function EvalParts(parts: seq<Part>, vals: seq<Value>, table: seq<nat>, apply: Apply): (r: seq<(string, Value)>)
    ensures |r| == |parts|
    decreases parts, 1
  {
    if parts == [] then [] else [(parts[0].key, Eval(parts[0].e, vals, table, apply))] + EvalParts(parts[1..], vals, table, apply)
  }

  /** An array row, its entries without keys. */
  function EvalElems(elems: seq<Expr>, vals: seq<Value>, table: seq<nat>, apply: Apply): (r: seq<(string, Value)>)
    ensures |r| == |elems|
    decreases elems, 1
  {
    if elems == [] then [] else [("", Eval(elems[0], vals, table, apply))] + EvalElems(elems[1..], vals, table, apply)
  }

  /** The value of column `i`, its transform put into the table, which a null skips. */
  function ColVal(i: nat, xform: Option<nat>, table: seq<nat>): (Expr, seq<nat>)
  {
    match xform
    case None => (Var(i), table)
    case Some(x) => (Cond(IsNull(i), NullLit, Call(|table|, Var(i))), table + [x])
  }

  function LeafParts(leaves: seq<Leaf>, table: seq<nat>): (seq<Part>, seq<nat>)
    decreases |leaves|
  {
    if leaves == [] then ([], table)
    else
      var (e, t1) := ColVal(leaves[0].i, leaves[0].xform, table);
      var (rest, t2) := LeafParts(leaves[1..], t1);
      ([Part(leaves[0].key, e)] + rest, t2)
  }

  /** Every column below a group. */
  function AllIdx(node: Node): seq<nat>
    decreases node, 0
  {
    LeafIdx(node.leaves) + GroupsIdx(node.groups)
  }

  function LeafIdx(leaves: seq<Leaf>): (r: seq<nat>)
    ensures |r| == |leaves| && forall j :: 0 <= j < |leaves| ==> r[j] == leaves[j].i
  {
    if leaves == [] then [] else [leaves[0].i] + LeafIdx(leaves[1..])
  }

  function GroupsIdx(groups: seq<Group>): seq<nat>
    decreases groups, 1
  {
    if groups == [] then [] else AllIdx(groups[0].node) + GroupsIdx(groups[1..])
  }

  function Nulls(idx: seq<nat>): (r: seq<Test>)
    ensures |r| == |idx| && forall j :: 0 <= j < |idx| ==> r[j] == IsNull(idx[j])
  {
    seq(|idx|, j requires 0 <= j < |idx| => IsNull(idx[j]))
  }

  function RequiredIdx(leaves: seq<Leaf>): seq<nat>
  {
    if leaves == [] then [] else (if leaves[0].required then [leaves[0].i] else []) + RequiredIdx(leaves[1..])
  }

  function Body(node: Node, table: seq<nat>): (Expr, seq<nat>)
    decreases node, 1
  {
    var (leaves, t1) := LeafParts(node.leaves, table);
    var (groups, t2) := GroupParts(node.groups, t1);
    (ObjectLit(leaves + groups), t2)
  }

  function GroupParts(groups: seq<Group>, table: seq<nat>): (seq<Part>, seq<nat>)
    decreases groups, 0
  {
    if groups == [] then ([], table)
    else
      var (e, t1) := GroupExpr(groups[0].node, table);
      var (rest, t2) := GroupParts(groups[1..], t1);
      ([Part(groups[0].key, e)] + rest, t2)
  }

  function GroupExpr(node: Node, table: seq<nat>): (Expr, seq<nat>)
    decreases node, 2
  {
    var (b, t) := Body(node, table);
    if !node.nullable then (b, t)
    else
      var req := RequiredIdx(node.leaves);
      if req != [] then (Cond(AnyOf(Nulls(req)), NullLit, b), t)
      else
        var all := AllIdx(node);
        if all != [] then (Cond(AllOf(Nulls(all)), NullLit, b), t) else (b, t)
  }

  // ---- they agree ----

  /** Every group has a column somewhere below it. */
  predicate Inhabited(node: Node)
    decreases node, 0
  {
    GroupsInhabited(node.groups)
  }

  predicate GroupsInhabited(groups: seq<Group>)
    decreases groups, 1
  {
    groups != [] ==> AllIdx(groups[0].node) != [] && Inhabited(groups[0].node) && GroupsInhabited(groups[1..])
  }

  lemma {:induction false} TableGrows(node: Node, table: seq<nat>)
    ensures table <= Body(node, table).1 && Body(node, table).1 == GroupExpr(node, table).1
    decreases node, 1
  {
    LeafTableGrows(node.leaves, table);
    GroupsTableGrows(node.groups, LeafParts(node.leaves, table).1);
  }

  lemma {:induction false} LeafTableGrows(leaves: seq<Leaf>, table: seq<nat>)
    ensures table <= LeafParts(leaves, table).1
    decreases |leaves|
  {
    if leaves != [] { LeafTableGrows(leaves[1..], ColVal(leaves[0].i, leaves[0].xform, table).1); }
  }

  lemma {:induction false} GroupsTableGrows(groups: seq<Group>, table: seq<nat>)
    ensures table <= GroupParts(groups, table).1
    decreases groups, 0
  {
    if groups != [] {
      TableGrows(groups[0].node, table);
      GroupsTableGrows(groups[1..], GroupExpr(groups[0].node, table).1);
    }
  }

  function XformValue(i: nat, xform: Option<nat>, vals: seq<Value>, apply: Apply): Value
  {
    if xform.Some? && At(vals, i) != Null then apply(xform.value, At(vals, i)) else At(vals, i)
  }

  lemma ColValAgrees(i: nat, xform: Option<nat>, table: seq<nat>, full: seq<nat>, vals: seq<Value>, apply: Apply)
    requires ColVal(i, xform, table).1 <= full
    ensures Eval(ColVal(i, xform, table).0, vals, full, apply) == XformValue(i, xform, vals, apply)
  {
    if xform.Some? {
      assert full[|table|] == (table + [xform.value])[|table|] == xform.value;
      assert Eval(Var(i), vals, full, apply) == At(vals, i);
      assert Eval(Call(|table|, Var(i)), vals, full, apply) == apply(xform.value, At(vals, i));
      assert Holds(IsNull(i), vals) == (At(vals, i) == Null);
    }
  }

  lemma {:induction false} LeavesAgree(leaves: seq<Leaf>, table: seq<nat>, full: seq<nat>, vals: seq<Value>, apply: Apply)
    requires LeafParts(leaves, table).1 <= full
    ensures EvalParts(LeafParts(leaves, table).0, vals, full, apply) == LeafFields(leaves, vals, apply)
    decreases |leaves|
  {
    if leaves != [] {
      var (e, t1) := ColVal(leaves[0].i, leaves[0].xform, table);
      LeafTableGrows(leaves[1..], t1);
      LeavesAgree(leaves[1..], t1, full, vals, apply);
      var parts := LeafParts(leaves, table).0;
      assert parts[1..] == LeafParts(leaves[1..], t1).0;
      ColValAgrees(leaves[0].i, leaves[0].xform, table, full, vals, apply);
    }
  }

  lemma {:induction false} RequiredAgree(leaves: seq<Leaf>, vals: seq<Value>)
    ensures RequiredIdx(leaves) != [] <==> AnyRequired(leaves)
    ensures Holds(AnyOf(Nulls(RequiredIdx(leaves))), vals) <==>
              exists j :: 0 <= j < |leaves| && leaves[j].required && At(vals, leaves[j].i) == Null
  {
    SomeNull(RequiredIdx(leaves), vals);
    RequiredMembers(leaves);
    if AnyRequired(leaves) {
      var j :| 0 <= j < |leaves| && leaves[j].required;
      assert leaves[j].i in RequiredIdx(leaves);
    }
    if RequiredIdx(leaves) != [] { assert RequiredIdx(leaves)[0] in RequiredIdx(leaves); }
  }

  lemma SomeNull(idx: seq<nat>, vals: seq<Value>)
    ensures Holds(AnyOf(Nulls(idx)), vals) <==> exists i :: i in idx && At(vals, i) == Null
    ensures Holds(AllOf(Nulls(idx)), vals) <==> forall i :: i in idx ==> At(vals, i) == Null
  {
    NullTests(idx, Nulls(idx), vals);
  }

  lemma NullTests(idx: seq<nat>, tests: seq<Test>, vals: seq<Value>)
    requires |tests| == |idx| && forall j :: 0 <= j < |tests| ==> tests[j] == IsNull(idx[j])
    ensures Holds(AnyOf(tests), vals) <==> exists i :: i in idx && At(vals, i) == Null
    ensures Holds(AllOf(tests), vals) <==> forall i :: i in idx ==> At(vals, i) == Null
  {
    forall j | 0 <= j < |tests| ensures Holds(tests[j], vals) == (At(vals, idx[j]) == Null) && idx[j] in idx { IsNullHolds(idx[j], vals); }
    forall i | i in idx ensures exists j :: 0 <= j < |tests| && idx[j] == i && Holds(tests[j], vals) == (At(vals, i) == Null) {
      var j :| 0 <= j < |idx| && idx[j] == i;
      assert Holds(tests[j], vals) == (At(vals, i) == Null);
    }
  }

  lemma IsNullHolds(i: nat, vals: seq<Value>)
    ensures Holds(IsNull(i), vals) == (At(vals, i) == Null)
  {
  }

  lemma {:induction false} RequiredMembers(leaves: seq<Leaf>)
    ensures forall i :: i in RequiredIdx(leaves) <==> exists j :: 0 <= j < |leaves| && leaves[j].required && leaves[j].i == i
  {
    if leaves != [] {
      RequiredMembers(leaves[1..]);
      assert forall j :: 0 < j < |leaves| ==> leaves[j] == leaves[1..][j - 1];
      forall i | i in RequiredIdx(leaves) ensures exists j :: 0 <= j < |leaves| && leaves[j].required && leaves[j].i == i {
        if i in RequiredIdx(leaves[1..]) {
          var j :| 0 <= j < |leaves[1..]| && leaves[1..][j].required && leaves[1..][j].i == i;
          assert leaves[j + 1].required && leaves[j + 1].i == i;
        }
      }
      forall j | 0 <= j < |leaves| && leaves[j].required ensures leaves[j].i in RequiredIdx(leaves) {
        if j > 0 { assert leaves[1..][j - 1].i in RequiredIdx(leaves[1..]); }
      }
    }
  }

  lemma {:induction false} AllNullIsAllIdx(node: Node, vals: seq<Value>)
    ensures AllNull(node, vals) <==> forall i :: i in AllIdx(node) ==> At(vals, i) == Null
    decreases node, 0
  {
    GroupsNullIsIdx(node.groups, vals);
    assert forall j :: 0 <= j < |node.leaves| ==> node.leaves[j].i == LeafIdx(node.leaves)[j] && LeafIdx(node.leaves)[j] in AllIdx(node);
    assert forall i :: i in AllIdx(node) <==> i in LeafIdx(node.leaves) || i in GroupsIdx(node.groups);
  }

  lemma {:induction false} GroupsNullIsIdx(groups: seq<Group>, vals: seq<Value>)
    ensures GroupsAllNull(groups, vals) <==> forall i :: i in GroupsIdx(groups) ==> At(vals, i) == Null
    decreases groups, 1
  {
    if groups != [] {
      AllNullIsAllIdx(groups[0].node, vals);
      GroupsNullIsIdx(groups[1..], vals);
      assert forall i :: i in GroupsIdx(groups) <==> i in AllIdx(groups[0].node) || i in GroupsIdx(groups[1..]);
    }
  }

  lemma {:induction false} EvalPartsAppend(a: seq<Part>, b: seq<Part>, vals: seq<Value>, table: seq<nat>, apply: Apply)
    ensures EvalParts(a + b, vals, table, apply) == EvalParts(a, vals, table, apply) + EvalParts(b, vals, table, apply)
    decreases |a|
  {
    if a == [] {
      assert a + b == b;
    } else {
      assert (a + b)[1..] == a[1..] + b;
      EvalPartsAppend(a[1..], b, vals, table, apply);
    }
  }

  lemma {:induction false} BodyAgrees(node: Node, table: seq<nat>, full: seq<nat>, vals: seq<Value>, apply: Apply)
    requires Inhabited(node) && Body(node, table).1 <= full
    ensures Eval(Body(node, table).0, vals, full, apply) == Assemble(node, vals, apply)
    decreases node, 1
  {
    var (leaves, t1) := LeafParts(node.leaves, table);
    var (groups, t2) := GroupParts(node.groups, t1);
    GroupsTableGrows(node.groups, t1);
    LeavesAgree(node.leaves, table, full, vals, apply);
    GroupsAgree(node.groups, t1, full, vals, apply);
    EvalPartsAppend(leaves, groups, vals, full, apply);
  }

  lemma {:induction false} GroupsAgree(groups: seq<Group>, table: seq<nat>, full: seq<nat>, vals: seq<Value>, apply: Apply)
    requires GroupsInhabited(groups) && GroupParts(groups, table).1 <= full
    ensures EvalParts(GroupParts(groups, table).0, vals, full, apply) == GroupFields(groups, vals, apply)
    decreases groups, 0
  {
    if groups != [] {
      var (e, t1) := GroupExpr(groups[0].node, table);
      GroupsTableGrows(groups[1..], t1);
      GroupAgrees(groups[0].node, table, full, vals, apply);
      GroupsAgree(groups[1..], t1, full, vals, apply);
      var parts := GroupParts(groups, table).0;
      assert parts[1..] == GroupParts(groups[1..], t1).0;
    }
  }

  lemma {:induction false} GroupAgrees(node: Node, table: seq<nat>, full: seq<nat>, vals: seq<Value>, apply: Apply)
    requires Inhabited(node) && AllIdx(node) != [] && GroupExpr(node, table).1 <= full
    ensures Eval(GroupExpr(node, table).0, vals, full, apply) == AssembleGroup(node, vals, apply)
    decreases node, 2
  {
    TableGrows(node, table);
    BodyAgrees(node, table, full, vals, apply);
    RequiredAgree(node.leaves, vals);
    AllNullIsAllIdx(node, vals);
    SomeNull(AllIdx(node), vals);
  }

  // ---- trees of columns ----

  lemma {:induction false} ReplaceGroup(groups: seq<Group>, k: nat, g: Group)
    requires GroupsInhabited(groups) && k <= |groups| && AllIdx(g.node) != [] && Inhabited(g.node)
    ensures GroupsInhabited(if k < |groups| then groups[k := g] else groups + [g])
    decreases |groups|
  {
    var r := if k < |groups| then groups[k := g] else groups + [g];
    if groups == [] {
      assert r == [g] && r[1..] == [];
    } else if k == 0 {
      assert r[1..] == groups[1..];
    } else {
      ReplaceGroup(groups[1..], k - 1, g);
      assert r[1..] == if k < |groups| then groups[1..][k - 1 := g] else groups[1..] + [g];
    }
  }

  lemma {:induction false} GroupsIdxIncludes(groups: seq<Group>, k: nat)
    requires k < |groups| && AllIdx(groups[k].node) != []
    ensures GroupsIdx(groups) != []
  {
    if k > 0 { GroupsIdxIncludes(groups[1..], k - 1); }
  }

  lemma {:induction false} NthInhabited(groups: seq<Group>, k: nat)
    requires GroupsInhabited(groups) && k < |groups|
    ensures Inhabited(groups[k].node)
  {
    if k > 0 { NthInhabited(groups[1..], k - 1); }
  }

  /** A group is made only with a column to put into it. */
  lemma {:induction false} InsertInhabits(node: Node, path: seq<string>, gn: seq<bool>, leaf: Leaf)
    requires Inhabited(node)
    ensures Inhabited(Insert(node, path, gn, leaf)) && AllIdx(Insert(node, path, gn, leaf)) != []
    decreases |path|
  {
    if path != [] {
      var k := Find(node.groups, path[0]);
      if k < |node.groups| { NthInhabited(node.groups, k); }
      var child := if k < |node.groups| then node.groups[k].node else Empty(gn != [] && gn[0]);
      InsertInhabits(child, path[1..], if gn == [] then [] else gn[1..], leaf);
      var g := Group(path[0], Insert(child, path[1..], if gn == [] then [] else gn[1..], leaf));
      ReplaceGroup(node.groups, k, g);
      GroupsIdxIncludes(if k < |node.groups| then node.groups[k := g] else node.groups + [g], k);
    }
  }

  lemma {:induction false} InsertAllInhabits(node: Node, cols: seq<Col>, start: nat)
    requires Inhabited(node)
    ensures Inhabited(InsertAll(node, cols, start))
    decreases |cols|
  {
    if cols != [] {
      InsertInhabits(node, cols[0].path, cols[0].groupNullable, LeafOf(cols[0], start));
      InsertAllInhabits(Insert(node, cols[0].path, cols[0].groupNullable, LeafOf(cols[0], start)), cols[1..], start + 1);
    }
  }

  /** For every list of columns and every row, the generated literal evaluates to the object that the
      interpreted mapper assembles: nested groups, missed groups, nullable leaves and transforms included.
      `table` holds what earlier parts of the generated function put there. */
  lemma LiteralAgrees(cols: seq<Col>, table: seq<nat>, vals: seq<Value>, apply: Apply)
    ensures Eval(Body(Tree(cols), table).0, vals, Body(Tree(cols), table).1, apply) == Assemble(Tree(cols), vals, apply)
  {
    InsertAllInhabits(Empty(false), cols, 0);
    BodyAgrees(Tree(cols), table, Body(Tree(cols), table).1, vals, apply);
  }

  // ---- flat rows and array rows ----

  /** The interpreted mapper's fast path: no groups, no transforms. */
  function FlatFields(cols: seq<Col>, vals: seq<Value>, start: nat): seq<(string, Value)>
    decreases |cols|
  {
    if cols == [] then [] else [(cols[0].name, At(vals, start))] + FlatFields(cols[1..], vals, start + 1)
  }

  function FlatLeaves(cols: seq<Col>, start: nat): seq<Leaf>
    decreases |cols|
  {
    if cols == [] then [] else [LeafOf(cols[0], start)] + FlatLeaves(cols[1..], start + 1)
  }

  predicate Flat(cols: seq<Col>)
  {
    forall c :: c in cols ==> c.path == [] && c.xform.None?
  }

  lemma {:induction false} FlatTree(node: Node, cols: seq<Col>, start: nat)
    requires Flat(cols)
    ensures InsertAll(node, cols, start) == node.(leaves := node.leaves + FlatLeaves(cols, start))
    decreases |cols|
  {
    if cols == [] {
      assert node.leaves + [] == node.leaves;
    } else {
      assert cols[0] in cols && Flat(cols[1..]);
      FlatTree(node.(leaves := node.leaves + [LeafOf(cols[0], start)]), cols[1..], start + 1);
      Assoc(node.leaves, [LeafOf(cols[0], start)], FlatLeaves(cols[1..], start + 1));
    }
  }

  lemma {:induction false} FlatLeafFields(cols: seq<Col>, start: nat, vals: seq<Value>, apply: Apply)
    requires Flat(cols)
    ensures LeafFields(FlatLeaves(cols, start), vals, apply) == FlatFields(cols, vals, start)
    decreases |cols|
  {
    if cols != [] {
      assert cols[0] in cols && Flat(cols[1..]);
      FlatLeafFields(cols[1..], start + 1, vals, apply);
      assert FlatLeaves(cols, start)[1..] == FlatLeaves(cols[1..], start + 1);
    }
  }

  /** Without groups and transforms the fast path assembles what the tree does. */
  lemma FlatAgrees(cols: seq<Col>, vals: seq<Value>, apply: Apply)
    requires Flat(cols)
    ensures Object(Assigned([], FlatFields(cols, vals, 0))) == Assemble(Tree(cols), vals, apply)
  {
    FlatTree(Empty(false), cols, 0);
    FlatLeafFields(cols, 0, vals, apply);
    assert [] + FlatLeaves(cols, 0) == FlatLeaves(cols, 0);
    assert FlatFields(cols, vals, 0) + [] == FlatFields(cols, vals, 0);
  }

  /** An array row of the compiled mapper. */
  function ArrayElems(cols: seq<Col>, start: nat, table: seq<nat>): (seq<Expr>, seq<nat>)
    decreases |cols|
  {
    if cols == [] then ([], table)
    else
      var (e, t1) := ColVal(start, cols[0].xform, table);
      var (rest, t2) := ArrayElems(cols[1..], start + 1, t1);
      ([e] + rest, t2)
  }

  /** An array row of the interpreted mapper: it applies no transforms. */
  function ArrayRow(cols: seq<Col>, start: nat, vals: seq<Value>): (r: seq<(string, Value)>)
    ensures |r| == |cols|
    decreases |cols|
  {
    if cols == [] then [] else [("", At(vals, start))] + ArrayRow(cols[1..], start + 1, vals)
  }

  lemma {:induction false} ArrayTableGrows(cols: seq<Col>, start: nat, table: seq<nat>)
    ensures table <= ArrayElems(cols, start, table).1 && |ArrayElems(cols, start, table).0| == |cols|
    decreases |cols|
  {
    if cols != [] { ArrayTableGrows(cols[1..], start + 1, ColVal(start, cols[0].xform, table).1); }
  }

  /** A transform that changes the value of its column in this row. */
  predicate Changed(c: Col, i: nat, vals: seq<Value>, apply: Apply)
  {
    c.xform.Some? && At(vals, i) != Null && apply(c.xform.value, At(vals, i)) != At(vals, i)
  }

  /** No transform changes a value of this row. */
  predicate NoneChanged(cols: seq<Col>, start: nat, vals: seq<Value>, apply: Apply)
    decreases |cols|
  {
    cols != [] ==> !Changed(cols[0], start, vals, apply) && NoneChanged(cols[1..], start + 1, vals, apply)
  }

  lemma SplitRows(a: seq<(string, Value)>, b: seq<(string, Value)>)
    requires |a| == |b| > 0
    ensures a == b <==> a[0] == b[0] && a[1..] == b[1..]
  {
    assert a == [a[0]] + a[1..] && b == [b[0]] + b[1..];
  }

  /** The two mappers do not always agree on array rows: they do for a row exactly if no transform changes a
      value in it. */
  lemma {:induction false} ArrayRowsAgreeIff(cols: seq<Col>, start: nat, table: seq<nat>, full: seq<nat>, vals: seq<Value>, apply: Apply)
    requires ArrayElems(cols, start, table).1 <= full
    ensures EvalElems(ArrayElems(cols, start, table).0, vals, full, apply) == ArrayRow(cols, start, vals)
            <==> NoneChanged(cols, start, vals, apply)
    decreases |cols|
  {
    ArrayTableGrows(cols, start, table);
    if cols != [] {
      var (e, t1) := ColVal(start, cols[0].xform, table);
      ArrayTableGrows(cols[1..], start + 1, t1);
      ColValAgrees(start, cols[0].xform, table, full, vals, apply);
      ArrayRowsAgreeIff(cols[1..], start + 1, t1, full, vals, apply);
      var elems := ArrayElems(cols, start, table).0;
      assert elems[1..] == ArrayElems(cols[1..], start + 1, t1).0;
      SplitRows(EvalElems(elems, vals, full, apply), ArrayRow(cols, start, vals));
    }
  }

  /** Without transforms they agree on every row. */
  lemma {:induction false} NoTransformsNoneChanged(cols: seq<Col>, start: nat, vals: seq<Value>, apply: Apply)
    requires forall c :: c in cols ==> c.xform.None?
    ensures NoneChanged(cols, start, vals, apply)
    decreases |cols|
  {
    if cols != [] {
      assert cols[0] in cols;
      NoTransformsNoneChanged(cols[1..], start + 1, vals, apply);
    }
  }

  /** The two mappers build the same array from this row. */
  predicate ArraysAgree(cols: seq<Col>, vals: seq<Value>, apply: Apply)
  {
    EvalElems(ArrayElems(cols, 0, []).0, vals, ArrayElems(cols, 0, []).1, apply) == ArrayRow(cols, 0, vals)
  }

  /** The two mappers agree on array rows, whatever the row and the transforms, exactly if no column has one. */
  lemma ArrayMappersAgreeIff(cols: seq<Col>)
    ensures (forall vals, apply :: |vals| == |cols| ==> ArraysAgree(cols, vals, apply)) <==> (forall c :: c in cols ==> c.xform.None?)
  {
    var full := ArrayElems(cols, 0, []).1;
    if c :| c in cols && c.xform.Some? {
      var i :| 0 <= i < |cols| && cols[i] == c;
      var vals, apply := seq(|cols|, _ => Scalar(1)), (k: nat, v: Value) => Scalar(2);
      SomeChanged(cols, 0, vals, apply, i);
      ArrayRowsAgreeIff(cols, 0, [], full, vals, apply);
      assert !ArraysAgree(cols, vals, apply);
    } else {
      forall vals, apply ensures ArraysAgree(cols, vals, apply) {
        NoTransformsNoneChanged(cols, 0, vals, apply);
        ArrayRowsAgreeIff(cols, 0, [], full, vals, apply);
      }
    }
  }

  lemma {:induction false} SomeChanged(cols: seq<Col>, start: nat, vals: seq<Value>, apply: Apply, i: nat)
    requires i < |cols| && Changed(cols[i], start + i, vals, apply)
    ensures !NoneChanged(cols, start, vals, apply)
    decreases i
  {
    if i > 0 { SomeChanged(cols[1..], start + 1, vals, apply, i - 1); }
  }

  /** One column with a transform, one row: the compiled mapper applies it, the interpreted one does not. */
  lemma ArrayRowsDiffer()
    ensures var c := Col("n", [], [], false, Some(0)); var vals := [Scalar(1)]; var apply := (k: nat, v: Value) => Scalar(2);
            EvalElems(ArrayElems([c], 0, []).0, vals, ArrayElems([c], 0, []).1, apply) != ArrayRow([c], 0, vals)
  {
    var c := Col("n", [], [], false, Some(0));
    var apply := (k: nat, v: Value) => Scalar(2);
    ArrayRowsAgreeIff([c], 0, [], ArrayElems([c], 0, []).1, [Scalar(1)], apply);
    assert Changed([c][0], 0, [Scalar(1)], apply);
  }

  // ---- flattening a shape ----

  /** `Collect` is a group of columns; None of `xform` and `nullable` mean anything for it. */
  datatype Entry = Field(name: string, nullable: bool, xform: Option<nat>) | Collect(name: string, nullable: bool, spec: seq<Entry>)

  /** The columns in the order of the SELECT list. */
  function ShapeCols(spec: seq<Entry>, path: seq<string>, gn: seq<bool>): seq<Col>
    decreases spec
  {
    if spec == [] then []
    else
      (match spec[0]
       case Field(name, nullable, xform) => [Col(name, path, gn, nullable, xform)]
       case Collect(name, nullable, inner) => ShapeCols(inner, path + [name], gn + [nullable]))
      + ShapeCols(spec[1..], path, gn)
  }

  function Width(spec: seq<Entry>): nat
    decreases spec
  {
    if spec == [] then 0 else (if spec[0].Field? then 1 else Width(spec[0].spec)) + Width(spec[1..])
  }

  /** The nesting that the shape declares; columns are numbered in order from `start`. */
  function ShapeLeaves(spec: seq<Entry>, start: nat): seq<Leaf>
    decreases spec
  {
    if spec == [] then []
    else match spec[0]
      case Field(name, nullable, xform) => [Leaf(name, start, xform, !nullable)] + ShapeLeaves(spec[1..], start + 1)
      case Collect(_, _, inner) => ShapeLeaves(spec[1..], start + Width(inner))
  }

  function ShapeGroups(spec: seq<Entry>, start: nat): seq<Group>
    decreases spec
  {
    if spec == [] then []
    else match spec[0]
      case Field(_, _, _) => ShapeGroups(spec[1..], start + 1)
      case Collect(name, nullable, inner) =>
        [Group(name, Node(ShapeLeaves(inner, start), ShapeGroups(inner, start), nullable))] + ShapeGroups(spec[1..], start + Width(inner))
  }

  /** Keys of one level are distinct, and no group is empty. */
  predicate ValidShape(spec: seq<Entry>)
    decreases spec
  {
    spec != [] ==>
      && (forall j :: 0 < j < |spec| ==> spec[j].name != spec[0].name)
      && (spec[0].Collect? ==> Width(spec[0].spec) > 0 && ValidShape(spec[0].spec))
      && ValidShape(spec[1..])
  }

  /** A column moved one group further out. */
  function Prefixed(c: Col, name: string, nullable: bool): Col
  {
    c.(path := [name] + c.path, groupNullable := [nullable] + c.groupNullable)
  }

  function PrefixAll(cols: seq<Col>, name: string, nullable: bool): (r: seq<Col>)
    ensures |r| == |cols| && forall j :: 0 <= j < |cols| ==> r[j] == Prefixed(cols[j], name, nullable)
  {
    seq(|cols|, j requires 0 <= j < |cols| => Prefixed(cols[j], name, nullable))
  }

  lemma PrefixAppend(a: seq<Col>, b: seq<Col>, name: string, nullable: bool)
    ensures PrefixAll(a + b, name, nullable) == PrefixAll(a, name, nullable) + PrefixAll(b, name, nullable)
  {
  }

  lemma ShapeColsStep(spec: seq<Entry>, path: seq<string>, gn: seq<bool>)
    requires spec != []
    ensures ShapeCols(spec, path, gn) == EntryCols(spec[0], path, gn) + ShapeCols(spec[1..], path, gn)
  {
  }

  function EntryCols(e: Entry, path: seq<string>, gn: seq<bool>): seq<Col>
  {
    match e
    case Field(name, nullable, xform) => [Col(name, path, gn, nullable, xform)]
    case Collect(name, nullable, inner) => ShapeCols(inner, path + [name], gn + [nullable])
  }

  lemma {:induction false} ShapeColsPrefix(spec: seq<Entry>, path: seq<string>, gn: seq<bool>, name: string, nullable: bool)
    ensures ShapeCols(spec, [name] + path, [nullable] + gn) == PrefixAll(ShapeCols(spec, path, gn), name, nullable)
    decreases spec, 1
  {
    if spec != [] {
      hide *;
      ShapeColsStep(spec, path, gn);
      ShapeColsStep(spec, [name] + path, [nullable] + gn);
      ShapeColsPrefix(spec[1..], path, gn, name, nullable);
      EntryColsPrefix(spec[0], path, gn, name, nullable);
      PrefixAppend(EntryCols(spec[0], path, gn), ShapeCols(spec[1..], path, gn), name, nullable);
    }
  }

  lemma {:induction false} EntryColsPrefix(e: Entry, path: seq<string>, gn: seq<bool>, name: string, nullable: bool)
    ensures EntryCols(e, [name] + path, [nullable] + gn) == PrefixAll(EntryCols(e, path, gn), name, nullable)
    decreases e, 0
  {
    if e.Collect? {
      var n, b := e.name, e.nullable;
      hide ShapeCols, PrefixAll;
      ShapeColsPrefix(e.spec, path + [n], gn + [b], name, nullable);
      assert ([name] + path) + [n] == [name] + (path + [n]) && ([nullable] + gn) + [b] == [nullable] + (gn + [b]);
    }
  }

  lemma {:induction false} InsertAllAppend(node: Node, a: seq<Col>, b: seq<Col>, start: nat)
    ensures InsertAll(node, a + b, start) == InsertAll(InsertAll(node, a, start), b, start + |a|)
    decreases |a|
  {
    if a == [] {
      assert a + b == b;
    } else {
      assert (a + b)[1..] == a[1..] + b;
      InsertAllAppend(Insert(node, a[0].path, a[0].groupNullable, LeafOf(a[0], start)), a[1..], b, start + 1);
    }
  }

  lemma FindAppended(groups: seq<Group>, g: Group)
    requires Find(groups, g.key) == |groups|
    ensures Find(groups + [g], g.key) == |groups|
  {
    var k := Find(groups + [g], g.key);
    assert (groups + [g])[|groups|].key == g.key;
  }

  /** Columns of one group, inserted one after the other, are inserted into that group. */
  lemma {:induction false} InsertIntoGroup(node: Node, cols: seq<Col>, start: nat, name: string, nullable: bool, child: Node)
    requires Find(node.groups, name) == |node.groups|
    ensures InsertAll(node.(groups := node.groups + [Group(name, child)]), PrefixAll(cols, name, nullable), start)
              == node.(groups := node.groups + [Group(name, InsertAll(child, cols, start))])
    decreases |cols|
  {
    if cols != [] {
      var c := Prefixed(cols[0], name, nullable);
      var with := node.(groups := node.groups + [Group(name, child)]);
      FindAppended(node.groups, Group(name, child));
      var leaf := LeafOf(cols[0], start);
      var child' := Insert(child, cols[0].path, cols[0].groupNullable, leaf);
      assert c.path[1..] == cols[0].path && c.groupNullable[1..] == cols[0].groupNullable;
      assert with.groups[|node.groups| := Group(name, child')] == node.groups + [Group(name, child')];
      assert Insert(with, c.path, c.groupNullable, leaf) == node.(groups := node.groups + [Group(name, child')]);
      assert PrefixAll(cols, name, nullable)[1..] == PrefixAll(cols[1..], name, nullable);
      InsertIntoGroup(node, cols[1..], start + 1, name, nullable, child');
    }
  }

  /** The first column of a group makes it. */
  lemma FirstMakesGroup(node: Node, cols: seq<Col>, start: nat, name: string, nullable: bool)
    requires cols != [] && Find(node.groups, name) == |node.groups|
    ensures InsertAll(node, PrefixAll(cols, name, nullable), start)
              == node.(groups := node.groups + [Group(name, InsertAll(Empty(nullable), cols, start))])
  {
    var c := Prefixed(cols[0], name, nullable);
    var leaf := LeafOf(cols[0], start);
    var child := Insert(Empty(nullable), cols[0].path, cols[0].groupNullable, leaf);
    assert c.path[1..] == cols[0].path && c.groupNullable[1..] == cols[0].groupNullable;
    assert Insert(node, c.path, c.groupNullable, leaf) == node.(groups := node.groups + [Group(name, child)]);
    assert PrefixAll(cols, name, nullable)[1..] == PrefixAll(cols[1..], name, nullable);
    InsertIntoGroup(node, cols[1..], start + 1, name, nullable, child);
  }

  lemma {:induction false} ColsWidth(spec: seq<Entry>, path: seq<string>, gn: seq<bool>)
    ensures |ShapeCols(spec, path, gn)| == Width(spec)
    decreases spec
  {
    if spec != [] {
      ColsWidth(spec[1..], path, gn);
      if spec[0].Collect? { ColsWidth(spec[0].spec, path + [spec[0].name], gn + [spec[0].nullable]); }
    }
  }

  lemma {:induction false} FindFresh(groups: seq<Group>, key: string)
    requires forall g :: g in groups ==> g.key != key
    ensures Find(groups, key) == |groups|
  {
    if groups != [] {
      assert groups[0] in groups;
      FindFresh(groups[1..], key);
    }
  }

  /** No group of `node` has a key of the shape. */
  ghost predicate FreshFor(node: Node, spec: seq<Entry>)
  {
    forall g, e :: g in node.groups && e in spec ==> g.key != e.name
  }

  lemma ValidParts(spec: seq<Entry>)
    requires ValidShape(spec) && spec != []
    ensures ValidShape(spec[1..]) && (spec[0].Collect? ==> Width(spec[0].spec) > 0 && ValidShape(spec[0].spec))
    ensures forall e :: e in spec[1..] ==> e.name != spec[0].name
  {
  }

  lemma FieldStep(node: Node, spec: seq<Entry>, start: nat)
    requires spec != [] && spec[0].Field?
    ensures var l := Leaf(spec[0].name, start, spec[0].xform, !spec[0].nullable);
            && InsertAll(node, ShapeCols(spec, [], []), start)
                 == InsertAll(node.(leaves := node.leaves + [l]), ShapeCols(spec[1..], [], []), start + 1)
            && ShapeLeaves(spec, start) == [l] + ShapeLeaves(spec[1..], start + 1)
            && ShapeGroups(spec, start) == ShapeGroups(spec[1..], start + 1)
  {
    var c := Col(spec[0].name, [], [], spec[0].nullable, spec[0].xform);
    var rest := ShapeCols(spec[1..], [], []);
    assert ShapeCols(spec, [], []) == [c] + rest;
    assert ([c] + rest)[1..] == rest;
  }

  function GroupOf(e: Entry, start: nat): Group
    requires e.Collect?
  {
    Group(e.name, Node(ShapeLeaves(e.spec, start), ShapeGroups(e.spec, start), e.nullable))
  }

  lemma CollectStep(node: Node, spec: seq<Entry>, start: nat)
    requires spec != [] && spec[0].Collect?
    ensures ShapeCols(spec, [], []) == ShapeCols(spec[0].spec, [spec[0].name], [spec[0].nullable]) + ShapeCols(spec[1..], [], [])
    ensures ShapeLeaves(spec, start) == ShapeLeaves(spec[1..], start + Width(spec[0].spec))
    ensures ShapeGroups(spec, start) == [GroupOf(spec[0], start)] + ShapeGroups(spec[1..], start + Width(spec[0].spec))
  {
    assert [] + [spec[0].name] == [spec[0].name] && [] + [spec[0].nullable] == [spec[0].nullable];
  }

  lemma FreshAfter(node: Node, spec: seq<Entry>, g: Group)
    requires FreshFor(node, spec) && spec != [] && g.key == spec[0].name && forall e :: e in spec[1..] ==> e.name != spec[0].name
    ensures FreshFor(node.(groups := node.groups + [g]), spec[1..]) && FreshFor(node, spec[1..])
    ensures Find(node.groups, g.key) == |node.groups|
  {
    assert spec[0] in spec && forall e :: e in spec[1..] ==> e in spec;
    FindFresh(node.groups, g.key);
  }

  /** The columns of a shape, inserted into a node that has none of its groups, add its leaves and its groups. */
  lemma {:induction false} ShapeRebuilds(node: Node, spec: seq<Entry>, start: nat)
    requires ValidShape(spec) && FreshFor(node, spec)
    ensures InsertAll(node, ShapeCols(spec, [], []), start)
              == Node(node.leaves + ShapeLeaves(spec, start), node.groups + ShapeGroups(spec, start), node.nullable)
    decreases spec, 1
  {
    if spec == [] {
      assert node.leaves + [] == node.leaves && node.groups + [] == node.groups;
    } else {
      hide *;
      ValidParts(spec);
      if spec[0].Field? { FieldRebuilds(node, spec, start); } else { GroupRebuilds(node, spec, start); }
    }
  }

  lemma {:induction false} FieldRebuilds(node: Node, spec: seq<Entry>, start: nat)
    requires spec != [] && spec[0].Field? && ValidShape(spec[1..]) && FreshFor(node, spec)
    ensures InsertAll(node, ShapeCols(spec, [], []), start)
              == Node(node.leaves + ShapeLeaves(spec, start), node.groups + ShapeGroups(spec, start), node.nullable)
    decreases spec, 0
  {
    hide *;
    var l := Leaf(spec[0].name, start, spec[0].xform, !spec[0].nullable);
    FieldStep(node, spec, start);
    FreshLeaf(node, spec, l);
    ShapeRebuilds(node.(leaves := node.leaves + [l]), spec[1..], start + 1);
    Assoc(node.leaves, [l], ShapeLeaves(spec[1..], start + 1));
  }

  lemma {:induction false} GroupRebuilds(node: Node, spec: seq<Entry>, start: nat)
    requires spec != [] && spec[0].Collect? && ValidShape(spec[1..]) && FreshFor(node, spec)
    requires Width(spec[0].spec) > 0 && ValidShape(spec[0].spec) && forall e :: e in spec[1..] ==> e.name != spec[0].name
    ensures InsertAll(node, ShapeCols(spec, [], []), start)
              == Node(node.leaves + ShapeLeaves(spec, start), node.groups + ShapeGroups(spec, start), node.nullable)
    decreases spec, 0
  {
    hide *;
    var g := GroupOf(spec[0], start);
    GroupKey(spec[0], start);
    CollectStep(node, spec, start);
    FreshAfter(node, spec, g);
    CollectRebuilds(node, spec[0], spec[1..], start);
    ShapeRebuilds(node.(groups := node.groups + [g]), spec[1..], start + Width(spec[0].spec));
    Assoc(node.groups, [g], ShapeGroups(spec[1..], start + Width(spec[0].spec)));
  }

  lemma GroupKey(e: Entry, start: nat)
    requires e.Collect?
    ensures GroupOf(e, start).key == e.name
  {
  }

  lemma FreshLeaf(node: Node, spec: seq<Entry>, l: Leaf)
    requires FreshFor(node, spec) && spec != []
    ensures FreshFor(node.(leaves := node.leaves + [l]), spec[1..])
  {
    assert forall e :: e in spec[1..] ==> e in spec;
  }

  /** The columns of a group make it, with its leaves and groups. */
  lemma {:induction false} CollectRebuilds(node: Node, e: Entry, rest: seq<Entry>, start: nat)
    requires e.Collect? && Width(e.spec) > 0 && ValidShape(e.spec) && Find(node.groups, e.name) == |node.groups|
    ensures InsertAll(node, ShapeCols(e.spec, [e.name], [e.nullable]) + ShapeCols(rest, [], []), start)
              == InsertAll(node.(groups := node.groups + [GroupOf(e, start)]), ShapeCols(rest, [], []), start + Width(e.spec))
    decreases e.spec, 2
  {
    hide *;
    var inner := ShapeCols(e.spec, [], []);
    ColsWidth(e.spec, [], []);
    GroupCols(e);
    FirstMakesGroup(node, inner, start, e.name, e.nullable);
    NoGroups(e.nullable, e.spec);
    ShapeRebuilds(Empty(e.nullable), e.spec, start);
    ChildIs(e, start);
    InsertAllAppend(node, PrefixAll(inner, e.name, e.nullable), ShapeCols(rest, [], []), start);
  }

  lemma GroupCols(e: Entry)
    requires e.Collect?
    ensures ShapeCols(e.spec, [e.name], [e.nullable]) == PrefixAll(ShapeCols(e.spec, [], []), e.name, e.nullable)
  {
    hide ShapeCols, PrefixAll;
    assert [e.name] + [] == [e.name] && [e.nullable] + [] == [e.nullable];
    ShapeColsPrefix(e.spec, [], [], e.name, e.nullable);
  }

  lemma NoGroups(nullable: bool, spec: seq<Entry>)
    ensures FreshFor(Empty(nullable), spec)
  {
  }

  lemma ChildIs(e: Entry, start: nat)
    requires e.Collect?
    requires InsertAll(Empty(e.nullable), ShapeCols(e.spec, [], []), start) ==
               Node(Empty(e.nullable).leaves + ShapeLeaves(e.spec, start), Empty(e.nullable).groups + ShapeGroups(e.spec, start), Empty(e.nullable).nullable)
    ensures GroupOf(e, start) == Group(e.name, InsertAll(Empty(e.nullable), ShapeCols(e.spec, [], []), start))
  {
    hide InsertAll, ShapeCols, ShapeLeaves, ShapeGroups;
    assert [] + ShapeLeaves(e.spec, start) == ShapeLeaves(e.spec, start) && [] + ShapeGroups(e.spec, start) == ShapeGroups(e.spec, start);
  }

  /** Keys of one level are distinct, at every level. */
  predicate Distinct(spec: seq<Entry>)
    decreases spec
  {
    spec != [] ==>
      && (forall j :: 0 < j < |spec| ==> spec[j].name != spec[0].name)
      && (spec[0].Collect? ==> Distinct(spec[0].spec)) && Distinct(spec[1..])
  }

  predicate NoEmptyGroup(spec: seq<Entry>)
    decreases spec
  {
    spec != [] ==> (spec[0].Collect? ==> Width(spec[0].spec) > 0 && NoEmptyGroup(spec[0].spec)) && NoEmptyGroup(spec[1..])
  }

  lemma {:induction false} ValidIs(spec: seq<Entry>)
    ensures ValidShape(spec) <==> Distinct(spec) && NoEmptyGroup(spec)
    decreases spec
  {
    if spec != [] {
      ValidIs(spec[1..]);
      if spec[0].Collect? { ValidIs(spec[0].spec); }
    }
  }

  function ShapeTree(spec: seq<Entry>): Node
  {
    Node(ShapeLeaves(spec, 0), ShapeGroups(spec, 0), false)
  }

  /** The columns below a shape's nesting are those of the shape. */
  lemma {:induction false} ShapeWidth(spec: seq<Entry>, start: nat)
    ensures |ShapeLeaves(spec, start)| + |GroupsIdx(ShapeGroups(spec, start))| == Width(spec)
    decreases spec
  {
    if spec != [] {
      match spec[0]
      case Field(_, _, _) => ShapeWidth(spec[1..], start + 1);
      case Collect(name, nullable, inner) =>
        ShapeWidth(inner, start);
        ShapeWidth(spec[1..], start + Width(inner));
        var gs := ShapeGroups(spec, start);
        assert gs[1..] == ShapeGroups(spec[1..], start + Width(inner));
    }
  }

  lemma {:induction false} InhabitedShape(spec: seq<Entry>, start: nat)
    requires GroupsInhabited(ShapeGroups(spec, start))
    ensures NoEmptyGroup(spec)
    decreases spec
  {
    if spec != [] {
      match spec[0]
      case Field(_, _, _) => InhabitedShape(spec[1..], start + 1);
      case Collect(name, nullable, inner) =>
        var gs := ShapeGroups(spec, start);
        assert gs[1..] == ShapeGroups(spec[1..], start + Width(inner));
        ShapeWidth(inner, start);
        InhabitedShape(inner, start);
        InhabitedShape(spec[1..], start + Width(inner));
    }
  }

  /** Flattening a shape into columns and building the tree of the columns gives the shape's own nesting
      exactly if no group is empty: an empty one leaves no column to make it from. */
  lemma FlattenRoundTripIff(spec: seq<Entry>)
    requires Distinct(spec)
    ensures Tree(ShapeCols(spec, [], [])) == ShapeTree(spec) <==> NoEmptyGroup(spec)
  {
    ValidIs(spec);
    if NoEmptyGroup(spec) {
      hide Tree;
      ShapeRebuilds(Empty(false), spec, 0);
      assert Tree(ShapeCols(spec, [], [])) == InsertAll(Empty(false), ShapeCols(spec, [], []), 0) by { TreeIs(ShapeCols(spec, [], [])); }
      assert [] + ShapeLeaves(spec, 0) == ShapeLeaves(spec, 0) && [] + ShapeGroups(spec, 0) == ShapeGroups(spec, 0);
    } else {
      InsertAllInhabits(Empty(false), ShapeCols(spec, [], []), 0);
      if Tree(ShapeCols(spec, [], [])) == ShapeTree(spec) { InhabitedShape(spec, 0); }
    }
  }

  lemma TreeIs(cols: seq<Col>)
    ensures Tree(cols) == InsertAll(Empty(false), cols, 0)
  {
  }

  // ---- the loops ----

  method BuildObjTree(cols: seq<Col>) returns (root: Node)
    ensures root == Tree(cols)
  {
    root := Empty(false);
    for i := 0 to |cols|
      invariant InsertAll(root, cols[i..], i) == Tree(cols)
    {
      assert cols[i..][1..] == cols[i + 1..];
      root := Insert(root, cols[i].path, cols[i].groupNullable, LeafOf(cols[i], i));
    }
  }

  /** One key after the other: the leaves, then the groups. */
  method AssembleObj(node: Node, vals: seq<Value>, apply: Apply) returns (obj: Value)
    ensures obj == Assemble(node, vals, apply)
    decreases node, 1
  {
    var fields: seq<(string, Value)> := [];
    ghost var leaves := LeafFields(node.leaves, vals, apply);
    for j := 0 to |node.leaves|
      invariant fields == Assigned([], leaves[..j])
    {
      var l := node.leaves[j];
      assert leaves[..j + 1] == leaves[..j] + [leaves[j]];
      AssignedSnoc([], leaves[..j], leaves[j]);
      fields := SetKey(fields, l.key, if l.xform.Some? && At(vals, l.i) != Null then apply(l.xform.value, At(vals, l.i)) else At(vals, l.i));
    }
    assert leaves[..|node.leaves|] == leaves;
    ghost var groups := GroupFields(node.groups, vals, apply);
    assert leaves + groups[..0] == leaves;
    for j := 0 to |node.groups|
      invariant fields == Assigned([], leaves + groups[..j])
    {
      NthGroupField(node.groups, j, vals, apply);
      assert leaves + groups[..j + 1] == leaves + groups[..j] + [groups[j]];
      AssignedSnoc([], leaves + groups[..j], groups[j]);
      var g := AssembleObjGroup(node.groups[j].node, vals, apply);
      fields := SetKey(fields, node.groups[j].key, g);
    }
    assert groups[..|node.groups|] == groups;
    obj := Object(fields);
  }

  lemma {:induction false} NthGroupField(groups: seq<Group>, j: nat, vals: seq<Value>, apply: Apply)
    requires j < |groups|
    ensures GroupFields(groups, vals, apply)[j] == (groups[j].key, AssembleGroup(groups[j].node, vals, apply))
  {
    if j > 0 { NthGroupField(groups[1..], j - 1, vals, apply); }
  }

  method GroupAllNull(node: Node, vals: seq<Value>) returns (r: bool)
    ensures r == AllNull(node, vals)
    decreases node, 0
  {
    for j := 0 to |node.leaves|
      invariant forall k :: 0 <= k < j ==> At(vals, node.leaves[k].i) == Null
    {
      if At(vals, node.leaves[j].i) != Null { return false; }
    }
    for j := 0 to |node.groups|
      invariant GroupsAllNull(node.groups, vals) == GroupsAllNull(node.groups[j..], vals)
    {
      assert node.groups[j..][0] == node.groups[j] && node.groups[j..][1..] == node.groups[j + 1..];
      var all := GroupAllNull(node.groups[j].node, vals);
      if !all { return false; }
    }
    r := true;
  }

  method AssembleObjGroup(node: Node, vals: seq<Value>, apply: Apply) returns (v: Value)
    ensures v == AssembleGroup(node, vals, apply)
    decreases node, 2
  {
    if node.nullable {
      var anyRequired := false;
      for j := 0 to |node.leaves|
        invariant anyRequired == (exists k :: 0 <= k < j && node.leaves[k].required)
        invariant forall k :: 0 <= k < j && node.leaves[k].required ==> At(vals, node.leaves[k].i) != Null
      {
        if node.leaves[j].required {
          anyRequired := true;
          if At(vals, node.leaves[j].i) == Null { return Null; }
        }
      }
      if !anyRequired {
        var all := GroupAllNull(node, vals);
        if all { return Null; }
      }
    }
    v := AssembleObj(node, vals, apply);
  }
}
