/** What a row object holds, in terms of the columns and their values alone. */
module RowContents {
  import opened Bytes
  import opened Objects
  import opened RowAssembly

  // ---- looking into an object ----

  function Field(v: Value, k: string): Option<Value>
  {
    if v.Object? then FieldOf(v.fields, k) else None
  }

  /** v[path[0]][path[1]]... */
  function Follow(v: Value, path: seq<string>): Option<Value>
    decreases |path|
  {
    if path == [] then Some(v)
    else match Field(v, path[0])
      case None => None
      case Some(w) => Follow(w, path[1..])
  }

  // ---- the tree, path by path ----

  function NodeAt(node: Node, path: seq<string>): Option<Node>
    decreases |path|
  {
    if path == [] then Some(node)
    else
      var k := Find(node.groups, path[0]);
      if k < |node.groups| then NodeAt(node.groups[k].node, path[1..]) else None
  }

  function Drop(gn: seq<bool>, n: nat): seq<bool>
  {
    if n <= |gn| then gn[n..] else []
  }

  /** What an insertion finds at `path`: the node, or an empty one with the column's flag for that group. */
  function NodeOrEmpty(node: Node, path: seq<string>, gn: seq<bool>): Node
  {
    match NodeAt(node, path)
    case Some(n) => n
    case None => Empty(0 < |path| <= |gn| && gn[|path| - 1])
  }

  lemma {:induction false} FindReplaced(groups: seq<Group>, k: nat, g: Group, key: string)
    requires k < |groups| && k == Find(groups, g.key)
    ensures Find(groups[k := g], key) == Find(groups, key)
    decreases |groups|
  {
    if k > 0 && groups[0].key != key {
      assert groups[k := g][1..] == groups[1..][k - 1 := g];
      FindReplaced(groups[1..], k - 1, g, key);
    }
  }

  lemma {:induction false} FindAdded(groups: seq<Group>, g: Group, key: string)
    requires Find(groups, g.key) == |groups|
    ensures Find(groups + [g], key) == if key == g.key then |groups| else if Find(groups, key) < |groups| then Find(groups, key) else |groups| + 1
    decreases |groups|
  {
    if groups != [] {
      assert (groups + [g])[1..] == groups[1..] + [g] && groups[0].key != g.key;
      if groups[0].key != key { FindAdded(groups[1..], g, key); }
    } else {
      assert groups + [g] == [g] && [g][1..] == [];
    }
  }

  function ChildOf(node: Node, key: string, gn: seq<bool>): Node
  {
    var k := Find(node.groups, key);
    if k < |node.groups| then node.groups[k].node else Empty(gn != [] && gn[0])
  }

  function Inner(gn: seq<bool>): seq<bool>
  {
    if gn == [] then [] else gn[1..]
  }

  /** The group on the path gets the leaf; the others are as they were. */
  lemma GroupsAfterInsert(node: Node, path: seq<string>, gn: seq<bool>, leaf: Leaf, key: string)
    requires path != []
    ensures var r := Insert(node, path, gn, leaf); var k, k' := Find(node.groups, key), Find(r.groups, key);
            && r.leaves == node.leaves && r.nullable == node.nullable
            && (if key == path[0] then k' < |r.groups| && r.groups[k'].node == Insert(ChildOf(node, key, gn), path[1..], Inner(gn), leaf)
                else (k' < |r.groups| <==> k < |node.groups|) && (k < |node.groups| ==> r.groups[k'].node == node.groups[k].node))
  {
    var k := Find(node.groups, path[0]);
    var g := Group(path[0], Insert(ChildOf(node, path[0], gn), path[1..], Inner(gn), leaf));
    if k < |node.groups| { FindReplaced(node.groups, k, g, key); } else { FindAdded(node.groups, g, key); }
    hide Find;
  }

  lemma OrEmptyBelow(node: Node, p: seq<string>, gn: seq<bool>)
    requires p != []
    ensures NodeOrEmpty(node, p, gn) == NodeOrEmpty(ChildOf(node, p[0], gn), p[1..], Inner(gn))
    ensures NodeAt(node, p) == if Find(node.groups, p[0]) < |node.groups| then NodeAt(ChildOf(node, p[0], gn), p[1..]) else None
  {
    hide Find;
  }

  /** An insertion changes the nodes on its path and no other. */
  lemma {:induction false} InsertAt(node: Node, path: seq<string>, gn: seq<bool>, leaf: Leaf, p: seq<string>)
    ensures NodeAt(Insert(node, path, gn, leaf), p)
            == if p <= path then Some(Insert(NodeOrEmpty(node, p, gn), path[|p|..], Drop(gn, |p|), leaf)) else NodeAt(node, p)
    decreases |p|
  {
    if p == [] {
      assert path[0..] == path && Drop(gn, 0) == gn;
    } else if path != [] {
      GroupsAfterInsert(node, path, gn, leaf, p[0]);
      OrEmptyBelow(node, p, gn);
      assert p <= path <==> p[0] == path[0] && p[1..] <= path[1..] by { assert p == [p[0]] + p[1..] && path == [path[0]] + path[1..]; }
      hide Insert, Find, NodeOrEmpty, ChildOf;
      if p[0] == path[0] {
        InsertAt(ChildOf(node, p[0], gn), path[1..], Inner(gn), leaf, p[1..]);
        if p <= path { BelowIs(path, gn, p); } else { NotBelow(node, path, gn, p); }
      }
    }
  }

  lemma BelowIs(path: seq<string>, gn: seq<bool>, p: seq<string>)
    requires p != [] && p <= path
    ensures path[1..][|p[1..]|..] == path[|p|..] && Drop(Inner(gn), |p[1..]|) == Drop(gn, |p|)
  {
  }

  lemma NotBelow(node: Node, path: seq<string>, gn: seq<bool>, p: seq<string>)
    requires p != [] && path != [] && p[0] == path[0] && !(p[1..] <= path[1..])
    ensures NodeAt(node, p) == NodeAt(ChildOf(node, p[0], gn), p[1..])
  {
    assert p[1..] != [];
    hide Find;
  }

  // ---- the tree, in terms of the columns ----

  /** The column lies at or below the group at `p`. */
  predicate Below(c: Col, p: seq<string>)
  {
    p <= c.path
  }

  /** The first column below `p`, or the number of columns. */
  function FirstBelow(cols: seq<Col>, p: seq<string>): (i: nat)
    ensures i <= |cols| && (forall j :: 0 <= j < i ==> !Below(cols[j], p)) && (i < |cols| ==> Below(cols[i], p))
  {
    if cols == [] || Below(cols[0], p) then 0 else 1 + FirstBelow(cols[1..], p)
  }

  /** The group at `p` becomes null on a miss: the first column in it says so. */
  predicate NullableAt(cols: seq<Col>, p: seq<string>)
  {
    var i := FirstBelow(cols, p);
    p != [] && i < |cols| && |p| <= |cols[i].groupNullable| && cols[i].groupNullable[|p| - 1]
  }

  /** The leaves of the group at `p`: its own columns, in order. */
  function LeavesAt(cols: seq<Col>, p: seq<string>): seq<Leaf>
    decreases |cols|
  {
    if cols == [] then []
    else
      var n := |cols| - 1;
      LeavesAt(cols[..n], p) + (if cols[n].path == p then [LeafOf(cols[n], n)] else [])
  }

  /** The groups in the group at `p`, once for each column below. */
  function GroupsAt(cols: seq<Col>, p: seq<string>): seq<string>
    decreases |cols|
  {
    if cols == [] then []
    else
      var n := |cols| - 1;
      GroupsAt(cols[..n], p) + (if Below(cols[n], p) && |p| < |cols[n].path| then [cols[n].path[|p|]] else [])
  }

  function GroupKeys(groups: seq<Group>): (r: seq<string>)
    ensures |r| == |groups| && forall j :: 0 <= j < |groups| ==> r[j] == groups[j].key
  {
    if groups == [] then [] else [groups[0].key] + GroupKeys(groups[1..])
  }

  lemma TreeSnoc(cols: seq<Col>)
    requires cols != []
    ensures var n := |cols| - 1; Tree(cols) == Insert(Tree(cols[..n]), cols[n].path, cols[n].groupNullable, LeafOf(cols[n], n))
  {
    var n := |cols| - 1;
    InsertAllAppend(Empty(false), cols[..n], [cols[n]], 0);
    assert cols == cols[..n] + [cols[n]] && [cols[n]][1..] == [];
  }

  lemma {:induction false} FirstBelowSnoc(cols: seq<Col>, p: seq<string>)
    requires cols != []
    ensures var n := |cols| - 1;
            FirstBelow(cols, p) == if FirstBelow(cols[..n], p) < n then FirstBelow(cols[..n], p) else if Below(cols[n], p) then n else |cols|
    decreases |cols|
  {
    var n := |cols| - 1;
    if n > 0 && !Below(cols[0], p) {
      assert cols[1..][..n - 1] == cols[..n][1..];
      FirstBelowSnoc(cols[1..], p);
    }
  }

  /** One more leaf, and the keys of the groups. */
  lemma InsertKeys(node: Node, path: seq<string>, gn: seq<bool>, leaf: Leaf)
    ensures var r := Insert(node, path, gn, leaf);
            && r.nullable == node.nullable && r.leaves == node.leaves + (if path == [] then [leaf] else [])
            && GroupKeys(r.groups) == if path == [] || path[0] in GroupKeys(node.groups) then GroupKeys(node.groups) else GroupKeys(node.groups) + [path[0]]
  {
    var keys := GroupKeys(node.groups);
    if path == [] {
    } else {
      var k := Find(node.groups, path[0]);
      var r := Insert(node, path, gn, leaf);
      if k < |node.groups| {
        assert keys[k] == path[0];
        assert GroupKeys(r.groups) == keys;
      } else {
        assert path[0] !in keys;
        assert GroupKeys(r.groups) == keys + [path[0]];
      }
    }
  }

  lemma {:induction false} GroupsIdxIs(groups: seq<Group>, i: nat)
    ensures i in GroupsIdx(groups) <==> exists j :: 0 <= j < |groups| && i in AllIdx(groups[j].node)
    decreases |groups|
  {
    if groups != [] {
      GroupsIdxIs(groups[1..], i);
      if j :| 0 <= j < |groups| && i in AllIdx(groups[j].node) {
        if j > 0 { assert groups[1..][j - 1] == groups[j]; }
      }
      if i in GroupsIdx(groups[1..]) {
        var j :| 0 <= j < |groups[1..]| && i in AllIdx(groups[1..][j].node);
        assert groups[j + 1] == groups[1..][j];
      }
    }
  }

  lemma LeafIdxIs(leaves: seq<Leaf>, i: nat)
    ensures i in LeafIdx(leaves) <==> exists j :: 0 <= j < |leaves| && leaves[j].i == i
  {
    if j :| 0 <= j < |leaves| && leaves[j].i == i { assert LeafIdx(leaves)[j] == i; }
  }

  /** An insertion adds its leaf's column to those below. */
  lemma {:induction false} InsertIdx(node: Node, path: seq<string>, gn: seq<bool>, leaf: Leaf, i: nat)
    ensures i in AllIdx(Insert(node, path, gn, leaf)) <==> i in AllIdx(node) || i == leaf.i
    decreases |path|
  {
    var r := Insert(node, path, gn, leaf);
    LeafIdxIs(node.leaves, i);
    LeafIdxIs(r.leaves, i);
    GroupsIdxIs(node.groups, i);
    GroupsIdxIs(r.groups, i);
    if path == [] {
      assert r.leaves[|node.leaves|] == leaf;
      forall j | 0 <= j < |node.leaves| ensures r.leaves[j] == node.leaves[j] { }
    } else {
      var k := Find(node.groups, path[0]);
      InsertIdx(ChildOf(node, path[0], gn), path[1..], Inner(gn), leaf, i);
      var child' := Insert(ChildOf(node, path[0], gn), path[1..], Inner(gn), leaf);
      hide Find, Insert;
      GroupsIdxAfter(node, r, k, Group(path[0], child'), ChildOf(node, path[0], gn), leaf.i, i);
    }
  }

  lemma GroupsIdxAfter(node: Node, r: Node, k: nat, g: Group, child: Node, leaf: nat, i: nat)
    requires k <= |node.groups| && r.leaves == node.leaves
    requires r.groups == if k < |node.groups| then node.groups[k := g] else node.groups + [g]
    requires if k < |node.groups| then child == node.groups[k].node else AllIdx(child) == []
    requires i in AllIdx(g.node) <==> i in AllIdx(child) || i == leaf
    ensures i in AllIdx(r) <==> i in AllIdx(node) || i == leaf
  {
    GroupsIdxIs(node.groups, i);
    GroupsIdxIs(r.groups, i);
    assert i in AllIdx(node) <==> i in LeafIdx(node.leaves) || i in GroupsIdx(node.groups);
    assert i in AllIdx(r) <==> i in LeafIdx(r.leaves) || i in GroupsIdx(r.groups);
    hide AllIdx, GroupsIdx;
    assert r.groups[k] == g;
    if j :| 0 <= j < |node.groups| && i in AllIdx(node.groups[j].node) {
      if j != k { assert r.groups[j] == node.groups[j]; }
    }
    if j :| 0 <= j < |r.groups| && i in AllIdx(r.groups[j].node) {
      if j != k { assert r.groups[j] == node.groups[j]; }
    }
  }

  lemma EmptyHasNone(nullable: bool, p: seq<string>)
    ensures p != [] ==> NodeAt(Empty(nullable), p) == None
  {
  }

  /** Every node of the tree, in terms of the columns. */
  ghost predicate NodeIs(cols: seq<Col>, p: seq<string>, n: Node)
  {
    && n.leaves == LeavesAt(cols, p)
    && n.nullable == NullableAt(cols, p)
    && GroupKeys(n.groups) == FirstUses(GroupsAt(cols, p))
    && forall i: nat :: i in AllIdx(n) <==> i < |cols| && Below(cols[i], p)
  }

  lemma {:induction false} TreeAt(cols: seq<Col>, p: seq<string>)
    ensures NodeAt(Tree(cols), p).Some? <==> p == [] || FirstBelow(cols, p) < |cols|
    ensures NodeAt(Tree(cols), p).Some? ==> NodeIs(cols, p, NodeAt(Tree(cols), p).value)
    decreases |cols|
  {
    if cols == [] {
      EmptyHasNone(false, p);
      assert Tree(cols) == Empty(false);
    } else {
      var n := |cols| - 1;
      var c := cols[n];
      TreeAt(cols[..n], p);
      TreeSnoc(cols);
      FirstBelowSnoc(cols, p);
      InsertAt(Tree(cols[..n]), c.path, c.groupNullable, LeafOf(c, n), p);
      hide Tree, Insert, FirstBelow, NodeIs, NodeAt;
      if Below(c, p) {
        var found := NodeAt(Tree(cols[..n]), p);
        assert NodeOrEmpty(Tree(cols[..n]), p, c.groupNullable) == Was(found, c, p);
        GrowsNode(cols, p, found);
      } else {
        if NodeAt(Tree(cols), p).Some? { SameNode(cols, p, NodeAt(Tree(cols), p).value); }
      }
    }
  }

  lemma NullableSnoc(cols: seq<Col>, p: seq<string>)
    requires cols != []
    ensures var n := |cols| - 1; var c := cols[n];
            NullableAt(cols, p) == if FirstBelow(cols[..n], p) < n then NullableAt(cols[..n], p)
                                   else Below(c, p) && 0 < |p| <= |c.groupNullable| && c.groupNullable[|p| - 1]
  {
    FirstBelowSnoc(cols, p);
    var n := |cols| - 1;
    var i := FirstBelow(cols[..n], p);
    if i < n { assert cols[..n][i] == cols[i]; }
  }

  lemma SameParts(cols: seq<Col>, p: seq<string>)
    requires cols != [] && !Below(cols[|cols| - 1], p)
    ensures var before := cols[..|cols| - 1];
            LeavesAt(cols, p) == LeavesAt(before, p) && GroupsAt(cols, p) == GroupsAt(before, p) && NullableAt(cols, p) == NullableAt(before, p)
  {
    NullableSnoc(cols, p);
    assert cols[|cols| - 1].path != p;
    hide FirstBelow, NullableAt;
  }

  lemma SameNode(cols: seq<Col>, p: seq<string>, node: Node)
    requires cols != [] && !Below(cols[|cols| - 1], p) && NodeIs(cols[..|cols| - 1], p, node)
    ensures NodeIs(cols, p, node)
  {
    hide FirstBelow, FirstUses, LeavesAt, GroupsAt, NullableAt, AllIdx, Below;
    SameParts(cols, p);
    forall i: nat ensures i in AllIdx(node) <==> i < |cols| && Below(cols[i], p) {
      SameIdx(cols, p, node, i);
    }
  }

  lemma SameIdx(cols: seq<Col>, p: seq<string>, node: Node, i: nat)
    requires cols != [] && !Below(cols[|cols| - 1], p) && NodeIs(cols[..|cols| - 1], p, node)
    ensures i in AllIdx(node) <==> i < |cols| && Below(cols[i], p)
  {
    hide AllIdx, FirstBelow, LeavesAt, GroupsAt, FirstUses;
    var n := |cols| - 1;
    if i < n { assert cols[..n][i] == cols[i]; }
  }

  lemma NoneBelow(cols: seq<Col>, p: seq<string>)
    requires FirstBelow(cols, p) == |cols|
    ensures LeavesAt(cols, p) == [] && GroupsAt(cols, p) == []
  {
    if cols != [] {
      var n := |cols| - 1;
      assert !Below(cols[n], p);
      FirstBelowSnoc(cols, p);
      NoneBelow(cols[..n], p);
    }
  }

  /** The node that an insertion below `p` finds there. */
  function Was(found: Option<Node>, c: Col, p: seq<string>): Node
  {
    if found.Some? then found.value else Empty(0 < |p| <= |c.groupNullable| && c.groupNullable[|p| - 1])
  }

  ghost predicate Before(cols: seq<Col>, p: seq<string>, found: Option<Node>)
  {
    && cols != [] && Below(cols[|cols| - 1], p)
    && (found.Some? <==> p == [] || FirstBelow(cols[..|cols| - 1], p) < |cols| - 1)
    && (found.Some? ==> NodeIs(cols[..|cols| - 1], p, found.value))
  }

  function Grown(cols: seq<Col>, p: seq<string>, found: Option<Node>): Node
    requires cols != [] && Below(cols[|cols| - 1], p)
  {
    var c := cols[|cols| - 1];
    Insert(Was(found, c, p), c.path[|p|..], Drop(c.groupNullable, |p|), LeafOf(c, |cols| - 1))
  }

  lemma GrowsLeaves(cols: seq<Col>, p: seq<string>, found: Option<Node>)
    requires Before(cols, p, found)
    ensures Grown(cols, p, found).leaves == LeavesAt(cols, p)
    ensures Grown(cols, p, found).nullable == NullableAt(cols, p)
  {
    var n := |cols| - 1;
    var c := cols[n];
    InsertKeys(Was(found, c, p), c.path[|p|..], Drop(c.groupNullable, |p|), LeafOf(c, n));
    assert c.path[|p|..] == [] <==> c.path == p;
    NullableSnoc(cols, p);
    if found.None? { NoneBelow(cols[..n], p); }
    hide Insert, GroupsAt, FirstUses, FirstBelow, AllIdx;
  }

  lemma GrowsKeys(cols: seq<Col>, p: seq<string>, found: Option<Node>)
    requires Before(cols, p, found)
    ensures GroupKeys(Grown(cols, p, found).groups) == FirstUses(GroupsAt(cols, p))
  {
    var n := |cols| - 1;
    var c := cols[n];
    InsertKeys(Was(found, c, p), c.path[|p|..], Drop(c.groupNullable, |p|), LeafOf(c, n));
    assert c.path[|p|..] == [] <==> c.path == p;
    assert c.path != p ==> c.path[|p|..][0] == c.path[|p|];
    if found.None? { NoneBelow(cols[..n], p); }
    KeysAfter(cols, p);
    assert GroupKeys(Was(found, c, p).groups) == FirstUses(GroupsAt(cols[..n], p));
    hide Insert, GroupsAt, FirstUses, FirstBelow, AllIdx, LeavesAt, NullableAt, GroupKeys;
  }

  lemma GrowsIdx(cols: seq<Col>, p: seq<string>, found: Option<Node>, i: nat)
    requires Before(cols, p, found)
    ensures i in AllIdx(Grown(cols, p, found)) <==> i < |cols| && Below(cols[i], p)
  {
    var n := |cols| - 1;
    var c := cols[n];
    InsertIdx(Was(found, c, p), c.path[|p|..], Drop(c.groupNullable, |p|), LeafOf(c, n), i);
    if found.None? { NotYet(cols, p, i); assert AllIdx(Was(found, c, p)) == []; }
    hide Insert, GroupsAt, FirstUses, FirstBelow, AllIdx, LeavesAt, NullableAt, GroupKeys;
    if i < n { assert cols[..n][i] == cols[i]; }
  }

  lemma GrowsNode(cols: seq<Col>, p: seq<string>, found: Option<Node>)
    requires Before(cols, p, found)
    ensures NodeIs(cols, p, Grown(cols, p, found))
  {
    assert cols != [] && Below(cols[|cols| - 1], p);
    hide Before, Grown, GroupsAt, FirstUses, FirstBelow, AllIdx, LeavesAt, NullableAt, GroupKeys, Below;
    GrowsLeaves(cols, p, found);
    GrowsKeys(cols, p, found);
    forall i: nat ensures i in AllIdx(Grown(cols, p, found)) <==> i < |cols| && Below(cols[i], p) { GrowsIdx(cols, p, found, i); }
  }

  lemma NotYet(cols: seq<Col>, p: seq<string>, i: nat)
    requires cols != [] && FirstBelow(cols[..|cols| - 1], p) >= |cols| - 1
    ensures i < |cols| - 1 ==> !Below(cols[i], p)
  {
    if i < |cols| - 1 { assert cols[..|cols| - 1][i] == cols[i]; }
  }

  lemma KeysAfter(cols: seq<Col>, p: seq<string>)
    requires cols != [] && Below(cols[|cols| - 1], p)
    ensures var n := |cols| - 1; var before := FirstUses(GroupsAt(cols[..n], p)); var path := cols[n].path;
            FirstUses(GroupsAt(cols, p)) == if path == p || path[|p|] in before then before else before + [path[|p|]]
  {
    var n := |cols| - 1;
    var ks := GroupsAt(cols[..n], p);
    if cols[n].path != p {
      assert |p| < |cols[n].path|;
      assert (ks + [cols[n].path[|p|]])[..|ks|] == ks;
    } else {
      assert ks + [] == ks;
    }
  }

  // ---- an object of the row, in terms of the columns ----

  /** The object that the mappers build. */
  function Row(cols: seq<Col>, vals: seq<Value>, apply: Apply): Value
  {
    Assemble(Tree(cols), vals, apply)
  }

  lemma {:induction false} NoRepeats(ks: seq<string>)
    ensures forall i, j :: 0 <= i < j < |FirstUses(ks)| ==> FirstUses(ks)[i] != FirstUses(ks)[j]
  {
    if ks != [] { NoRepeats(ks[..|ks| - 1]); }
  }

  lemma {:induction false} LastOfGroups(groups: seq<Group>, vals: seq<Value>, apply: Apply, k: string)
    requires forall i, j :: 0 <= i < j < |groups| ==> groups[i].key != groups[j].key
    ensures LastOf(GroupFields(groups, vals, apply), k)
            == if Find(groups, k) < |groups| then Some(AssembleGroup(groups[Find(groups, k)].node, vals, apply)) else None
    decreases |groups|
  {
    if groups != [] {
      var first := (groups[0].key, AssembleGroup(groups[0].node, vals, apply));
      LastOfGroups(groups[1..], vals, apply, k);
      assert GroupFields(groups, vals, apply) == [first] + GroupFields(groups[1..], vals, apply);
      LastOfAppend([first], GroupFields(groups[1..], vals, apply), k);
      assert LastOf([first], k) == (if first.0 == k then Some(first.1) else None) by { assert [first][..0] == []; }
      hide AssembleGroup, LastOf, GroupFields;
      if groups[0].key == k { assert forall j :: 0 <= j < |groups[1..]| ==> groups[1..][j].key != k; }
    }
  }

  /** Column `i` is the last one called `name` in the group at `p`. */
  predicate LastNamed(cols: seq<Col>, p: seq<string>, name: string, i: nat)
  {
    && i < |cols| && cols[i].path == p && cols[i].name == name
    && forall j :: i < j < |cols| && cols[j].path == p ==> cols[j].name != name
  }

  /** The value of a column: its transform meets no null. */
  function Cell(c: Col, v: Value, apply: Apply): Value
  {
    if c.xform.Some? && v != Null then apply(c.xform.value, v) else v
  }

  lemma {:induction false} LeavesSnoc(leaves: seq<Leaf>, l: Leaf, vals: seq<Value>, apply: Apply)
    ensures LeafFields(leaves + [l], vals, apply) == LeafFields(leaves, vals, apply) + [(l.key, LeafValue(l, vals, apply))]
  {
  }

  /** `v` is the cell of the last column called `k` in the group at `p`, or there is no such column. */
  ghost predicate IsLastCell(cols: seq<Col>, p: seq<string>, vals: seq<Value>, apply: Apply, k: string, found: Option<Value>)
    requires |cols| <= |vals|
  {
    match found
    case Some(v) => exists i: nat :: LastNamed(cols, p, k, i) && v == Cell(cols[i], vals[i], apply)
    case None => forall i :: 0 <= i < |cols| && cols[i].path == p ==> cols[i].name != k
  }

  lemma {:induction false} LastOfLeaves(cols: seq<Col>, p: seq<string>, vals: seq<Value>, apply: Apply, k: string)
    requires |cols| <= |vals|
    ensures IsLastCell(cols, p, vals, apply, k, LastOf(LeafFields(LeavesAt(cols, p), vals, apply), k))
    decreases |cols|
  {
    if cols != [] {
      var n := |cols| - 1;
      LastOfLeaves(cols[..n], p, vals, apply, k);
      var before := LeafFields(LeavesAt(cols[..n], p), vals, apply);
      if cols[n].path == p {
        var l := LeafOf(cols[n], n);
        var v := LeafValue(l, vals, apply);
        assert v == Cell(cols[n], vals[n], apply);
        LeavesSnoc(LeavesAt(cols[..n], p), l, vals, apply);
        assert LeafFields(LeavesAt(cols, p), vals, apply) == before + [(l.key, v)];
        assert LastOf(before + [(l.key, v)], k) == if l.key == k then Some(v) else LastOf(before, k) by {
          assert (before + [(l.key, v)])[..|before|] == before;
        }
        hide LeafFields, LeavesAt, LastOf, LeafValue;
        if cols[n].name == k { assert LastNamed(cols, p, k, n); } else { LastCellStays(cols, p, vals, apply, k, LastOf(before, k)); }
      } else {
        assert LeavesAt(cols, p) == LeavesAt(cols[..n], p);
        hide LeafFields, LeavesAt, LastOf, LeafValue;
        LastCellStays(cols, p, vals, apply, k, LastOf(before, k));
      }
    }
  }

  lemma LastCellStays(cols: seq<Col>, p: seq<string>, vals: seq<Value>, apply: Apply, k: string, found: Option<Value>)
    requires cols != [] && |cols| <= |vals| && IsLastCell(cols[..|cols| - 1], p, vals, apply, k, found)
    requires cols[|cols| - 1].path == p ==> cols[|cols| - 1].name != k
    ensures IsLastCell(cols, p, vals, apply, k, found)
  {
    var n := |cols| - 1;
    if found.Some? {
      var i: nat :| LastNamed(cols[..n], p, k, i) && found.value == Cell(cols[..n][i], vals[i], apply);
      StillLast(cols, p, k, i);
    } else {
      forall i | 0 <= i < |cols| && cols[i].path == p ensures cols[i].name != k {
        if i < n { assert cols[..n][i] == cols[i]; }
      }
    }
  }

  lemma StillLast(cols: seq<Col>, p: seq<string>, k: string, i: nat)
    requires cols != [] && LastNamed(cols[..|cols| - 1], p, k, i)
    requires cols[|cols| - 1].path == p ==> cols[|cols| - 1].name != k
    ensures LastNamed(cols, p, k, i)
  {
    var n := |cols| - 1;
    forall j | i < j < |cols| && cols[j].path == p ensures cols[j].name != k {
      if j < n { assert cols[..n][j] == cols[j]; }
    }
  }

  /** There is an object at `p`: the row itself, or a group that has a column. */
  predicate IsGroup(cols: seq<Col>, p: seq<string>)
  {
    p == [] || exists i :: 0 <= i < |cols| && Below(cols[i], p)
  }

  lemma IsGroupIs(cols: seq<Col>, p: seq<string>)
    ensures IsGroup(cols, p) <==> NodeAt(Tree(cols), p).Some?
  {
    TreeAt(cols, p);
    var i := FirstBelow(cols, p);
    if i < |cols| { assert Below(cols[i], p); }
    hide NodeIs, Tree;
  }

  /** A column of the group itself that must not be null. */
  predicate Required(c: Col, p: seq<string>)
  {
    c.path == p && !c.nullable
  }

  /** The group at `p` is a missed one: one of its required columns is null or, if it has none, all below are. */
  predicate MissedAt(cols: seq<Col>, vals: seq<Value>, p: seq<string>)
    requires |vals| == |cols|
  {
    && NullableAt(cols, p)
    && if exists i :: 0 <= i < |cols| && Required(cols[i], p)
       then exists i :: 0 <= i < |cols| && Required(cols[i], p) && vals[i] == Null
       else forall i :: 0 <= i < |cols| && Below(cols[i], p) ==> vals[i] == Null
  }

  lemma {:induction false} LeavesAre(cols: seq<Col>, p: seq<string>)
    ensures forall l :: l in LeavesAt(cols, p) <==> l.i < |cols| && cols[l.i].path == p && l == LeafOf(cols[l.i], l.i)
    decreases |cols|
  {
    if cols != [] {
      var n := |cols| - 1;
      LeavesAre(cols[..n], p);
      forall l ensures l in LeavesAt(cols, p) <==> l.i < |cols| && cols[l.i].path == p && l == LeafOf(cols[l.i], l.i) {
        if l.i < n { assert cols[..n][l.i] == cols[l.i]; }
      }
    }
  }

  lemma MissedIs(cols: seq<Col>, vals: seq<Value>, p: seq<string>, node: Node)
    requires |vals| == |cols| && NodeIs(cols, p, node)
    ensures node.nullable && Missed(node, vals) <==> MissedAt(cols, vals, p)
  {
    LeavesAre(cols, p);
    AllNullIsAllIdx(node, vals);
    hide AllNull, AllIdx, NullableAt, LeavesAt, GroupsAt, FirstUses, Below;
    assert AnyRequired(node.leaves) <==> exists i :: 0 <= i < |cols| && Required(cols[i], p) by { RequiredIs(cols, p, node.leaves); }
    if AnyRequired(node.leaves) {
      NullRequiredIs(cols, vals, p, node.leaves);
    } else {
      assert AllNull(node, vals) <==> forall i :: 0 <= i < |cols| && Below(cols[i], p) ==> vals[i] == Null;
    }
  }

  lemma RequiredIs(cols: seq<Col>, p: seq<string>, leaves: seq<Leaf>)
    requires leaves == LeavesAt(cols, p)
    ensures AnyRequired(leaves) <==> exists i :: 0 <= i < |cols| && Required(cols[i], p)
  {
    LeavesAre(cols, p);
    hide LeavesAt;
    if j :| 0 <= j < |leaves| && leaves[j].required { assert leaves[j] in leaves && Required(cols[leaves[j].i], p); }
    if i :| 0 <= i < |cols| && Required(cols[i], p) {
      var l := LeafOf(cols[i], i);
      assert l in leaves;
      var j :| 0 <= j < |leaves| && leaves[j] == l;
    }
  }

  lemma NullRequiredIs(cols: seq<Col>, vals: seq<Value>, p: seq<string>, leaves: seq<Leaf>)
    requires leaves == LeavesAt(cols, p) && |vals| == |cols|
    ensures (exists j :: 0 <= j < |leaves| && leaves[j].required && At(vals, leaves[j].i) == Null)
            <==> exists i :: 0 <= i < |cols| && Required(cols[i], p) && vals[i] == Null
  {
    LeavesAre(cols, p);
    hide LeavesAt;
    if j :| 0 <= j < |leaves| && leaves[j].required && At(vals, leaves[j].i) == Null {
      assert leaves[j] in leaves && Required(cols[leaves[j].i], p) && vals[leaves[j].i] == Null;
    }
    if i :| 0 <= i < |cols| && Required(cols[i], p) && vals[i] == Null {
      var l := LeafOf(cols[i], i);
      assert l in leaves;
      var j :| 0 <= j < |leaves| && leaves[j] == l;
      assert At(vals, leaves[j].i) == Null;
    }
  }

  /** The object at `p`, whatever becomes of the groups above it. */
  function ObjectAt(cols: seq<Col>, vals: seq<Value>, apply: Apply, p: seq<string>): Option<Value>
  {
    match NodeAt(Tree(cols), p)
    case Some(n) => Some(Assemble(n, vals, apply))
    case None => None
  }

  lemma {:induction false} NodeSnoc(node: Node, p: seq<string>, k: string)
    ensures NodeAt(node, p + [k])
            == match NodeAt(node, p)
               case None => None
               case Some(n) => if Find(n.groups, k) < |n.groups| then Some(n.groups[Find(n.groups, k)].node) else None
    decreases |p|
  {
    hide Find;
    if p == [] {
      assert [] + [k] == [k] && [k][1..] == [];
    } else {
      assert (p + [k])[1..] == p[1..] + [k] && (p + [k])[0] == p[0];
      var j := Find(node.groups, p[0]);
      if j < |node.groups| { NodeSnoc(node.groups[j].node, p[1..], k); }
    }
  }

  /** The own columns of the group at `p`, by name. */
  function NamesAt(cols: seq<Col>, p: seq<string>): seq<string>
    decreases |cols|
  {
    if cols == [] then []
    else
      var n := |cols| - 1;
      NamesAt(cols[..n], p) + (if cols[n].path == p then [cols[n].name] else [])
  }

  lemma {:induction false} LeafKeys(cols: seq<Col>, p: seq<string>, vals: seq<Value>, apply: Apply)
    ensures Keys(LeafFields(LeavesAt(cols, p), vals, apply)) == NamesAt(cols, p)
    decreases |cols|
  {
    if cols != [] {
      var n := |cols| - 1;
      LeafKeys(cols[..n], p, vals, apply);
      if cols[n].path == p {
        var l := LeafOf(cols[n], n);
        LeavesSnoc(LeavesAt(cols[..n], p), l, vals, apply);
        KeysAppend(LeafFields(LeavesAt(cols[..n], p), vals, apply), [(l.key, LeafValue(l, vals, apply))]);
      } else {
        assert LeavesAt(cols, p) == LeavesAt(cols[..n], p);
      }
    }
  }

  lemma {:induction false} GroupFieldKeys(groups: seq<Group>, vals: seq<Value>, apply: Apply)
    ensures Keys(GroupFields(groups, vals, apply)) == GroupKeys(groups)
    decreases |groups|
  {
    if groups != [] { GroupFieldKeys(groups[1..], vals, apply); }
  }

  lemma UsesSnoc(ks: seq<string>, k: string)
    ensures FirstUses(ks + [k]) == if k in ks then FirstUses(ks) else FirstUses(ks) + [k]
  {
    FirstUsesMembers(ks);
    assert (ks + [k])[..|ks|] == ks;
  }

  lemma {:induction false} UsesOfUses(a: seq<string>, b: seq<string>)
    ensures FirstUses(a + FirstUses(b)) == FirstUses(a + b)
    decreases |b|
  {
    if b != [] {
      var m := |b| - 1;
      var c, k := b[..m], b[m];
      assert b == c + [k];
      UsesOfUses(a, c);
      FirstUsesMembers(c);
      hide FirstUses;
      UsesSnoc(c, k);
      UsesSnoc(a + c, k);
      Assoc(a, c, [k]);
      if k !in c {
        Assoc(a, FirstUses(c), [k]);
        UsesSnoc(a + FirstUses(c), k);
      }
    }
  }

  /** What the object at `p` holds: under a group's key the group, null if it is a missed one; under any other
      key of a column the last column of that name; and no other key. */
  lemma FieldAt(cols: seq<Col>, vals: seq<Value>, apply: Apply, p: seq<string>, k: string)
    requires |vals| == |cols| && IsGroup(cols, p)
    ensures ObjectAt(cols, vals, apply, p).Some?
    ensures var found := Field(ObjectAt(cols, vals, apply, p).value, k);
            if IsGroup(cols, p + [k]) then found == (if MissedAt(cols, vals, p + [k]) then Some(Null) else ObjectAt(cols, vals, apply, p + [k]))
            else IsLastCell(cols, p, vals, apply, k, found)
  {
    hide *;
    ObjectIs(cols, vals, apply, p);
    var node := NodeAt(Tree(cols), p).value;
    FieldIs(cols, vals, apply, p, k, node);
    IsGroupIs(cols, p + [k]);
    NodeSnoc(Tree(cols), p, k);
    LastOfLeaves(cols, p, vals, apply, k);
    if IsGroup(cols, p + [k]) {
      var child := node.groups[Find(node.groups, k)].node;
      TreeAt(cols, p + [k]);
      MissedIs(cols, vals, p + [k], child);
      ObjectIs(cols, vals, apply, p + [k]);
      GroupValue(child, vals, apply);
    }
  }

  lemma GroupValue(node: Node, vals: seq<Value>, apply: Apply)
    ensures AssembleGroup(node, vals, apply) == if node.nullable && Missed(node, vals) then Null else Assemble(node, vals, apply)
  {
  }

  lemma ObjectIs(cols: seq<Col>, vals: seq<Value>, apply: Apply, p: seq<string>)
    requires IsGroup(cols, p)
    ensures NodeAt(Tree(cols), p).Some? && ObjectAt(cols, vals, apply, p) == Some(Assemble(NodeAt(Tree(cols), p).value, vals, apply))
    ensures NodeIs(cols, p, NodeAt(Tree(cols), p).value)
  {
    IsGroupIs(cols, p);
    TreeAt(cols, p);
  }

  lemma FieldIs(cols: seq<Col>, vals: seq<Value>, apply: Apply, p: seq<string>, k: string, node: Node)
    requires NodeIs(cols, p, node)
    ensures Field(Assemble(node, vals, apply), k)
            == if Find(node.groups, k) < |node.groups| then Some(AssembleGroup(node.groups[Find(node.groups, k)].node, vals, apply))
               else LastOf(LeafFields(LeavesAt(cols, p), vals, apply), k)
  {
    var leaves, groups := LeafFields(node.leaves, vals, apply), GroupFields(node.groups, vals, apply);
    assert Assemble(node, vals, apply) == Object(Assigned([], leaves + groups));
    hide LeafFields, GroupFields, Assigned, LastOf, FieldOf, Assemble, AssembleGroup, Find, LeavesAt, GroupsAt, FirstUses, AllIdx, NullableAt;
    AssignedHolds(leaves + groups, k);
    LastOfAppend(leaves, groups, k);
    NoRepeats(GroupsAt(cols, p));
    assert forall i, j :: 0 <= i < j < |node.groups| ==> GroupKeys(node.groups)[i] != GroupKeys(node.groups)[j];
    LastOfGroups(node.groups, vals, apply, k);
  }

  // ---- the row, field by field ----

  /** No group on the way to `p` is a missed one, `p` included. */
  predicate Open(cols: seq<Col>, vals: seq<Value>, p: seq<string>)
    requires |vals| == |cols|
  {
    forall d :: 0 < d <= |p| ==> !MissedAt(cols, vals, p[..d])
  }

  lemma {:induction false} FollowAppend(v: Value, p: seq<string>, k: string)
    ensures Follow(v, p + [k]) == match Follow(v, p) case None => None case Some(w) => Field(w, k)
    decreases |p|
  {
    hide Field;
    if p == [] {
      assert [] + [k] == [k] && [k][1..] == [];
    } else {
      assert (p + [k])[1..] == p[1..] + [k] && (p + [k])[0] == p[0];
      if Field(v, p[0]).Some? { FollowAppend(Field(v, p[0]).value, p[1..], k); }
    }
  }

  /** A group above a group is one. */
  lemma GroupAbove(cols: seq<Col>, p: seq<string>, k: string)
    requires IsGroup(cols, p + [k])
    ensures IsGroup(cols, p)
  {
    var i :| 0 <= i < |cols| && Below(cols[i], p + [k]);
    assert p <= p + [k] <= cols[i].path;
    assert Below(cols[i], p);
  }

  lemma {:induction false} FollowsTo(cols: seq<Col>, vals: seq<Value>, apply: Apply, p: seq<string>)
    requires |vals| == |cols| && IsGroup(cols, p) && Open(cols, vals, p)
    ensures Follow(Row(cols, vals, apply), p) == ObjectAt(cols, vals, apply, p) != None
    decreases |p|
  {
    hide MissedAt, Assemble, Tree, Field, IsGroup;
    if p != [] {
      var m := |p| - 1;
      var q, k := p[..m], p[m];
      assert p == q + [k];
      GroupAbove(cols, q, k);
      assert forall d :: 0 < d <= |q| ==> q[..d] == p[..d];
      FollowsTo(cols, vals, apply, q);
      FollowAppend(Row(cols, vals, apply), q, k);
      FieldAt(cols, vals, apply, q, k);
      assert p[..|p|] == p;
    }
    IsGroupIs(cols, p);
  }

  /** The row shows column `i`: it is the last of its name in its group, no group has that name, and no group on
      its path is a missed one. */
  predicate Shown(cols: seq<Col>, vals: seq<Value>, i: nat)
    requires |vals| == |cols| && i < |cols|
  {
    && LastNamed(cols, cols[i].path, cols[i].name, i)
    && !IsGroup(cols, cols[i].path + [cols[i].name])
    && Open(cols, vals, cols[i].path)
  }

  /** For every list of columns and every row: along the column's path, under its name, is the column's own
      value, with its transform unless it is null. */
  lemma RowHolds(cols: seq<Col>, vals: seq<Value>, apply: Apply, i: nat)
    requires |vals| == |cols| && i < |cols| && Shown(cols, vals, i)
    ensures Follow(Row(cols, vals, apply), cols[i].path + [cols[i].name])
            == Some(if vals[i] != Null && cols[i].xform.Some? then apply(cols[i].xform.value, vals[i]) else vals[i])
  {
    var p, k := cols[i].path, cols[i].name;
    hide MissedAt, Assemble, Tree, Field, Follow, Row, Open;
    assert IsGroup(cols, p) by { assert Below(cols[i], p); }
    FollowsTo(cols, vals, apply, p);
    FollowAppend(Row(cols, vals, apply), p, k);
    FieldAt(cols, vals, apply, p, k);
    hide IsGroup;
    forall j | LastNamed(cols, p, k, j) ensures j == i { }
  }

  /** A group is null exactly if it is a missed one, and else an object. */
  lemma GroupIsNullIff(cols: seq<Col>, vals: seq<Value>, apply: Apply, p: seq<string>, k: string)
    requires |vals| == |cols| && IsGroup(cols, p + [k]) && Open(cols, vals, p)
    ensures Follow(Row(cols, vals, apply), p + [k]).Some?
    ensures Follow(Row(cols, vals, apply), p + [k]).value == Null <==> MissedAt(cols, vals, p + [k])
    ensures Follow(Row(cols, vals, apply), p + [k]).value != Null ==> Follow(Row(cols, vals, apply), p + [k]).value.Object?
  {
    GroupAbove(cols, p, k);
    hide MissedAt, Tree, Field, Follow, Row, Open, IsGroup, NodeAt;
    FollowsTo(cols, vals, apply, p);
    FollowAppend(Row(cols, vals, apply), p, k);
    FieldAt(cols, vals, apply, p, k);
    IsGroupIs(cols, p + [k]);
  }

  /** The keys of an object of the row, and their order: the names of its own columns, then its groups, each
      where it was first used. */
  lemma KeysAre(cols: seq<Col>, vals: seq<Value>, apply: Apply, p: seq<string>)
    requires |vals| == |cols| && IsGroup(cols, p) && Open(cols, vals, p)
    ensures match Follow(Row(cols, vals, apply), p)
            case Some(Object(fields)) => Keys(fields) == FirstUses(NamesAt(cols, p) + GroupsAt(cols, p))
            case _ => false
  {
    FollowsTo(cols, vals, apply, p);
    ObjectIs(cols, vals, apply, p);
    var node := NodeAt(Tree(cols), p).value;
    var leaves, groups := LeafFields(node.leaves, vals, apply), GroupFields(node.groups, vals, apply);
    assert Assemble(node, vals, apply) == Object(Assigned([], leaves + groups));
    hide LeafFields, GroupFields, Assigned, Assemble, GroupsAt, FirstUses, Tree, MissedAt, Follow, NodeAt, Row, Keys;
    AssignedHolds(leaves + groups, "");
    KeysAppend(leaves, groups);
    LeafKeys(cols, p, vals, apply);
    GroupFieldKeys(node.groups, vals, apply);
    UsesOfUses(NamesAt(cols, p), GroupsAt(cols, p));
  }

  // ---- array rows ----

  /** In an array row the cells stand in their columns' places: as decoded in the interpreted mapper, with the
      transforms in the compiled one. */
  lemma {:induction false} ArrayRowHolds(cols: seq<Col>, start: nat, table: seq<nat>, full: seq<nat>, vals: seq<Value>, apply: Apply, i: nat)
    requires start + |cols| == |vals| && i < |cols| && ArrayElems(cols, start, table).1 <= full
    ensures |ArrayElems(cols, start, table).0| == |cols|
    ensures ArrayRow(cols, start, vals)[i].1 == vals[start + i]
    ensures EvalElems(ArrayElems(cols, start, table).0, vals, full, apply)[i].1
            == if vals[start + i] != Null && cols[i].xform.Some? then apply(cols[i].xform.value, vals[start + i]) else vals[start + i]
    decreases |cols|
  {
    ArrayTableGrows(cols, start, table);
    var (e, t1) := ColVal(start, cols[0].xform, table);
    ArrayTableGrows(cols[1..], start + 1, t1);
    var elems := ArrayElems(cols, start, table).0;
    assert elems[1..] == ArrayElems(cols[1..], start + 1, t1).0;
    if i == 0 {
      ColValAgrees(start, cols[0].xform, table, full, vals, apply);
    } else {
      ArrayRowHolds(cols[1..], start + 1, t1, full, vals, apply, i - 1);
    }
  }
}
