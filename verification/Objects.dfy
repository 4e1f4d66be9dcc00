/** JavaScript objects as their fields in order: assigning a key, and what is found under it afterwards. */
module Objects {
  import opened Bytes

  /** obj[key] = v: a key that is there keeps its place. */
  function SetKey<K(==), V>(fields: seq<(K, V)>, key: K, v: V): (r: seq<(K, V)>)
    ensures |r| >= |fields|
  {
    if fields == [] then [(key, v)]
    else if fields[0].0 == key then [(key, v)] + fields[1..]
    else [fields[0]] + SetKey(fields[1..], key, v)
  }

  /** The object after the assignments, one after the other. */
  function Assigned<K(==), V>(start: seq<(K, V)>, assignments: seq<(K, V)>): seq<(K, V)>
    decreases |assignments|
  {
    if assignments == [] then start
    else Assigned(SetKey(start, assignments[0].0, assignments[0].1), assignments[1..])
  }

  lemma {:induction false} AssignedAppend<K, V>(start: seq<(K, V)>, a: seq<(K, V)>, b: seq<(K, V)>)
    ensures Assigned(start, a + b) == Assigned(Assigned(start, a), b)
    decreases |a|
  {
    if a == [] {
      assert a + b == b;
    } else {
      assert (a + b)[1..] == a[1..] + b;
      AssignedAppend(SetKey(start, a[0].0, a[0].1), a[1..], b);
    }
  }

  lemma AssignedSnoc<K, V>(start: seq<(K, V)>, a: seq<(K, V)>, x: (K, V))
    ensures Assigned(start, a + [x]) == SetKey(Assigned(start, a), x.0, x.1)
  {
    AssignedAppend(start, a, [x]);
    assert [x][1..] == [];
  }

  // ---- looking into an object ----

  function FieldOf<K(==), V>(fields: seq<(K, V)>, k: K): Option<V>
  {
    if fields == [] then None else if fields[0].0 == k then Some(fields[0].1) else FieldOf(fields[1..], k)
  }

  function Keys<K, V>(fields: seq<(K, V)>): (r: seq<K>)
    ensures |r| == |fields|
  {
    if fields == [] then [] else [fields[0].0] + Keys(fields[1..])
  }

  /** The keys, each where it was first used. */
  function FirstUses<K(==)>(ks: seq<K>): seq<K>
  {
    if ks == [] then []
    else
      var r := FirstUses(ks[..|ks| - 1]);
      if ks[|ks| - 1] in r then r else r + [ks[|ks| - 1]]
  }

  /** The last value assigned to `k`. */
  function LastOf<K(==), V>(assignments: seq<(K, V)>, k: K): Option<V>
  {
    if assignments == [] then None
    else if assignments[|assignments| - 1].0 == k then Some(assignments[|assignments| - 1].1)
    else LastOf(assignments[..|assignments| - 1], k)
  }

  lemma {:induction false} SetKeyField<K, V>(fields: seq<(K, V)>, key: K, v: V, k: K)
    ensures FieldOf(SetKey(fields, key, v), k) == if k == key then Some(v) else FieldOf(fields, k)
    decreases |fields|
  {
    if fields != [] && fields[0].0 != key {
      SetKeyField(fields[1..], key, v, k);
      assert SetKey(fields, key, v)[1..] == SetKey(fields[1..], key, v);
    }
  }

  lemma {:induction false} SetKeyKeys<K, V>(fields: seq<(K, V)>, key: K, v: V)
    ensures Keys(SetKey(fields, key, v)) == if key in Keys(fields) then Keys(fields) else Keys(fields) + [key]
    decreases |fields|
  {
    if fields != [] && fields[0].0 != key {
      SetKeyKeys(fields[1..], key, v);
      assert SetKey(fields, key, v)[1..] == SetKey(fields[1..], key, v);
    }
  }

  /** Of several assignments to a key the last one counts, in the place of the first. */
  lemma {:induction false} AssignedHolds<K, V>(assignments: seq<(K, V)>, k: K)
    ensures FieldOf(Assigned([], assignments), k) == LastOf(assignments, k)
    ensures Keys(Assigned([], assignments)) == FirstUses(Keys(assignments))
    decreases |assignments|
  {
    if assignments != [] {
      var n := |assignments| - 1;
      AssignedHolds(assignments[..n], k);
      assert assignments == assignments[..n] + [assignments[n]];
      AssignedSnoc([], assignments[..n], assignments[n]);
      SetKeyField(Assigned([], assignments[..n]), assignments[n].0, assignments[n].1, k);
      SetKeyKeys(Assigned([], assignments[..n]), assignments[n].0, assignments[n].1);
      KeysSnoc(assignments);
      FirstUsesMembers(Keys(assignments[..n]));
    }
  }

  lemma {:induction false} KeysAppend<K, V>(a: seq<(K, V)>, b: seq<(K, V)>)
    ensures Keys(a + b) == Keys(a) + Keys(b)
    decreases |a|
  {
    if a == [] {
      assert a + b == b;
    } else {
      assert (a + b)[1..] == a[1..] + b;
      KeysAppend(a[1..], b);
    }
  }

  lemma KeysSnoc<K, V>(a: seq<(K, V)>)
    requires a != []
    ensures var n := |a| - 1; Keys(a) == Keys(a[..n]) + [a[n].0]
  {
    var n := |a| - 1;
    KeysAppend(a[..n], [a[n]]);
    assert a == a[..n] + [a[n]] && [a[n]][1..] == [];
  }

  lemma {:induction false} FirstUsesMembers<K>(ks: seq<K>)
    ensures forall k :: k in FirstUses(ks) <==> k in ks
  {
    if ks != [] {
      FirstUsesMembers(ks[..|ks| - 1]);
      assert ks == ks[..|ks| - 1] + [ks[|ks| - 1]];
    }
  }

  lemma {:induction false} LastOfAppend<K, V>(a: seq<(K, V)>, b: seq<(K, V)>, k: K)
    ensures LastOf(a + b, k) == if LastOf(b, k).Some? then LastOf(b, k) else LastOf(a, k)
    decreases |b|
  {
    if b == [] {
      assert a + b == a;
    } else {
      var n := |b| - 1;
      assert (a + b)[..|a + b| - 1] == a + b[..n];
      LastOfAppend(a, b[..n], k);
    }
  }
}
