/** What a parsed JSON value holds, in terms of the text's tree alone. */
module JsonValues {
  import opened Bytes
  import opened Int64
  import opened Objects
  import opened JsonScan
  import opened JsonParse
  import Temporal
  import TemporalText
  import WriterClass

  function KeysOf(lib: Library, members: seq<Member>): (r: seq<seq<byte>>)
    ensures |r| == |members|
  {
    seq(|members|, i requires 0 <= i < |members| => lib.unescape(StringBytes(members[i].key)))
  }

  /** Member `i` is the last one with its key. */
  predicate LastWithKey(lib: Library, members: seq<Member>, i: nat)
  {
    i < |members| && forall j :: i < j < |members| ==> KeysOf(lib, members)[j] != KeysOf(lib, members)[i]
  }

  /** The words are their values; an array holds its items in order; an object has the keys of its members, each
      where it came first, and under each the value of the last member with that key. */
  predicate Says(lib: Library, mode: Mode, v: Json, r: Value)
    decreases v
  {
    match v
    case Str(cs) => r.Text? && r.bytes == if HasEscape(cs) then lib.unescape(StringBytes(cs)) else CharsBytes(cs)
    case Scalar(t) =>
      if t == ['t' as int, 'r' as int, 'u' as int, 'e' as int] then r == Bool(true)
      else if t == ['f' as int, 'a' as int, 'l' as int, 's' as int, 'e' as int] then r == Bool(false)
      else if t == ['n' as int, 'u' as int, 'l' as int, 'l' as int] then r == Null
      else r == NumberOf(lib, mode, t)
    case Arr(_, items) => r.Array? && |r.elems| == |items| && forall i :: 0 <= i < |items| ==> Says(lib, mode, items[i].v, r.elems[i])
    case Obj(_, members) =>
      && r.Object? && Keys(r.fields) == FirstUses(KeysOf(lib, members))
      && forall i :: 0 <= i < |members| && LastWithKey(lib, members, i) ==>
          match FieldOf(r.fields, KeysOf(lib, members)[i]) case None => false case Some(w) => Says(lib, mode, members[i].item.v, w)
  }

  lemma {:induction false} ItemsAt(lib: Library, mode: Mode, items: seq<Item>)
    ensures |ItemValues(lib, mode, items)| == |items|
    ensures forall i :: 0 <= i < |items| ==> ItemValues(lib, mode, items)[i] == ValueOf(lib, mode, items[i].v)
  {
    if items != [] { ItemsAt(lib, mode, items[1..]); }
  }

  function Pairs(lib: Library, mode: Mode, members: seq<Member>): (r: seq<(seq<byte>, Value)>)
    ensures |r| == |members|
  {
    seq(|members|, i requires 0 <= i < |members| => (KeysOf(lib, members)[i], ValueOf(lib, mode, members[i].item.v)))
  }

  lemma {:induction false} FieldsAre(lib: Library, mode: Mode, start: seq<(seq<byte>, Value)>, members: seq<Member>)
    ensures MemberFields(lib, mode, start, members) == Assigned(start, Pairs(lib, mode, members))
    decreases |members|
  {
    if members != [] {
      var pairs := Pairs(lib, mode, members);
      assert pairs[1..] == Pairs(lib, mode, members[1..]);
      FieldsAre(lib, mode, SetKey(start, pairs[0].0, pairs[0].1), members[1..]);
    }
  }

  lemma {:induction false} KeysOfPairs<K, V>(pairs: seq<(K, V)>)
    ensures forall i :: 0 <= i < |pairs| ==> Keys(pairs)[i] == pairs[i].0
  {
    if pairs != [] { KeysOfPairs(pairs[1..]); }
  }

  lemma {:induction false} LastPair<K, V>(pairs: seq<(K, V)>, i: nat)
    requires i < |pairs| && forall j :: i < j < |pairs| ==> pairs[j].0 != pairs[i].0
    ensures LastOf(pairs, pairs[i].0) == Some(pairs[i].1)
    decreases |pairs|
  {
    if i < |pairs| - 1 { LastPair(pairs[..|pairs| - 1], i); }
  }

  lemma {:induction false} NthParts(items: seq<Item>, members: seq<Member>)
    ensures ValidItems(items) ==> forall i :: 0 <= i < |items| ==> Valid(items[i].v)
    ensures ValidMembers(members) ==> forall i :: 0 <= i < |members| ==> Valid(members[i].item.v)
    decreases |items| + |members|
  {
    if items != [] { NthParts(items[1..], []); }
    if members != [] { NthParts([], members[1..]); }
  }

  /** The value of any JSON tree says what the tree says. */
  lemma {:induction false} ValueSays(lib: Library, mode: Mode, v: Json)
    requires Valid(v) && Lawful(lib)
    ensures Says(lib, mode, v, ValueOf(lib, mode, v))
    decreases v
  {
    match v
    case Str(cs) =>
    case Scalar(t) =>
    case Arr(_, items) =>
      NthParts(items, []);
      ItemsAt(lib, mode, items);
      forall i | 0 <= i < |items| ensures Says(lib, mode, items[i].v, ValueOf(lib, mode, items[i].v)) { ValueSays(lib, mode, items[i].v); }
    case Obj(_, members) =>
      NthParts([], members);
      forall i | 0 <= i < |members| ensures Says(lib, mode, members[i].item.v, ValueOf(lib, mode, members[i].item.v)) {
        ValueSays(lib, mode, members[i].item.v);
      }
      ObjectSays(lib, mode, v);
  }

  lemma ObjectSays(lib: Library, mode: Mode, v: Json)
    requires v.Obj? && forall i :: 0 <= i < |v.members| ==> Says(lib, mode, v.members[i].item.v, ValueOf(lib, mode, v.members[i].item.v))
    ensures Says(lib, mode, v, ValueOf(lib, mode, v))
  {
    var members := v.members;
    var pairs := Pairs(lib, mode, members);
    FieldsAre(lib, mode, [], members);
    KeysOfPairs(pairs);
    assert Keys(pairs) == KeysOf(lib, members);
    var r := ValueOf(lib, mode, v);
    assert r == Object(Assigned([], pairs));
    AssignedHolds(pairs, []);
    hide Assigned, FieldOf, LastOf, FirstUses, Keys, MemberFields;
    forall i | 0 <= i < |members| && LastWithKey(lib, members, i)
      ensures FieldOf(r.fields, KeysOf(lib, members)[i]) == Some(ValueOf(lib, mode, members[i].item.v)) {
      AssignedHolds(pairs, KeysOf(lib, members)[i]);
      LastPair(pairs, i);
    }
  }

  /** The text of any integer, parsed: the number where numbers are exact, and beyond that, in the modes that ask
      for it, the same integer or the same digits. */
  lemma IntegerSays(lib: Library, mode: Mode, n: int)
    ensures IsNumber(WriterClass.Decimal(n)) && IsInteger(WriterClass.Decimal(n))
    ensures NumberOf(lib, mode, WriterClass.Decimal(n)) ==
            match mode
            case AsNumber => Number(lib.number(WriterClass.Decimal(n)))
            case AsString => if -9007199254740992 < n < 9007199254740992 then Number(n as real) else Digits(WriterClass.Decimal(n))
            case AsBigInt => if -9007199254740992 < n < 9007199254740992 then Number(n as real) else BigInt(n)
  {
    var m := if n < 0 then -n else n;
    var ds := TemporalText.Pad(m, 1);
    TemporalText.PadValue(m, 1);
    assert Temporal.IsDigit(ds[0]);
    var t: seq<byte> := WriterClass.Decimal(n);
    if n < 0 { assert t == [45] + ds && t[1..] == ds; }
  }
}
