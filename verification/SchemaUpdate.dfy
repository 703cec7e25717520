/** Merging schema models: `HashableModel.update` and the keyed merge of lists of models. */
module SchemaUpdate {
  import opened Common

  type Id = string
  type Name = string

  datatype State = Present | Absent

  /** The value of a model field. The empty list is a list of models; a list of plain values has at least one. */
  datatype Field = Null | Scalar(s: string) | Scalars(first: string, more: seq<string>) | Models(items: seq<Model>)

  /** `name` stands for the fields that a class sorts by; it is a field like the others, and so are `id` and `state`. */
  datatype Model = Model(id: Option<Id>, state: State, name: Name, fields: map<string, Field>)

  /** The key of an item in a merge: its id if both lists have that id, its sort key otherwise. */
  datatype Key = ById(id: Id) | ByName(name: Name)

  predicate HasId(m: Model) {
    m.id.Some? && m.id.value != ""
  }

  function Ids(items: seq<Model>): set<Id> {
    set m | m in items && HasId(m) :: m.id.value
  }

  function SharedIds(local: seq<Model>, other: seq<Model>): set<Id> {
    Ids(local) * Ids(other)
  }

  function KeyOf(m: Model, shared: set<Id>): Key {
    if HasId(m) && m.id.value in shared then ById(m.id.value) else ByName(m.name)
  }

  predicate Distinct(items: seq<Model>, shared: set<Id>) {
    forall i, j | 0 <= i < j < |items| :: KeyOf(items[i], shared) != KeyOf(items[j], shared)
  }

  function Keys(items: seq<Model>, shared: set<Id>): set<Key> {
    set m | m in items :: KeyOf(m, shared)
  }

  function Find(items: seq<Model>, shared: set<Id>, key: Key): (r: Option<Model>)
    ensures r.Some? ==> r.value in items && KeyOf(r.value, shared) == key
    ensures r.None? ==> forall m :: m in items ==> KeyOf(m, shared) != key
  {
    if items == [] then None
    else if KeyOf(items[0], shared) == key then Some(items[0])
    else Find(items[1..], shared, key)
  }

  /** The items whose key has no partner in `others`. */
  function Unmatched(items: seq<Model>, others: seq<Model>, shared: set<Id>): seq<Model> {
    if items == [] then []
    else
      (if Find(others, shared, KeyOf(items[0], shared)).None? then [items[0]] else []) + Unmatched(items[1..], others, shared)
  }

  /** The items of `others` that have no partner in `items` and are not marked absent. */
  function Added(others: seq<Model>, items: seq<Model>, shared: set<Id>): seq<Model> {
    if others == [] then []
    else
      (if Find(items, shared, KeyOf(others[0], shared)).None? && others[0].state != Absent then [others[0]] else [])
      + Added(others[1..], items, shared)
  }

  // ---------- What an update can return ----------

  // The items that both lists hold come in the order of a set, so the result of an update is not determined.

  /** The update does not fail: no list that it has to merge is ambiguous. */
  predicate Mergeable(local: Model, other: Model)
    decreases other
  {
    forall k | k in other.fields && k in local.fields :: FieldMergeable(local.fields[k], other.fields[k])
  }

  predicate FieldMergeable(local: Field, other: Field)
    decreases other
  {
    local.Models? && other.Models? && local != other ==> ListMergeable(local.items, other.items)
  }

  predicate ListMergeable(local: seq<Model>, other: seq<Model>)
    decreases other
  {
    var shared := SharedIds(local, other);
    && Distinct(local, shared) && Distinct(other, shared)
    && forall x, y | x in local && y in other && KeyOf(x, shared) == KeyOf(y, shared) && y.state == Present :: Mergeable(x, y)
  }

  /** `r` is a possible result of the update. */
  ghost predicate May(local: Model, other: Model, r: Model)
    decreases other
  {
    && r.id == (if other.id.Some? then other.id else local.id) && r.state == other.state && r.name == other.name
    && r.fields.Keys == local.fields.Keys + other.fields.Keys
    && forall k | k in r.fields ::
         if k !in other.fields then r.fields[k] == local.fields[k]
         else if k !in local.fields then r.fields[k] == other.fields[k]
         else MayField(local.fields[k], other.fields[k], r.fields[k])
  }

  ghost predicate MayField(local: Field, other: Field, f: Field)
    decreases other
  {
    if other.Null? || local == other then f == local
    else if local.Null? || other.Scalar? then f == other
    else if local.Scalar? then f == local
    else if local.Models? && other.Models? then f.Models? && MayList(local.items, other.items, f.items)
    else f == other
  }

  ghost predicate MayList(local: seq<Model>, other: seq<Model>, r: seq<Model>)
    decreases other, 3
  {
    var shared := SharedIds(local, other);
    var kept := Unmatched(local, other, shared) + Added(other, local, shared);
    kept <= r && Arranged(local, other, shared, r[|kept|..])
  }

  /** One result for each pair of partners, if the partner is present, in any order. */
  ghost predicate Arranged(local: seq<Model>, other: seq<Model>, shared: set<Id>, both: seq<Model>)
    decreases other, 2
  {
    && Distinct(both, shared)
    && (forall m :: m in both ==> IsResult(local, other, shared, m))
    && (forall x, y :: Pair(local, other, shared, x, y) ==> HasResult(local, other, shared, both, x, y))
  }

  /** `x` has the present partner `y`. */
  predicate Pair(local: seq<Model>, other: seq<Model>, shared: set<Id>, x: Model, y: Model) {
    x in local && y in other && KeyOf(x, shared) == KeyOf(y, shared) && y.state == Present
  }

  ghost predicate IsResult(local: seq<Model>, other: seq<Model>, shared: set<Id>, m: Model)
    decreases other, 1
  {
    exists x, y :: Becomes(local, other, shared, x, y, m)
  }

  ghost predicate HasResult(local: seq<Model>, other: seq<Model>, shared: set<Id>, items: seq<Model>, x: Model, y: Model)
    decreases other, 1
  {
    exists m :: m in items && Becomes(local, other, shared, x, y, m)
  }

  /** `x` and its present partner `y` can be merged into `m`. */
  ghost predicate Becomes(local: seq<Model>, other: seq<Model>, shared: set<Id>, x: Model, y: Model, m: Model)
    decreases other, 0
  {
    Pair(local, other, shared, x, y) && May(x, y, m)
  }

  // ---------- The loops of the source ----------

  /** `HashableModel.update`: goes through the fields of `other` and overwrites those of the local model. */
  method UpdateModel(local: Model, other: Model) returns (r: Option<Model>)
    ensures r.Some? <==> Mergeable(local, other)
    ensures r.Some? ==> May(local, other, r.value)
    decreases other, 1
  {
    var fields := local.fields;
    var left := other.fields.Keys;
    while left != {}
      invariant left <= other.fields.Keys && fields.Keys == local.fields.Keys + (other.fields.Keys - left)
      invariant forall k :: k in local.fields && (k in left || k !in other.fields) ==> fields[k] == local.fields[k]
      invariant forall k :: k in other.fields && k !in left && k !in local.fields ==> fields[k] == other.fields[k]
      invariant forall k :: k in other.fields && k !in left && k in local.fields ==>
                  FieldMergeable(local.fields[k], other.fields[k]) && MayField(local.fields[k], other.fields[k], fields[k])
      decreases left
    {
      var k :| k in left;
      left := left - {k};
      if k !in fields {
        fields := fields[k := other.fields[k]];
      } else {
        var merged := UpdateField(fields[k], other.fields[k]);
        if merged.None? {
          return None;
        }
        fields := fields[k := merged.value];
      }
    }
    r := Some(Model(if other.id.Some? then other.id else local.id, other.state, other.name, fields));
  }

  /** One turn of its loop, for a field that both models have. */
  method UpdateField(attrLocal: Field, attrOther: Field) returns (r: Option<Field>)
    ensures r.Some? <==> FieldMergeable(attrLocal, attrOther)
    ensures r.Some? ==> MayField(attrLocal, attrOther, r.value)
    decreases attrOther, 1
  {
    if attrOther.Null? || attrLocal == attrOther {
      r := Some(attrLocal);
    } else if attrLocal.Null? || attrOther.Scalar? {
      r := Some(attrOther);
    } else if attrLocal.Scalar? {
      r := Some(attrLocal);
    } else if attrLocal.Models? && attrOther.Models? {
      var merged := UpdateListHashableModel(attrLocal.items, attrOther.items);
      r := if merged.Some? then Some(Models(merged.value)) else None;
    } else {
      r := Some(attrOther);
    }
  }

  method LocalOnly(local: seq<Model>, other: seq<Model>, shared: set<Id>) returns (newList: seq<Model>)
    ensures newList == Unmatched(local, other, shared)
  {
    newList := [];
    assert local[0..] == local;
    for i := 0 to |local|
      invariant newList + Unmatched(local[i..], other, shared) == Unmatched(local, other, shared)
    {
      assert local[i..][1..] == local[i + 1..];
      ghost var before := newList;
      if Find(other, shared, KeyOf(local[i], shared)).None? {
        newList := newList + [local[i]];
      }
      UnmatchedStep(local[i..], other, shared, before, newList);
    }
  }

  lemma UnmatchedStep(items: seq<Model>, others: seq<Model>, shared: set<Id>, before: seq<Model>, now: seq<Model>)
    requires items != []
    requires now == before + (if Find(others, shared, KeyOf(items[0], shared)).None? then [items[0]] else [])
    ensures before + Unmatched(items, others, shared) == now + Unmatched(items[1..], others, shared)
  {
    var first := if Find(others, shared, KeyOf(items[0], shared)).None? then [items[0]] else [];
    assert Unmatched(items, others, shared) == first + Unmatched(items[1..], others, shared);
    Regroup(before, first, Unmatched(items[1..], others, shared));
  }

  method OtherOnly(local: seq<Model>, other: seq<Model>, shared: set<Id>) returns (newList: seq<Model>)
    ensures newList == Added(other, local, shared)
  {
    newList := [];
    assert other[0..] == other;
    for i := 0 to |other|
      invariant newList + Added(other[i..], local, shared) == Added(other, local, shared)
    {
      assert other[i..][1..] == other[i + 1..];
      ghost var before := newList;
      if Find(local, shared, KeyOf(other[i], shared)).None? && other[i].state != Absent {
        newList := newList + [other[i]];
      }
      AddedStep(other[i..], local, shared, before, newList);
    }
  }

  lemma AddedStep(others: seq<Model>, items: seq<Model>, shared: set<Id>, before: seq<Model>, now: seq<Model>)
    requires others != []
    requires now == before + (if Find(items, shared, KeyOf(others[0], shared)).None? && others[0].state != Absent then [others[0]] else [])
    ensures before + Added(others, items, shared) == now + Added(others[1..], items, shared)
  {
    var first := if Find(items, shared, KeyOf(others[0], shared)).None? && others[0].state != Absent then [others[0]] else [];
    assert Added(others, items, shared) == first + Added(others[1..], items, shared);
    Regroup(before, first, Added(others[1..], items, shared));
  }

  /** The results in `both` are those of the pairs with these keys. */
  ghost predicate DoneFor(local: seq<Model>, other: seq<Model>, shared: set<Id>, done: set<Key>, both: seq<Model>) {
    && Distinct(both, shared)
    && (forall m :: m in both ==> KeyOf(m, shared) in done && IsResult(local, other, shared, m))
    && (forall x, y :: Pair(local, other, shared, x, y) && KeyOf(y, shared) in done ==> Mergeable(x, y) && HasResult(local, other, shared, both, x, y))
  }

  /** Goes through the keys that both lists have, in the order of a set. */
  method InBoth(local: seq<Model>, other: seq<Model>, shared: set<Id>) returns (r: Option<seq<Model>>)
    requires shared == SharedIds(local, other) && Distinct(local, shared) && Distinct(other, shared)
    ensures r.Some? <==> ListMergeable(local, other)
    ensures r.Some? ==> Arranged(local, other, shared, r.value)
    decreases other, 0
  {
    var all := Keys(local, shared) * Keys(other, shared);
    var both, left := [], all;
    while left != {}
      invariant left <= all
      invariant DoneFor(local, other, shared, all - left, both)
      decreases left
    {
      var key :| key in left;
      var x, y := Find(local, shared, key).value, Find(other, shared, key).value;
      if y.state != Absent {
        var m := UpdateModel(x, y);
        if m.None? {
          return None;
        }
        NextDone(local, other, shared, all - left, both, x, y, m.value);
        both := both + [m.value];
      } else {
        NoneDone(local, other, shared, all - left, both, key, y);
      }
      assert all - (left - {key}) == (all - left) + {key};
      left := left - {key};
    }
    assert all - {} == all;
    AllDone(local, other, shared, both);
    r := Some(both);
  }

  lemma NextDone(local: seq<Model>, other: seq<Model>, shared: set<Id>, done: set<Key>, both: seq<Model>, x: Model, y: Model, m: Model)
    requires shared == SharedIds(local, other) && Distinct(local, shared) && Distinct(other, shared)
    requires DoneFor(local, other, shared, done, both) && KeyOf(y, shared) !in done
    requires Mergeable(x, y) && Becomes(local, other, shared, x, y, m)
    ensures DoneFor(local, other, shared, done + {KeyOf(y, shared)}, both + [m])
  {
    KeyOfResult(local, other, x, y, m);
    StillDistinct(both, shared, m);
    assert HasResult(local, other, shared, both + [m], x, y) && IsResult(local, other, shared, m);
    forall x', y' | Pair(local, other, shared, x', y') && KeyOf(y', shared) in done + {KeyOf(y, shared)}
      ensures Mergeable(x', y') && HasResult(local, other, shared, both + [m], x', y')
    {
      if KeyOf(y', shared) == KeyOf(y, shared) {
        SameKeySameItem(local, shared, x, x');
        SameKeySameItem(other, shared, y, y');
      } else {
        StillHasResult(local, other, shared, both, m, x', y');
      }
    }
  }

  lemma StillDistinct(items: seq<Model>, shared: set<Id>, m: Model)
    requires Distinct(items, shared) && forall n :: n in items ==> KeyOf(n, shared) != KeyOf(m, shared)
    ensures Distinct(items + [m], shared)
  {
  }

  lemma StillHasResult(local: seq<Model>, other: seq<Model>, shared: set<Id>, both: seq<Model>, m: Model, x: Model, y: Model)
    requires HasResult(local, other, shared, both, x, y)
    ensures HasResult(local, other, shared, both + [m], x, y)
  {
    var n :| n in both && Becomes(local, other, shared, x, y, n);
    assert n in both + [m];
  }

  lemma NoneDone(local: seq<Model>, other: seq<Model>, shared: set<Id>, done: set<Key>, both: seq<Model>, key: Key, y: Model)
    requires Distinct(other, shared) && DoneFor(local, other, shared, done, both) && y in other && KeyOf(y, shared) == key && y.state == Absent
    ensures DoneFor(local, other, shared, done + {key}, both)
  {
    forall x', y' | Pair(local, other, shared, x', y') && KeyOf(y', shared) in done + {key}
      ensures Mergeable(x', y') && HasResult(local, other, shared, both, x', y')
    {
      if KeyOf(y', shared) == key {
        SameKeySameItem(other, shared, y, y');
      }
    }
  }

  lemma AllDone(local: seq<Model>, other: seq<Model>, shared: set<Id>, both: seq<Model>)
    requires shared == SharedIds(local, other) && Distinct(local, shared) && Distinct(other, shared)
    requires DoneFor(local, other, shared, Keys(local, shared) * Keys(other, shared), both)
    ensures ListMergeable(local, other) && Arranged(local, other, shared, both)
  {
    forall x, y | Pair(local, other, shared, x, y) ensures Mergeable(x, y) && HasResult(local, other, shared, both, x, y) {
      assert KeyOf(x, shared) in Keys(local, shared) && KeyOf(y, shared) in Keys(other, shared);
    }
  }

  lemma SameKeySameItem(items: seq<Model>, shared: set<Id>, m: Model, n: Model)
    requires Distinct(items, shared) && m in items && n in items && KeyOf(m, shared) == KeyOf(n, shared)
    ensures m == n
  {
    var i :| 0 <= i < |items| && items[i] == m;
    var j :| 0 <= j < |items| && items[j] == n;
  }

  /** A merged item has the key of its partners. */
  lemma KeyOfResult(local: seq<Model>, other: seq<Model>, x: Model, y: Model, m: Model)
    requires Becomes(local, other, SharedIds(local, other), x, y, m)
    ensures var shared := SharedIds(local, other); KeyOf(m, shared) == KeyOf(x, shared) == KeyOf(y, shared)
  {
  }

  /** `update_list_hashable_model` */
  method UpdateListHashableModel(local: seq<Model>, other: seq<Model>) returns (r: Option<seq<Model>>)
    ensures r.Some? <==> ListMergeable(local, other)
    ensures r.Some? ==> MayList(local, other, r.value)
    decreases other, 1
  {
    var shared := SharedIds(local, other);
    if !Distinct(local, shared) || !Distinct(other, shared) {
      return None;
    }
    var newList := LocalOnly(local, other, shared);
    var added := OtherOnly(local, other, shared);
    var both := InBoth(local, other, shared);
    if both.None? {
      return None;
    }
    newList := newList + added;
    r := Some(newList + both.value);
    assert r.value[|newList|..] == both.value;
  }

  // ---------- What the merged list holds ----------

  predicate Alone(items: seq<Model>, others: seq<Model>, shared: set<Id>, m: Model) {
    m in items && forall o | o in others :: KeyOf(o, shared) != KeyOf(m, shared)
  }

  lemma {:induction false} UnmatchedMembers(items: seq<Model>, others: seq<Model>, shared: set<Id>, m: Model)
    ensures m in Unmatched(items, others, shared) <==> Alone(items, others, shared, m)
    ensures m in Added(items, others, shared) <==> Alone(items, others, shared, m) && m.state == Present
  {
    if items != [] {
      UnmatchedMembers(items[1..], others, shared, m);
      assert items == [items[0]] + items[1..];
    }
  }

  function Kept(local: seq<Model>, other: seq<Model>): seq<Model> {
    Unmatched(local, other, SharedIds(local, other)) + Added(other, local, SharedIds(local, other))
  }

  /** The merge keeps what only one side has, as it is, except what the other side marks absent; matched items are updated with
      their partner, or removed when the partner is marked absent; nothing else is in the result, and nothing twice. */
  lemma MergedList(local: seq<Model>, other: seq<Model>, r: seq<Model>)
    requires ListMergeable(local, other) && MayList(local, other, r)
    ensures var shared := SharedIds(local, other);
            && (forall m :: m in r ==> Alone(local, other, shared, m) || (Alone(other, local, shared, m) && m.state == Present) || IsResult(local, other, shared, m))
            && (forall x :: Alone(local, other, shared, x) ==> x in r)
            && (forall y :: Alone(other, local, shared, y) && y.state == Present ==> y in r)
            && (forall x, y :: Pair(local, other, shared, x, y) ==> HasResult(local, other, shared, r, x, y))
            && Distinct(r, shared)
  {
    var shared, kept := SharedIds(local, other), Kept(local, other);
    assert r == kept + r[|kept|..];
    forall m ensures m in kept <==> Alone(local, other, shared, m) || (Alone(other, local, shared, m) && m.state == Present) {
      UnmatchedMembers(local, other, shared, m);
      UnmatchedMembers(other, local, shared, m);
    }
    forall x, y | Pair(local, other, shared, x, y) ensures HasResult(local, other, shared, r, x, y) {
      assert HasResult(local, other, shared, r[|kept|..], x, y);
      var m :| m in r[|kept|..] && Becomes(local, other, shared, x, y, m);
      assert m in r;
    }
    ResultIsDistinct(local, other, r);
  }

  /** Items of the two lists are merged if they have one id, or if they have one name and neither's id is in both lists. */
  lemma PartnersMeet(local: seq<Model>, other: seq<Model>, x: Model, y: Model)
    requires x in local && y in other
    ensures KeyOf(x, SharedIds(local, other)) == KeyOf(y, SharedIds(local, other)) <==>
            || (x.id == y.id && x.id.Some? && x.id.value != "")
            || (x.name == y.name
                && forall m, o :: m in local && o in other && m.id == o.id && m.id.Some? && m.id.value != "" ==> m.id != x.id && m.id != y.id)
  {
    var shared := SharedIds(local, other);
    forall z: Model | HasId(z) && z.id.value in shared ensures exists m, o :: m in local && o in other && m.id == o.id == z.id {
      var m :| m in local && HasId(m) && m.id.value == z.id.value;
      var o :| o in other && HasId(o) && o.id.value == z.id.value;
    }
    forall m, o | m in local && o in other && m.id == o.id && HasId(m) ensures m.id.value in shared {
    }
  }

  /** The items of `a` are in `items`, in the same order. */
  predicate InOrder(a: seq<Model>, items: seq<Model>) {
    a == [] || (items != [] && ((a[0] == items[0] && InOrder(a[1..], items[1..])) || InOrder(a, items[1..])))
  }

  lemma {:induction false} KeptInOrder(items: seq<Model>, others: seq<Model>, shared: set<Id>)
    ensures InOrder(Unmatched(items, others, shared), items) && InOrder(Added(items, others, shared), items)
  {
    if items != [] {
      var u, a := Unmatched(items[1..], others, shared), Added(items[1..], others, shared);
      KeptInOrder(items[1..], others, shared);
      assert ([items[0]] + u)[1..] == u && [] + u == u && ([items[0]] + a)[1..] == a && [] + a == a;
    }
  }

  /** Unmatched local items come first and added ones next, each in the order of their list; the merged ones follow. */
  lemma MergedOrder(local: seq<Model>, other: seq<Model>, r: seq<Model>)
    requires MayList(local, other, r)
    ensures exists a, b, c :: r == a + b + c && InOrder(a, local) && InOrder(b, other)
              && (forall m :: m in a ==> Alone(local, other, SharedIds(local, other), m))
              && (forall m :: m in b ==> Alone(other, local, SharedIds(local, other), m) && m.state == Present)
              && (forall m :: m in c ==> IsResult(local, other, SharedIds(local, other), m))
  {
    var shared := SharedIds(local, other);
    var a, b, c := Unmatched(local, other, shared), Added(other, local, shared), r[|Kept(local, other)|..];
    KeptInOrder(local, other, shared);
    KeptInOrder(other, local, shared);
    forall m | m in a ensures Alone(local, other, shared, m) {
      UnmatchedMembers(local, other, shared, m);
    }
    forall m | m in b ensures Alone(other, local, shared, m) && m.state == Present {
      UnmatchedMembers(other, local, shared, m);
    }
    assert Arranged(local, other, shared, c);
    assert r == a + b + c;
  }

  ghost predicate Disjoint(a: seq<Model>, b: seq<Model>, shared: set<Id>) {
    forall m, n :: m in a && n in b ==> KeyOf(m, shared) != KeyOf(n, shared)
  }

  lemma DistinctParts(a: seq<Model>, b: seq<Model>, shared: set<Id>)
    requires Distinct(a, shared) && Distinct(b, shared) && Disjoint(a, b, shared)
    ensures Distinct(a + b, shared)
  {
    var c := a + b;
    forall i, j | 0 <= i < j < |c| ensures KeyOf(c[i], shared) != KeyOf(c[j], shared) {
      if i < |a| <= j {
        assert a[i] in a && b[j - |a|] in b;
      }
    }
  }

  /** Sharing a key under `again` means being one item. */
  ghost predicate Separates(items: seq<Model>, shared: set<Id>, again: set<Id>) {
    forall m, n :: m in items && n in items && KeyOf(m, again) == KeyOf(n, again) ==> KeyOf(m, shared) == KeyOf(n, shared)
  }

  lemma {:induction false} DistinctUnmatched(items: seq<Model>, others: seq<Model>, shared: set<Id>, again: set<Id>)
    requires Distinct(items, shared) && Separates(Unmatched(items, others, shared), shared, again)
    ensures Distinct(Unmatched(items, others, shared), again)
  {
    if items != [] {
      var rest := Unmatched(items[1..], others, shared);
      DistinctUnmatched(items[1..], others, shared, again);
      if Unmatched(items, others, shared) != rest {
        forall n | n in rest ensures KeyOf(n, again) != KeyOf(items[0], again) {
          UnmatchedMembers(items[1..], others, shared, n);
          assert items[0] in Unmatched(items, others, shared) && n in Unmatched(items, others, shared);
          HeadIsDistinct(items, shared, n);
        }
        DistinctParts([items[0]], rest, again);
      }
    }
  }

  lemma HeadIsDistinct(items: seq<Model>, shared: set<Id>, n: Model)
    requires items != [] && Distinct(items, shared) && n in items[1..]
    ensures KeyOf(items[0], shared) != KeyOf(n, shared)
  {
    var j :| 0 <= j < |items[1..]| && items[1..][j] == n;
    assert KeyOf(items[0], shared) != KeyOf(items[j + 1], shared);
  }

  lemma {:induction false} DistinctAdded(items: seq<Model>, others: seq<Model>, shared: set<Id>, again: set<Id>)
    requires Distinct(items, shared) && Separates(Added(items, others, shared), shared, again)
    ensures Distinct(Added(items, others, shared), again)
  {
    if items != [] {
      var rest := Added(items[1..], others, shared);
      DistinctAdded(items[1..], others, shared, again);
      if Added(items, others, shared) != rest {
        forall n | n in rest ensures KeyOf(n, again) != KeyOf(items[0], again) {
          UnmatchedMembers(items[1..], others, shared, n);
          assert items[0] in Added(items, others, shared) && n in Added(items, others, shared);
          HeadIsDistinct(items, shared, n);
        }
        DistinctParts([items[0]], rest, again);
      }
    }
  }

  lemma ResultHasKey(local: seq<Model>, other: seq<Model>, m: Model)
    requires IsResult(local, other, SharedIds(local, other), m)
    ensures var shared := SharedIds(local, other); exists x, y :: Pair(local, other, shared, x, y) && KeyOf(m, shared) == KeyOf(y, shared)
  {
    var x, y :| Becomes(local, other, SharedIds(local, other), x, y, m);
    KeyOfResult(local, other, x, y, m);
  }

  /** The keys of a merge stay distinct in its result. */
  lemma ResultIsDistinct(local: seq<Model>, other: seq<Model>, r: seq<Model>)
    requires ListMergeable(local, other) && MayList(local, other, r)
    ensures Distinct(r, SharedIds(local, other))
  {
    var shared := SharedIds(local, other);
    var a, b, c := Unmatched(local, other, shared), Added(other, local, shared), r[|Kept(local, other)|..];
    DistinctUnmatched(local, other, shared, shared);
    DistinctAdded(other, local, shared, shared);
    forall m, n | m in a && n in b + c ensures KeyOf(m, shared) != KeyOf(n, shared) {
      AloneFromTheRest(local, other, m, n, b, c);
    }
    forall m, n | m in b && n in c ensures KeyOf(m, shared) != KeyOf(n, shared) {
      UnmatchedMembers(other, local, shared, m);
      ResultHasKey(local, other, n);
    }
    DistinctParts(b, c, shared);
    DistinctParts(a, b + c, shared);
    assert r == a + (b + c);
  }

  lemma AloneFromTheRest(local: seq<Model>, other: seq<Model>, m: Model, n: Model, b: seq<Model>, c: seq<Model>)
    requires var shared := SharedIds(local, other);
             && m in Unmatched(local, other, shared) && n in b + c && b == Added(other, local, shared)
             && forall o :: o in c ==> IsResult(local, other, shared, o)
    ensures KeyOf(m, SharedIds(local, other)) != KeyOf(n, SharedIds(local, other))
  {
    var shared := SharedIds(local, other);
    UnmatchedMembers(local, other, shared, m);
    UnmatchedMembers(other, local, shared, n);
    if n !in b {
      ResultHasKey(local, other, n);
    }
  }

  // ---------- Some result ----------

  /** The result that takes the shared items in the order of the local list. */
  function Updated(local: Model, other: Model): Model
    requires Mergeable(local, other)
    decreases other, 1
  {
    Model(
      if other.id.Some? then other.id else local.id, other.state, other.name,
      map k | k in local.fields.Keys + other.fields.Keys ::
        if k !in other.fields then local.fields[k]
        else if k !in local.fields then other.fields[k]
        else UpdatedField(local.fields[k], other.fields[k]))
  }

  function UpdatedField(local: Field, other: Field): Field
    requires FieldMergeable(local, other)
    decreases other, 1
  {
    if other.Null? || local == other then local
    else if local.Null? || other.Scalar? then other
    else if local.Scalar? then local
    else if local.Models? && other.Models? then
      Models(Kept(local.items, other.items) + UpdatedShared(local.items, local.items, other.items))
    else other
  }

  /** The results of the pairs whose local item is among `some`. */
  function UpdatedShared(some: seq<Model>, local: seq<Model>, other: seq<Model>): seq<Model>
    requires ListMergeable(local, other) && forall m :: m in some ==> m in local
    decreases other, 0, |some|
  {
    if some == [] then []
    else
      var y := Find(other, SharedIds(local, other), KeyOf(some[0], SharedIds(local, other)));
      (if y.Some? && y.value.state == Present then [Updated(some[0], y.value)] else []) + UpdatedShared(some[1..], local, other)
  }

  lemma {:induction false} UpdatedMay(local: Model, other: Model)
    requires Mergeable(local, other)
    ensures May(local, other, Updated(local, other))
    decreases other, 1
  {
    forall k | k in other.fields && k in local.fields
      ensures MayField(local.fields[k], other.fields[k], UpdatedField(local.fields[k], other.fields[k]))
    {
      UpdatedFieldMay(local.fields[k], other.fields[k]);
    }
  }

  lemma {:induction false} UpdatedFieldMay(local: Field, other: Field)
    requires FieldMergeable(local, other)
    ensures MayField(local, other, UpdatedField(local, other))
    decreases other, 1
  {
    if local.Models? && other.Models? && local != other {
      var kept, both := Kept(local.items, other.items), UpdatedShared(local.items, local.items, other.items);
      UpdatedSharedMay(local.items, local.items, other.items);
      assert (kept + both)[|kept|..] == both;
      assert SharedDone(local.items, local.items, other.items, both);
    }
  }

  ghost predicate SharedDone(some: seq<Model>, local: seq<Model>, other: seq<Model>, both: seq<Model>) {
    var shared := SharedIds(local, other);
    && Distinct(both, shared)
    && (forall m :: m in both ==> IsResult(local, other, shared, m))
    && (forall x, y :: x in some && Pair(local, other, shared, x, y) ==> HasResult(local, other, shared, both, x, y))
    && (forall m :: m in both ==> exists x :: x in some && KeyOf(x, shared) == KeyOf(m, shared))
  }

  lemma {:induction false} UpdatedSharedMay(some: seq<Model>, local: seq<Model>, other: seq<Model>)
    requires ListMergeable(local, other) && (forall m :: m in some ==> m in local) && Distinct(some, SharedIds(local, other))
    ensures SharedDone(some, local, other, UpdatedShared(some, local, other))
    decreases other, 0, |some|
  {
    if some != [] {
      var shared, x, rest := SharedIds(local, other), some[0], UpdatedShared(some[1..], local, other);
      var y := Find(other, shared, KeyOf(x, shared));
      UpdatedSharedMay(some[1..], local, other);
      assert some == [x] + some[1..];
      if y.Some? && y.value.state == Present {
        UpdatedMay(x, y.value);
        FirstDone(some, local, other, rest, y.value, Updated(x, y.value));
      } else {
        assert [] + rest == rest;
        forall x', y' | x' in some && Pair(local, other, shared, x', y') ensures HasResult(local, other, shared, rest, x', y') {
          if x' == x {
            assert false;
          }
        }
      }
    }
  }

  lemma FirstDone(some: seq<Model>, local: seq<Model>, other: seq<Model>, rest: seq<Model>, y: Model, m: Model)
    requires ListMergeable(local, other) && some != [] && Distinct(some, SharedIds(local, other)) && SharedDone(some[1..], local, other, rest)
    requires Becomes(local, other, SharedIds(local, other), some[0], y, m)
    ensures SharedDone(some, local, other, [m] + rest)
  {
    var shared, x := SharedIds(local, other), some[0];
    KeyOfResult(local, other, x, y, m);
    forall n | n in rest ensures KeyOf(n, shared) != KeyOf(m, shared) {
      var x' :| x' in some[1..] && KeyOf(x', shared) == KeyOf(n, shared);
      HeadIsDistinct(some, shared, x');
    }
    DistinctParts([m], rest, shared);
    assert IsResult(local, other, shared, m);
    forall x', y' | x' in some && Pair(local, other, shared, x', y') ensures HasResult(local, other, shared, [m] + rest, x', y') {
      if x' == x {
        SameKeySameItem(other, shared, y, y');
        assert m in [m] + rest;
      } else {
        assert x' in some[1..];
        MoreHasResult(local, other, shared, rest, [m], x', y');
      }
    }
    assert x in some;
    assert forall x' :: x' in some[1..] ==> x' in some;
  }

  lemma MoreHasResult(local: seq<Model>, other: seq<Model>, shared: set<Id>, both: seq<Model>, more: seq<Model>, x: Model, y: Model)
    requires HasResult(local, other, shared, both, x, y)
    ensures HasResult(local, other, shared, more + both, x, y)
  {
    var n :| n in both && Becomes(local, other, shared, x, y, n);
    assert n in more + both;
  }

  // ---------- What an update says is what the result says ----------

  /** Everything that `o` says is said by `m`, at every depth: values are the same, and every present item has its counterpart. */
  ghost predicate Carries(m: Model, o: Model)
    decreases o
  {
    && (o.id.Some? ==> m.id == o.id) && m.state == o.state && m.name == o.name
    && forall k | k in o.fields :: k in m.fields && FieldCarries(m.fields[k], o.fields[k])
  }

  ghost predicate FieldCarries(f: Field, g: Field)
    decreases g
  {
    match g
    case Null => true
    case Scalar(_) => f == g
    case Scalars(_, _) => f == g
    case Models(items) => f.Models? && forall o | o in items && o.state == Present :: exists m :: m in f.items && Carries(m, o)
  }

  /** No plain value stands where the update has a list. */
  ghost predicate KindsAgree(local: Model, other: Model)
    decreases other
  {
    forall k | k in other.fields && k in local.fields :: FieldKindsAgree(local.fields[k], other.fields[k])
  }

  ghost predicate FieldKindsAgree(local: Field, other: Field)
    decreases other
  {
    && (local.Scalar? ==> other.Scalar? || other.Null?)
    && (local.Models? && other.Models? ==> forall x, y | x in local.items && y in other.items :: KindsAgree(x, y))
  }

  lemma {:induction false} CarriesItself(m: Model)
    ensures Carries(m, m)
  {
    forall k | k in m.fields ensures FieldCarries(m.fields[k], m.fields[k]) {
      FieldCarriesItself(m.fields[k]);
    }
  }

  lemma {:induction false} FieldCarriesItself(f: Field)
    ensures FieldCarries(f, f)
  {
    if f.Models? {
      forall o | o in f.items ensures exists m :: m in f.items && Carries(m, o) {
        CarriesItself(o);
      }
    }
  }

  /** The update wins: after it, the model says everything that the other one says; what the other one does not mention stays. */
  lemma {:induction false} UpdateCarriesOther(local: Model, other: Model, r: Model)
    requires Mergeable(local, other) && May(local, other, r) && KindsAgree(local, other)
    ensures Carries(r, other) && forall k :: k in local.fields && k !in other.fields ==> k in r.fields && r.fields[k] == local.fields[k]
    decreases other, 1
  {
    forall k | k in other.fields ensures k in r.fields && FieldCarries(r.fields[k], other.fields[k]) {
      if k in local.fields {
        FieldUpdateCarries(local.fields[k], other.fields[k], r.fields[k]);
      } else {
        FieldCarriesItself(other.fields[k]);
      }
    }
  }

  lemma {:induction false} FieldUpdateCarries(local: Field, other: Field, f: Field)
    requires FieldMergeable(local, other) && MayField(local, other, f) && FieldKindsAgree(local, other)
    ensures FieldCarries(f, other)
    decreases other, 1
  {
    FieldCarriesItself(other);
    if local.Models? && other.Models? && local != other {
      ListUpdateCarries(local.items, other.items, f.items);
    }
  }

  lemma {:induction false} ListUpdateCarries(local: seq<Model>, other: seq<Model>, r: seq<Model>)
    requires ListMergeable(local, other) && MayList(local, other, r) && forall x, y | x in local && y in other :: KindsAgree(x, y)
    ensures forall o | o in other && o.state == Present :: exists m :: m in r && Carries(m, o)
    decreases other, 1
  {
    var shared := SharedIds(local, other);
    MergedList(local, other, r);
    forall o | o in other && o.state == Present ensures exists m :: m in r && Carries(m, o) {
      if x :| x in local && KeyOf(x, shared) == KeyOf(o, shared) {
        assert HasResult(local, other, shared, r, x, o);
        var m :| m in r && Becomes(local, other, shared, x, o, m);
        UpdateCarriesOther(x, o, m);
      } else {
        assert Alone(other, local, shared, o);
        CarriesItself(o);
      }
    }
  }

  // ---------- Models up to the order of lists ----------

  /** Equal up to the order of the lists of models inside. */
  ghost predicate Reordered(a: Model, b: Model)
    decreases a, 0
  {
    && a.id == b.id && a.state == b.state && a.name == b.name && a.fields.Keys == b.fields.Keys
    && forall k | k in a.fields :: FieldReordered(a.fields[k], b.fields[k])
  }

  ghost predicate FieldReordered(a: Field, b: Field)
    decreases a, 0
  {
    if a.Models? && b.Models? then SameItems(a.items, b.items) else a == b
  }

  ghost predicate SameItems(xs: seq<Model>, ys: seq<Model>)
    decreases xs, 1
  {
    |xs| == |ys| && (forall m | m in xs :: Goes(m, ys)) && (forall n | n in ys :: Comes(xs, n))
  }

  ghost predicate Goes(m: Model, items: seq<Model>)
    decreases m, 1
  {
    exists n | n in items :: Reordered(m, n)
  }

  ghost predicate Comes(items: seq<Model>, n: Model)
    decreases items, 0
  {
    exists m | m in items :: Reordered(m, n)
  }

  lemma {:induction false} ReorderedItself(m: Model)
    ensures Reordered(m, m)
  {
    forall k | k in m.fields ensures FieldReordered(m.fields[k], m.fields[k]) {
      FieldReorderedItself(m.fields[k]);
    }
  }

  lemma {:induction false} FieldReorderedItself(f: Field)
    ensures FieldReordered(f, f)
  {
    if f.Models? {
      forall m | m in f.items ensures Goes(m, f.items) && Comes(f.items, m) {
        ReorderedItself(m);
      }
    }
  }

  // ---------- Applying the same update twice ----------

  /** The update leaves `r` as it is but for the order of lists, whatever order it gives them. */
  ghost predicate Stable(r: Model, other: Model) {
    Mergeable(r, other) && forall s :: May(r, other, s) ==> Reordered(r, s)
  }

  ghost predicate FieldStable(f: Field, other: Field) {
    FieldMergeable(f, other) && forall g :: MayField(f, other, g) ==> FieldReordered(f, g)
  }

  ghost predicate ListStable(r: seq<Model>, other: seq<Model>) {
    ListMergeable(r, other) && forall s :: MayList(r, other, s) ==> SameItems(r, s)
  }

  lemma MayItself(m: Model, s: Model)
    requires May(m, m, s)
    ensures s == m
  {
    forall k | k in m.fields ensures s.fields[k] == m.fields[k] {
      assert MayField(m.fields[k], m.fields[k], s.fields[k]);
    }
    assert s.fields == m.fields;
  }

  lemma StableItself(m: Model)
    ensures Stable(m, m)
  {
    forall s | May(m, m, s) ensures Reordered(m, s) {
      MayItself(m, s);
      ReorderedItself(m);
    }
  }

  /** No present item shares its id with another item. */
  ghost predicate UniqueIds(items: seq<Model>) {
    forall m, n :: m in items && n in items && HasId(m) && m.id == n.id && m.state == Present ==> m == n
  }

  /** The key of an item of the other list in a second merge. */
  function LaterKey(y: Model): Key {
    if y.state == Present && HasId(y) then ById(y.id.value) else ByName(y.name)
  }

  /** A removal by id lets go of a name. */
  predicate LetsGo(local: seq<Model>, y: Model) {
    y.state == Absent && HasId(y) && y.id.value in Ids(local)
  }

  ghost predicate NamesFree(local: seq<Model>, other: seq<Model>) {
    forall y, o :: y in other && o in other && o != y && o.name == y.name && LetsGo(local, y) ==> o.state == Present && HasId(o)
  }

  /** No removal by id lets go of the name of an unmatched local item. */
  ghost predicate NoneTaken(local: seq<Model>, other: seq<Model>, shared: set<Id>) {
    forall x, y :: Alone(local, other, shared, x) && y in other && LetsGo(local, y) ==> x.name != y.name
  }

  /** An item removed by its id leaves its name behind: neither an unmatched local item nor another item of the other
      list that has no id of its own, or is marked absent, goes by that name. */
  ghost predicate Quiet(local: seq<Model>, other: seq<Model>) {
    NamesFree(local, other) && NoneTaken(local, other, SharedIds(local, other))
  }

  ghost predicate Merges(local: seq<Model>, other: seq<Model>, r: seq<Model>) {
    ListMergeable(local, other) && MayList(local, other, r)
  }

  /** A merged item has the name of its partner, and its id if that has one. */
  lemma ResultFacts(local: seq<Model>, other: seq<Model>, shared: set<Id>, x: Model, y: Model, m: Model)
    requires Becomes(local, other, shared, x, y, m)
    ensures Pair(local, other, shared, x, y) && m.state == Present && m.name == y.name
    ensures m.id == if y.id.Some? then y.id else x.id
  {
  }

  lemma ResultOf(local: seq<Model>, other: seq<Model>, shared: set<Id>, m: Model) returns (x: Model, y: Model)
    requires IsResult(local, other, shared, m)
    ensures Becomes(local, other, shared, x, y, m)
    ensures Pair(local, other, shared, x, y) && m.state == Present && m.name == y.name
    ensures m.id == if y.id.Some? then y.id else x.id
  {
    x, y :| Becomes(local, other, shared, x, y, m);
    ResultFacts(local, other, shared, x, y, m);
  }

  /** What an item of the result is: unmatched and local, or `y` itself, or merged from it. */
  ghost predicate From(local: seq<Model>, other: seq<Model>, y: Model, m: Model) {
    (y == m && y in other && y.state == Present) || exists x :: Becomes(local, other, SharedIds(local, other), x, y, m)
  }

  /** A present item of the other list survives, as itself or merged into its partner, with its own id and name. */
  lemma Survivor(local: seq<Model>, other: seq<Model>, r: seq<Model>, y: Model) returns (z: Model)
    requires Merges(local, other, r) && y in other && y.state == Present
    ensures z in r && z.name == y.name && (HasId(y) ==> z.id == y.id)
    ensures From(local, other, y, z)
  {
    var shared := SharedIds(local, other);
    MergedList(local, other, r);
    var found := Find(local, shared, KeyOf(y, shared));
    if found.None? {
      z := y;
      assert Alone(other, local, shared, y);
    } else {
      assert HasResult(local, other, shared, r, found.value, y);
      z :| z in r && Becomes(local, other, shared, found.value, y, z);
      ResultFacts(local, other, shared, found.value, y, z);
    }
  }

  /** What the second merge knows of the first: keys before and after. */
  ghost predicate Later(local: seq<Model>, other: seq<Model>, again: set<Id>) {
    var shared := SharedIds(local, other);
    && Distinct(local, shared) && Distinct(other, shared) && UniqueIds(other)
    && (forall y :: y in other ==> KeyOf(y, again) == LaterKey(y))
    && (forall x :: Alone(local, other, shared, x) ==> KeyOf(x, again) == ByName(x.name))
    && (forall x, y, m :: Becomes(local, other, shared, x, y, m) ==> KeyOf(m, again) == KeyOf(y, again))
  }

  lemma LaterKeyOfOther(local: seq<Model>, other: seq<Model>, r: seq<Model>, y: Model)
    requires Merges(local, other, r) && UniqueIds(other) && y in other
    ensures KeyOf(y, SharedIds(r, other)) == LaterKey(y)
  {
    if HasId(y) {
      if y.state == Present {
        var z := Survivor(local, other, r, y);
      } else if y.id.value in Ids(r) {
        var z :| z in r && HasId(z) && z.id.value == y.id.value;
        OriginOfId(local, other, r, y, z);
      }
    }
  }

  /** The id of an absent item that had a partner is gone after the merge. */
  lemma OriginOfId(local: seq<Model>, other: seq<Model>, r: seq<Model>, y: Model, z: Model)
    requires Merges(local, other, r) && UniqueIds(other) && y in other && y.state == Absent && HasId(y) && z in r
    ensures z.id != y.id
  {
    var shared := SharedIds(local, other);
    MergedList(local, other, r);
    if IsResult(local, other, shared, z) {
      var x, o := ResultOf(local, other, shared, z);
    }
  }

  lemma LaterHolds(local: seq<Model>, other: seq<Model>, r: seq<Model>)
    requires Merges(local, other, r) && UniqueIds(other)
    ensures Later(local, other, SharedIds(r, other))
  {
    var again, shared := SharedIds(r, other), SharedIds(local, other);
    forall y | y in other ensures KeyOf(y, again) == LaterKey(y) {
      LaterKeyOfOther(local, other, r, y);
    }
    forall x, y, m | Becomes(local, other, shared, x, y, m) ensures KeyOf(m, again) == KeyOf(y, again) {
      ResultFacts(local, other, shared, x, y, m);
    }
  }

  /** Items of the other list that share a key in the second merge shared one in the first, unless a removal let go of it. */
  lemma LaterKeysTellApart(local: seq<Model>, other: seq<Model>, y: Model, o: Model)
    requires Distinct(other, SharedIds(local, other)) && UniqueIds(other) && y in other && o in other && y != o
    requires LaterKey(y) == LaterKey(o)
    ensures y.name == o.name && (LetsGo(local, y) || LetsGo(local, o))
    ensures !(y.state == Present && HasId(y)) && !(o.state == Present && HasId(o))
  {
    if KeyOf(y, SharedIds(local, other)) == KeyOf(o, SharedIds(local, other)) {
      SameKeySameItem(other, SharedIds(local, other), y, o);
    }
  }

  /** The other list can be merged a second time exactly when no removal by id lets go of a name that another item answers to. */
  lemma OtherStaysDistinct(local: seq<Model>, other: seq<Model>, again: set<Id>)
    requires Later(local, other, again)
    ensures Distinct(other, again) <==> NamesFree(local, other)
  {
    if Distinct(other, again) {
      forall y, o | y in other && o in other && o != y && o.name == y.name && LetsGo(local, y)
        ensures o.state == Present && HasId(o)
      {
        if KeyOf(o, again) == KeyOf(y, again) {
          SameKeySameItem(other, again, y, o);
        }
      }
    }
    if NamesFree(local, other) {
      forall i, j | 0 <= i < j < |other| ensures KeyOf(other[i], again) != KeyOf(other[j], again) {
        assert KeyOf(other[i], SharedIds(local, other)) != KeyOf(other[j], SharedIds(local, other));
        assert other[i] in other && other[j] in other;
        if LaterKey(other[i]) == LaterKey(other[j]) {
          LaterKeysTellApart(local, other, other[i], other[j]);
        }
      }
    }
  }

  lemma PresentsToldApart(local: seq<Model>, other: seq<Model>, again: set<Id>, y: Model, o: Model)
    requires Later(local, other, again) && y in other && o in other && y.state == Present && o.state == Present
    requires KeyOf(y, again) == KeyOf(o, again)
    ensures y == o
  {
    if y != o {
      LaterKeysTellApart(local, other, y, o);
    }
  }

  /** An unmatched local item meets no present item of the other list the second time. */
  lemma AloneMeetsNobody(local: seq<Model>, other: seq<Model>, again: set<Id>, x: Model, y: Model)
    requires Later(local, other, again) && Alone(local, other, SharedIds(local, other), x) && y in other
    requires KeyOf(x, again) == KeyOf(y, again)
    ensures LetsGo(local, y) && x.name == y.name
  {
    assert KeyOf(y, SharedIds(local, other)) != KeyOf(x, SharedIds(local, other));
  }

  lemma Origin(local: seq<Model>, other: seq<Model>, r: seq<Model>, m: Model) returns (y: Option<Model>)
    requires Merges(local, other, r) && m in r
    ensures y.None? ==> Alone(local, other, SharedIds(local, other), m)
    ensures y.Some? ==> From(local, other, y.value, m)
  {
    var shared := SharedIds(local, other);
    MergedList(local, other, r);
    if Alone(local, other, shared, m) {
      y := None;
    } else if Alone(other, local, shared, m) && m.state == Present {
      y := Some(m);
    } else {
      var x, o := ResultOf(local, other, shared, m);
      y := Some(o);
    }
  }

  /** The item of the other list from which an item comes is the one it meets again. */
  lemma FromMeets(local: seq<Model>, other: seq<Model>, again: set<Id>, y: Model, m: Model, o: Model)
    requires Later(local, other, again) && From(local, other, y, m)
    ensures KeyOf(m, again) == KeyOf(y, again) && y in other && y.state == Present
    ensures o in other && KeyOf(m, again) == KeyOf(o, again) && (o.state == Present || Distinct(other, again)) ==> o == y
  {
    if o in other && KeyOf(m, again) == KeyOf(o, again) && (o.state == Present || Distinct(other, again)) {
      if o.state == Present {
        PresentsToldApart(local, other, again, y, o);
      } else {
        SameKeySameItem(other, again, y, o);
      }
    }
  }

  lemma DistinctResult(local: seq<Model>, other: seq<Model>, r: seq<Model>, again: set<Id>)
    requires Merges(local, other, r) && Later(local, other, again)
    ensures Distinct(r, again)
  {
    var shared := SharedIds(local, other);
    var a, b, c := Unmatched(local, other, shared), Added(other, local, shared), r[|Kept(local, other)|..];
    PartsStayDistinct(local, other, again);
    assert Arranged(local, other, shared, c);
    ArrangedStaysDistinct(local, other, again, c);
    forall m, n | m in a && n in b + c ensures KeyOf(m, again) != KeyOf(n, again) {
      AloneStaysApart(local, other, again, m, n, c);
    }
    forall m, n | m in b && n in c ensures KeyOf(m, again) != KeyOf(n, again) {
      AddedStaysApart(local, other, again, m, n);
    }
    DistinctParts(b, c, again);
    DistinctParts(a, b + c, again);
    assert r == a + (b + c);
  }

  lemma PartsStayDistinct(local: seq<Model>, other: seq<Model>, again: set<Id>)
    requires Later(local, other, again)
    ensures var shared := SharedIds(local, other); Distinct(Unmatched(local, other, shared), again) && Distinct(Added(other, local, shared), again)
  {
    var shared := SharedIds(local, other);
    var a, b := Unmatched(local, other, shared), Added(other, local, shared);
    forall m, n | m in a && n in a && KeyOf(m, again) == KeyOf(n, again) ensures KeyOf(m, shared) == KeyOf(n, shared) {
      UnmatchedMembers(local, other, shared, m);
      UnmatchedMembers(local, other, shared, n);
    }
    DistinctUnmatched(local, other, shared, again);
    forall m, n | m in b && n in b && KeyOf(m, again) == KeyOf(n, again) ensures KeyOf(m, shared) == KeyOf(n, shared) {
      UnmatchedMembers(other, local, shared, m);
      UnmatchedMembers(other, local, shared, n);
      PresentsToldApart(local, other, again, m, n);
    }
    DistinctAdded(other, local, shared, again);
  }

  lemma ArrangedStaysDistinct(local: seq<Model>, other: seq<Model>, again: set<Id>, c: seq<Model>)
    requires Later(local, other, again) && Arranged(local, other, SharedIds(local, other), c)
    ensures Distinct(c, again)
  {
    var shared := SharedIds(local, other);
    forall i, j | 0 <= i < j < |c| ensures KeyOf(c[i], again) != KeyOf(c[j], again) {
      assert c[i] in c && c[j] in c;
      var x, y := ResultOf(local, other, shared, c[i]);
      var x', y' := ResultOf(local, other, shared, c[j]);
      KeyOfResult(local, other, x, y, c[i]);
      KeyOfResult(local, other, x', y', c[j]);
      if KeyOf(y, again) == KeyOf(y', again) {
        PresentsToldApart(local, other, again, y, y');
      }
    }
  }

  lemma AloneStaysApart(local: seq<Model>, other: seq<Model>, again: set<Id>, m: Model, n: Model, c: seq<Model>)
    requires var shared := SharedIds(local, other);
             && Later(local, other, again) && m in Unmatched(local, other, shared) && n in Added(other, local, shared) + c
             && forall o :: o in c ==> IsResult(local, other, shared, o)
    ensures KeyOf(m, again) != KeyOf(n, again)
  {
    var shared := SharedIds(local, other);
    UnmatchedMembers(local, other, shared, m);
    UnmatchedMembers(other, local, shared, n);
    if KeyOf(m, again) == KeyOf(n, again) {
      if n in Added(other, local, shared) {
        AloneMeetsNobody(local, other, again, m, n);
      } else {
        var x, y := ResultOf(local, other, shared, n);
        AloneMeetsNobody(local, other, again, m, y);
      }
    }
  }

  lemma AddedStaysApart(local: seq<Model>, other: seq<Model>, again: set<Id>, m: Model, n: Model)
    requires Later(local, other, again)
    requires m in Added(other, local, SharedIds(local, other)) && IsResult(local, other, SharedIds(local, other), n)
    ensures KeyOf(m, again) != KeyOf(n, again)
  {
    UnmatchedMembers(other, local, SharedIds(local, other), m);
    var x, y := ResultOf(local, other, SharedIds(local, other), n);
    if KeyOf(m, again) == KeyOf(y, again) {
      PresentsToldApart(local, other, again, m, y);
    }
  }

  // ---------- The second merge ----------

  /** A present item whose id is repeated brings the id into the result, and then the list of changes is ambiguous. */
  lemma RepeatedIdIsAmbiguous(local: seq<Model>, other: seq<Model>, r: seq<Model>)
    requires Merges(local, other, r) && !UniqueIds(other)
    ensures !ListMergeable(r, other)
  {
    var again := SharedIds(r, other);
    var m, n :| m in other && n in other && HasId(m) && m.id == n.id && m.state == Present && m != n;
    var z := Survivor(local, other, r, m);
    assert m.id.value in again && KeyOf(m, again) == KeyOf(n, again);
    if Distinct(other, again) {
      SameKeySameItem(other, again, m, n);
    }
  }

  /** Every merged pair takes the update once more. */
  ghost predicate PairsStable(local: seq<Model>, other: seq<Model>, r: seq<Model>) {
    forall x, y, m :: m in r && Becomes(local, other, SharedIds(local, other), x, y, m) ==> Stable(m, y)
  }

  lemma FromIsStable(local: seq<Model>, other: seq<Model>, r: seq<Model>, y: Model, m: Model)
    requires From(local, other, y, m) && m in r && PairsStable(local, other, r)
    ensures Stable(m, y)
  {
    if y == m {
      StableItself(m);
    } else {
      var x :| Becomes(local, other, SharedIds(local, other), x, y, m);
    }
  }

  /** In the second merge an item that meets a present item comes from it. */
  lemma MeetsItsOwn(local: seq<Model>, other: seq<Model>, r: seq<Model>, m: Model, y: Model)
    requires Merges(local, other, r) && Later(local, other, SharedIds(r, other)) && PairsStable(local, other, r)
    requires Pair(r, other, SharedIds(r, other), m, y)
    ensures Stable(m, y)
  {
    var o := Origin(local, other, r, m);
    if o.None? {
      AloneMeetsNobody(local, other, SharedIds(r, other), m, y);
    } else {
      FromMeets(local, other, SharedIds(r, other), o.value, m, y);
      FromIsStable(local, other, r, y, m);
    }
  }

  /** In a quiet second merge nobody meets an absent item. */
  lemma NobodyIsRemoved(local: seq<Model>, other: seq<Model>, r: seq<Model>, m: Model, y: Model)
    requires Merges(local, other, r) && Later(local, other, SharedIds(r, other)) && Quiet(local, other)
    requires m in r && y in other && KeyOf(m, SharedIds(r, other)) == KeyOf(y, SharedIds(r, other))
    ensures y.state == Present
  {
    var again := SharedIds(r, other);
    OtherStaysDistinct(local, other, again);
    var o := Origin(local, other, r, m);
    if o.None? {
      AloneMeetsNobody(local, other, again, m, y);
    } else {
      FromMeets(local, other, again, o.value, m, y);
    }
  }

  lemma QuietIsMergeable(local: seq<Model>, other: seq<Model>, r: seq<Model>)
    requires Merges(local, other, r) && UniqueIds(other) && Quiet(local, other) && PairsStable(local, other, r)
    ensures ListMergeable(r, other)
  {
    var again := SharedIds(r, other);
    LaterHolds(local, other, r);
    OtherStaysDistinct(local, other, again);
    DistinctResult(local, other, r, again);
    forall m, y | Pair(r, other, again, m, y) ensures Mergeable(m, y) {
      MeetsItsOwn(local, other, r, m, y);
    }
  }

  lemma QuietIsStable(local: seq<Model>, other: seq<Model>, r: seq<Model>)
    requires Merges(local, other, r) && UniqueIds(other) && Quiet(local, other) && PairsStable(local, other, r)
    ensures ListStable(r, other)
  {
    LaterHolds(local, other, r);
    QuietIsMergeable(local, other, r);
    forall s | MayList(r, other, s) ensures SameItems(r, s) {
      forall m | m in r ensures Goes(m, s) {
        var n := QuietKeeps(local, other, r, s, m);
      }
      forall n | n in s ensures Comes(r, n) {
        var m := QuietAddsNothing(local, other, r, s, n);
      }
      MergedList(r, other, s);
      KeysWithin(r, s, SharedIds(r, other));
      KeysWithin(s, r, SharedIds(r, other));
      SameLength(r, s, SharedIds(r, other));
    }
  }

  lemma QuietKeeps(local: seq<Model>, other: seq<Model>, r: seq<Model>, s: seq<Model>, m: Model) returns (n: Model)
    requires Merges(local, other, r) && Later(local, other, SharedIds(r, other)) && Quiet(local, other) && PairsStable(local, other, r)
    requires Merges(r, other, s) && m in r
    ensures n in s && Reordered(m, n)
  {
    var again := SharedIds(r, other);
    MergedList(r, other, s);
    var found := Find(other, again, KeyOf(m, again));
    if found.None? {
      assert Alone(r, other, again, m);
      n := m;
      ReorderedItself(m);
    } else {
      NobodyIsRemoved(local, other, r, m, found.value);
      assert HasResult(r, other, again, s, m, found.value);
      n :| n in s && Becomes(r, other, again, m, found.value, n);
      MeetsItsOwn(local, other, r, m, found.value);
    }
  }

  lemma QuietAddsNothing(local: seq<Model>, other: seq<Model>, r: seq<Model>, s: seq<Model>, n: Model) returns (m: Model)
    requires Merges(local, other, r) && Later(local, other, SharedIds(r, other)) && PairsStable(local, other, r)
    requires Merges(r, other, s) && n in s
    ensures m in r && Reordered(m, n)
  {
    var again := SharedIds(r, other);
    var o := Origin(r, other, s, n);
    if o.None? {
      m := n;
      ReorderedItself(m);
    } else {
      var z := Survivor(local, other, r, o.value);
      FromMeets(local, other, again, o.value, z, o.value);
      MergedList(r, other, s);
      if Alone(other, r, again, n) && n == o.value {
        assert false;
      } else if Alone(r, other, again, n) {
        m := n;
        ReorderedItself(m);
      } else {
        var x, y := ResultOf(r, other, again, n);
        m := x;
        MeetsItsOwn(local, other, r, x, y);
      }
    }
  }

  lemma SameKeys(m: Model, items: seq<Model>, shared: set<Id>)
    requires Goes(m, items) || Comes(items, m)
    ensures KeyOf(m, shared) in Keys(items, shared)
  {
    if n :| n in items && Reordered(m, n) {
    } else {
      var n :| n in items && Reordered(n, m);
    }
  }

  lemma KeysWithin(items: seq<Model>, others: seq<Model>, shared: set<Id>)
    requires forall m :: m in items ==> Goes(m, others) || Comes(others, m)
    ensures Keys(items, shared) <= Keys(others, shared)
  {
    forall m | m in items ensures KeyOf(m, shared) in Keys(others, shared) {
      SameKeys(m, others, shared);
    }
  }

  lemma SameLength(r: seq<Model>, s: seq<Model>, shared: set<Id>)
    requires Distinct(r, shared) && Distinct(s, shared)
    requires Keys(r, shared) == Keys(s, shared)
    ensures |r| == |s|
  {
    KeysCount(r, shared);
    KeysCount(s, shared);
  }

  lemma {:induction false} KeysCount(items: seq<Model>, shared: set<Id>)
    requires Distinct(items, shared)
    ensures |Keys(items, shared)| == |items|
  {
    if items != [] {
      KeysCount(items[1..], shared);
      assert items == [items[0]] + items[1..];
      if KeyOf(items[0], shared) in Keys(items[1..], shared) {
        var n :| n in items[1..] && KeyOf(n, shared) == KeyOf(items[0], shared);
        HeadIsDistinct(items, shared, n);
      }
      assert Keys(items, shared) == Keys(items[1..], shared) + {KeyOf(items[0], shared)};
    }
  }

  /** Some merge exists, and any result of a pair can be part of it. */
  lemma SomeMerge(local: seq<Model>, other: seq<Model>) returns (r: seq<Model>)
    requires ListMergeable(local, other)
    ensures MayList(local, other, r)
  {
    var kept, both := Kept(local, other), UpdatedShared(local, local, other);
    UpdatedSharedMay(local, local, other);
    r := kept + both;
    assert r[|kept|..] == both;
    assert SharedDone(local, local, other, both);
  }

  lemma SomeMergeWith(local: seq<Model>, other: seq<Model>, x: Model, y: Model, m: Model) returns (r: seq<Model>)
    requires ListMergeable(local, other) && Becomes(local, other, SharedIds(local, other), x, y, m)
    ensures MayList(local, other, r) && m in r
  {
    var shared, kept := SharedIds(local, other), Kept(local, other);
    var s := SomeMerge(local, other);
    var both := s[|kept|..];
    assert HasResult(local, other, shared, both, x, y);
    var n :| n in both && Becomes(local, other, shared, x, y, n);
    var i :| 0 <= i < |both| && both[i] == n;
    Exchanged(local, other, shared, both, i, x, y, m);
    r := kept + both[i := m];
    assert r[|kept|..] == both[i := m];
    assert both[i := m][i] == m;
  }

  lemma Exchanged(local: seq<Model>, other: seq<Model>, shared: set<Id>, both: seq<Model>, i: nat, x: Model, y: Model, m: Model)
    requires shared == SharedIds(local, other) && Distinct(local, shared) && Distinct(other, shared) && Arranged(local, other, shared, both)
    requires i < |both| && Becomes(local, other, shared, x, y, both[i]) && Becomes(local, other, shared, x, y, m)
    ensures Arranged(local, other, shared, both[i := m])
  {
    var now := both[i := m];
    KeyOfResult(local, other, x, y, m);
    KeyOfResult(local, other, x, y, both[i]);
    assert IsResult(local, other, shared, m);
    forall n | n in now ensures IsResult(local, other, shared, n) {
      assert n == m || n in both;
    }
    forall x', y' | Pair(local, other, shared, x', y') ensures HasResult(local, other, shared, now, x', y') {
      ExchangedHasResult(local, other, shared, both, i, x, y, m, x', y');
    }
  }

  lemma ExchangedHasResult(local: seq<Model>, other: seq<Model>, shared: set<Id>, both: seq<Model>, i: nat, x: Model, y: Model, m: Model, x': Model, y': Model)
    requires shared == SharedIds(local, other) && Distinct(local, shared) && Distinct(other, shared) && Arranged(local, other, shared, both)
    requires i < |both| && Becomes(local, other, shared, x, y, both[i]) && Becomes(local, other, shared, x, y, m)
    requires Pair(local, other, shared, x', y')
    ensures HasResult(local, other, shared, both[i := m], x', y')
  {
    var now := both[i := m];
    assert HasResult(local, other, shared, both, x', y');
    var n :| n in both && Becomes(local, other, shared, x', y', n);
    var j :| 0 <= j < |both| && both[j] == n;
    if j == i {
      KeyOfResult(local, other, x, y, n);
      KeyOfResult(local, other, x', y', n);
      SameKeySameItem(local, shared, x, x');
      SameKeySameItem(other, shared, y, y');
      assert now[i] == m;
    } else {
      assert now[j] == n;
    }
  }

  /** A stable merge removes nothing. */
  lemma NoneMeetsAbsent(r: seq<Model>, other: seq<Model>, x: Model, y: Model)
    requires ListStable(r, other) && x in r && y in other && y.state == Absent
    ensures KeyOf(x, SharedIds(r, other)) != KeyOf(y, SharedIds(r, other))
  {
    var s := SomeMerge(r, other);
    AbsentIsNotHeld(r, other, s, x, y);
  }

  lemma AbsentIsNotHeld(r: seq<Model>, other: seq<Model>, s: seq<Model>, x: Model, y: Model)
    requires Merges(r, other, s) && x in r && y in other && y.state == Absent && Goes(x, s)
    ensures KeyOf(x, SharedIds(r, other)) != KeyOf(y, SharedIds(r, other))
  {
    var n :| n in s && Reordered(x, n);
    if KeyOf(x, SharedIds(r, other)) == KeyOf(y, SharedIds(r, other)) {
      NoneFromAbsent(r, other, s, x, y, n);
    }
  }

  /** If the second merge is stable, no unmatched local item was taken by a name let go of. */
  lemma StableIsQuiet(local: seq<Model>, other: seq<Model>, r: seq<Model>)
    requires Merges(local, other, r) && UniqueIds(other) && ListStable(r, other)
    ensures Quiet(local, other)
  {
    var shared, again := SharedIds(local, other), SharedIds(r, other);
    LaterHolds(local, other, r);
    OtherStaysDistinct(local, other, again);
    forall x, y | Alone(local, other, shared, x) && y in other && LetsGo(local, y) ensures x.name != y.name {
      if x.name == y.name {
        MergedList(local, other, r);
        NoneMeetsAbsent(r, other, x, y);
      }
    }
  }

  /** An item that meets an absent one is gone. */
  lemma NoneFromAbsent(local: seq<Model>, other: seq<Model>, r: seq<Model>, x: Model, y: Model, n: Model)
    requires Merges(local, other, r) && x in local && y in other && y.state == Absent
    requires KeyOf(x, SharedIds(local, other)) == KeyOf(y, SharedIds(local, other)) && n in r
    ensures KeyOf(n, SharedIds(local, other)) != KeyOf(y, SharedIds(local, other))
  {
    var shared := SharedIds(local, other);
    MergedList(local, other, r);
    if IsResult(local, other, shared, n) {
      var x', y' := ResultOf(local, other, shared, n);
      KeyOfResult(local, other, x', y', n);
      if KeyOf(y', shared) == KeyOf(y, shared) {
        SameKeySameItem(other, shared, y, y');
      }
    }
  }

  lemma StablePairs(local: seq<Model>, other: seq<Model>, r: seq<Model>)
    requires Merges(local, other, r) && UniqueIds(other) && ListStable(r, other)
    ensures PairsStable(local, other, r)
  {
    var shared, again := SharedIds(local, other), SharedIds(r, other);
    LaterHolds(local, other, r);
    forall x, y, m | m in r && Becomes(local, other, shared, x, y, m) ensures Stable(m, y) {
      assert Pair(r, other, again, m, y);
      forall n | May(m, y, n) ensures Reordered(m, n) {
        StablePair(r, other, m, y, n);
      }
    }
  }

  lemma StablePair(r: seq<Model>, other: seq<Model>, m: Model, y: Model, n: Model)
    requires ListStable(r, other) && Becomes(r, other, SharedIds(r, other), m, y, n)
    ensures Reordered(m, n)
  {
    var s := SomeMergeWith(r, other, m, y, n);
    assert Comes(r, n);
    var o :| o in r && Reordered(o, n);
    KeyOfResult(r, other, m, y, n);
    SameKeySameItem(r, SharedIds(r, other), m, o);
  }

  /** The same list of changes, merged a second time, changes nothing but order exactly when no present item repeats an id, the
      removals are quiet and each merged pair takes its update once more. */
  lemma MergeTwice(local: seq<Model>, other: seq<Model>, r: seq<Model>)
    requires Merges(local, other, r)
    ensures ListStable(r, other) <==> UniqueIds(other) && Quiet(local, other) && PairsStable(local, other, r)
  {
    if !UniqueIds(other) {
      RepeatedIdIsAmbiguous(local, other, r);
    } else {
      if ListStable(r, other) {
        StableIsQuiet(local, other, r);
        StablePairs(local, other, r);
      }
      if Quiet(local, other) && PairsStable(local, other, r) {
        QuietIsStable(local, other, r);
      }
    }
  }

  // ---------- Updates that settle ----------

  /** The update makes the local model equal to the other one, whatever order it gives the lists. */
  predicate Overwritten(local: Model, other: Model)
    decreases other
  {
    && (other.id.Some? || local.id.None?) && local.fields.Keys <= other.fields.Keys
    && forall k | k in other.fields && k in local.fields :: FieldOverwritten(local.fields[k], other.fields[k])
  }

  predicate FieldOverwritten(local: Field, other: Field)
    decreases other
  {
    if local == other || local.Null? || other.Scalar? then true
    else if other.Null? || local.Scalar? then false
    else local.Models? && other.Models? ==> ListOverwritten(local.items, other.items)
  }

  /** All items of the other list are present, and at most one local item, which the last of them overwrites, stands before them. */
  predicate ListOverwritten(local: seq<Model>, other: seq<Model>)
    decreases other
  {
    && (forall y :: y in other ==> y.state == Present)
    && (local == [] || (|local| == 1 && other != [] && OverwrittenBy(local, other, local[0], other[|other| - 1])))
  }

  predicate OverwrittenBy(local: seq<Model>, other: seq<Model>, x: Model, y: Model)
    requires y in other
    decreases other, 0
  {
    KeyOf(x, SharedIds(local, other)) == KeyOf(y, SharedIds(local, other)) && Overwritten(x, y)
  }

  /** A merge that gives the other list in its own order. */
  lemma {:induction false} OverwrittenIsOther(local: Model, other: Model, r: Model)
    requires Mergeable(local, other) && May(local, other, r) && Overwritten(local, other)
    ensures r == other
    decreases other, 1
  {
    forall k | k in other.fields ensures r.fields[k] == other.fields[k] {
      assert k in r.fields;
      if k in local.fields {
        FieldOverwrittenIsOther(local.fields[k], other.fields[k], r.fields[k]);
      }
    }
    assert r.fields == other.fields;
  }

  lemma {:induction false} FieldOverwrittenIsOther(local: Field, other: Field, f: Field)
    requires FieldMergeable(local, other) && MayField(local, other, f) && FieldOverwritten(local, other)
    ensures f == other
    decreases other, 1
  {
    if local.Models? && other.Models? && local != other {
      ListOverwrittenIsOther(local.items, other.items, f.items);
    }
  }

  lemma {:induction false} ListOverwrittenIsOther(local: seq<Model>, other: seq<Model>, r: seq<Model>)
    requires Merges(local, other, r) && ListOverwritten(local, other)
    ensures r == other
    decreases other, 1
  {
    var shared := SharedIds(local, other);
    var both := r[|Kept(local, other)|..];
    assert Arranged(local, other, shared, both);
    if local == [] {
      MergedWithEmpty(other, r);
    } else {
      var n := |other| - 1;
      var x, y := local[0], other[n];
      forall m | m in both ensures m == y {
        OnlyResult(local, other, m);
        OverwrittenIsOther(x, y, m);
      }
      assert Pair(local, other, shared, x, y) && HasResult(local, other, shared, both, x, y);
      var m :| m in both && Becomes(local, other, shared, x, y, m);
      OnlyOnce(both, shared, y);
      OneIsShared(local, other, shared);
      assert r == other[..n] + [y];
    }
  }

  lemma MergedWithEmpty(other: seq<Model>, r: seq<Model>)
    requires MayList([], other, r) && forall y :: y in other ==> y.state == Present
    ensures r == other
  {
    var shared := SharedIds([], other);
    AllAdded(other, [], shared);
    var both := r[|Kept([], other)|..];
    assert Arranged([], other, shared, both);
    if both != [] {
      var x, y := ResultOf([], other, shared, both[0]);
    }
    assert r == other + [];
  }

  lemma OnlyResult(local: seq<Model>, other: seq<Model>, m: Model)
    requires |local| == 1 && other != [] && IsResult(local, other, SharedIds(local, other), m) && Distinct(other, SharedIds(local, other))
    requires KeyOf(local[0], SharedIds(local, other)) == KeyOf(other[|other| - 1], SharedIds(local, other))
    ensures May(local[0], other[|other| - 1], m)
  {
    var x, y := ResultOf(local, other, SharedIds(local, other), m);
    SameKeySameItem(other, SharedIds(local, other), y, other[|other| - 1]);
  }

  lemma OnlyOnce(items: seq<Model>, shared: set<Id>, y: Model)
    requires Distinct(items, shared) && items != [] && forall m :: m in items ==> m == y
    ensures items == [y]
  {
    forall i | 0 <= i < |items| ensures items[i] == y {
      assert items[i] in items;
    }
    assert |items| > 1 ==> KeyOf(items[0], shared) != KeyOf(items[1], shared);
  }

  lemma {:induction false} AllAdded(items: seq<Model>, others: seq<Model>, shared: set<Id>)
    requires forall m :: m in items ==> m.state == Present && Find(others, shared, KeyOf(m, shared)).None?
    ensures Added(items, others, shared) == items
  {
    if items != [] {
      AllAdded(items[1..], others, shared);
    }
  }

  /** Of a list of present items all but the last are added, if that one alone has a partner. */
  lemma {:induction false} LastAdded(items: seq<Model>, others: seq<Model>, shared: set<Id>)
    requires items != [] && Find(others, shared, KeyOf(items[|items| - 1], shared)).Some?
    requires forall i :: 0 <= i < |items| - 1 ==> items[i].state == Present && Find(others, shared, KeyOf(items[i], shared)).None?
    ensures Added(items, others, shared) == items[..|items| - 1]
  {
    if |items| == 1 {
      assert Added(items[1..], others, shared) == [];
    } else {
      LastAdded(items[1..], others, shared);
      assert items[..|items| - 1] == [items[0]] + items[1..][..|items[1..]| - 1];
    }
  }

  lemma OneIsShared(local: seq<Model>, other: seq<Model>, shared: set<Id>)
    requires Distinct(other, shared) && (forall y :: y in other ==> y.state == Present)
    requires |local| == 1 && other != [] && KeyOf(local[0], shared) == KeyOf(other[|other| - 1], shared)
    ensures Unmatched(local, other, shared) + Added(other, local, shared) == other[..|other| - 1]
  {
    forall i | 0 <= i < |other| - 1 ensures Find(local, shared, KeyOf(other[i], shared)).None? {
      assert KeyOf(other[i], shared) != KeyOf(other[|other| - 1], shared);
    }
    LastAdded(other, local, shared);
    assert Unmatched(local[1..], other, shared) == [];
    assert Unmatched(local, other, shared) == [];
  }

  /** A merge that is not bound to give the other list. */
  lemma {:induction false} NotOverwritten(local: seq<Model>, other: seq<Model>) returns (r: seq<Model>)
    requires ListMergeable(local, other) && !ListOverwritten(local, other)
    ensures MayList(local, other, r) && r != other
    decreases other, 1
  {
    var shared := SharedIds(local, other);
    r := SomeMerge(local, other);
    if r == other {
      NobodyIsLost(local, other);
      if |local| == 1 {
        LastIsResult(local, other);
        var m := ModelNotOverwritten(local[0], other[|other| - 1]);
        assert Becomes(local, other, shared, local[0], other[|other| - 1], m);
        r := SomeMergeWith(local, other, local[0], other[|other| - 1], m);
        KeyOfResult(local, other, local[0], other[|other| - 1], m);
        if r == other {
          SameKeySameItem(other, shared, m, other[|other| - 1]);
        }
      } else {
        r := Rotated(local, other);
      }
    }
  }

  lemma {:induction false} ModelNotOverwritten(local: Model, other: Model) returns (r: Model)
    requires Mergeable(local, other) && !Overwritten(local, other)
    ensures May(local, other, r) && r != other
    decreases other, 1
  {
    r := Updated(local, other);
    UpdatedMay(local, other);
    if r == other {
      assert r.fields.Keys == local.fields.Keys + other.fields.Keys;
      var k :| k in other.fields && k in local.fields && !FieldOverwritten(local.fields[k], other.fields[k]);
      var f := FieldNotOverwritten(local.fields[k], other.fields[k]);
      r := WithField(local, other, r, k, f);
    }
  }

  /** Any result of a field can be part of a result. */
  lemma WithField(local: Model, other: Model, r: Model, k: string, f: Field) returns (s: Model)
    requires May(local, other, r) && k in local.fields && k in other.fields && MayField(local.fields[k], other.fields[k], f)
    ensures May(local, other, s) && s.fields.Keys == r.fields.Keys && s.fields[k] == f
  {
    s := r.(fields := r.fields[k := f]);
    forall j | j in s.fields && j in local.fields && j in other.fields
      ensures MayField(local.fields[j], other.fields[j], s.fields[j])
    {
      assert j in r.fields;
    }
  }

  lemma {:induction false} FieldNotOverwritten(local: Field, other: Field) returns (f: Field)
    requires FieldMergeable(local, other) && !FieldOverwritten(local, other)
    ensures MayField(local, other, f) && f != other
    decreases other, 1
  {
    if local.Models? && other.Models? {
      var r := NotOverwritten(local.items, other.items);
      f := Models(r);
    } else {
      f := local;
    }
  }

  /** If a merge can give the other list, that has no absent item and every local item has a partner. */
  lemma NobodyIsLost(local: seq<Model>, other: seq<Model>)
    requires Merges(local, other, other)
    ensures forall y :: y in other ==> y.state == Present
    ensures Unmatched(local, other, SharedIds(local, other)) == []
    ensures forall x :: x in local ==> Find(other, SharedIds(local, other), KeyOf(x, SharedIds(local, other))).Some?
  {
    var shared := SharedIds(local, other);
    MergedList(local, other, other);
    forall y | y in other ensures y.state == Present {
      var o := Origin(local, other, other, y);
      if o.Some? && o.value != y {
        var x :| Becomes(local, other, shared, x, o.value, y);
        ResultFacts(local, other, shared, x, o.value, y);
      }
    }
    forall x | x in local ensures Find(other, shared, KeyOf(x, shared)).Some? {
      if Find(other, shared, KeyOf(x, shared)).None? {
        assert Alone(local, other, shared, x);
      }
    }
    if Unmatched(local, other, shared) != [] {
      UnmatchedMembers(local, other, shared, Unmatched(local, other, shared)[0]);
    }
  }

  lemma LastIsResult(local: seq<Model>, other: seq<Model>)
    requires Merges(local, other, other) && |local| == 1
    ensures other != [] && Pair(local, other, SharedIds(local, other), local[0], other[|other| - 1])
  {
    var shared, kept := SharedIds(local, other), Kept(local, other);
    NobodyIsLost(local, other);
    var both := other[|kept|..];
    assert Arranged(local, other, shared, both);
    var y := Find(other, shared, KeyOf(local[0], shared)).value;
    assert Pair(local, other, shared, local[0], y) && HasResult(local, other, shared, both, local[0], y);
    var last := other[|other| - 1];
    assert last == both[|both| - 1];
    var x, o := ResultOf(local, other, shared, last);
    KeyOfResult(local, other, x, o, last);
  }

  /** The shared items, in another order. */
  lemma Rotated(local: seq<Model>, other: seq<Model>) returns (r: seq<Model>)
    requires Merges(local, other, other) && |local| > 1
    ensures MayList(local, other, r) && r != other
  {
    var shared, kept := SharedIds(local, other), Kept(local, other);
    var both := other[|kept|..];
    NobodyIsLost(local, other);
    TwoShared(local, other, both);
    RotatedIsArranged(local, other, shared, both);
    var now := both[1..] + [both[0]];
    r := kept + now;
    assert r[|kept|..] == now && now[0] == both[1] && r[|kept|] == both[1] && other[|kept|] == both[0];
    assert KeyOf(both[0], shared) != KeyOf(both[1], shared);
  }

  lemma TwoShared(local: seq<Model>, other: seq<Model>, both: seq<Model>)
    requires ListMergeable(local, other) && Arranged(local, other, SharedIds(local, other), both) && |local| > 1
    requires forall y :: y in other ==> y.state == Present
    requires forall x :: x in local ==> Find(other, SharedIds(local, other), KeyOf(x, SharedIds(local, other))).Some?
    ensures |both| > 1
  {
    var shared := SharedIds(local, other);
    var m := Renewed(local, other, both, local[0]);
    var n := Renewed(local, other, both, local[1]);
    assert KeyOf(local[0], shared) != KeyOf(local[1], shared);
  }

  lemma Renewed(local: seq<Model>, other: seq<Model>, both: seq<Model>, x: Model) returns (m: Model)
    requires Arranged(local, other, SharedIds(local, other), both) && x in local && forall y :: y in other ==> y.state == Present
    requires Find(other, SharedIds(local, other), KeyOf(x, SharedIds(local, other))).Some?
    ensures m in both && KeyOf(m, SharedIds(local, other)) == KeyOf(x, SharedIds(local, other))
  {
    var shared := SharedIds(local, other);
    var y := Find(other, shared, KeyOf(x, shared)).value;
    assert HasResult(local, other, shared, both, x, y);
    m :| m in both && Becomes(local, other, shared, x, y, m);
    KeyOfResult(local, other, x, y, m);
  }

  lemma RotatedIsArranged(local: seq<Model>, other: seq<Model>, shared: set<Id>, both: seq<Model>)
    requires Arranged(local, other, shared, both) && both != []
    ensures Arranged(local, other, shared, both[1..] + [both[0]])
  {
    var now := both[1..] + [both[0]];
    forall m | m in both[1..] ensures KeyOf(m, shared) != KeyOf(both[0], shared) {
      HeadIsDistinct(both, shared, m);
    }
    DistinctParts(both[1..], [both[0]], shared);
    assert both == [both[0]] + both[1..];
    assert forall m :: m in now <==> m in both;
    forall x, y | Pair(local, other, shared, x, y) ensures HasResult(local, other, shared, now, x, y) {
      assert HasResult(local, other, shared, both, x, y);
      var m :| m in both && Becomes(local, other, shared, x, y, m);
      assert m in now;
    }
  }

  /** At every depth, a list that the update changes is overwritten with its own, or its present items do not repeat ids and its
      removals are quiet. */
  ghost predicate Settles(local: Model, other: Model)
    decreases other
  {
    forall k | k in other.fields && k in local.fields :: FieldSettles(local.fields[k], other.fields[k])
  }

  ghost predicate FieldSettles(local: Field, other: Field)
    decreases other
  {
    local.Models? && other.Models? && local != other ==>
      ListOverwritten(local.items, other.items) || ListSettles(local.items, other.items)
  }

  ghost predicate ListSettles(local: seq<Model>, other: seq<Model>)
    decreases other
  {
    && UniqueIds(other) && Quiet(local, other)
    && forall x, y | x in local && y in other && Pair(local, other, SharedIds(local, other), x, y) :: Settles(x, y)
  }

  /** Whatever the first update gives, the second changes nothing but order. */
  ghost predicate TwiceIsOnce(local: Model, other: Model) {
    forall r :: May(local, other, r) ==> Stable(r, other)
  }

  ghost predicate FieldTwiceIsOnce(local: Field, other: Field) {
    forall f :: MayField(local, other, f) ==> FieldStable(f, other)
  }

  /** Applying an update that does not fail a second time changes nothing but the order of lists, whatever orders the two updates
      choose, exactly when it settles. */
  lemma {:induction false} UpdateTwice(local: Model, other: Model)
    requires Mergeable(local, other)
    ensures TwiceIsOnce(local, other) <==> Settles(local, other)
    decreases other, 1
  {
    forall k | k in other.fields && k in local.fields
      ensures FieldTwiceIsOnce(local.fields[k], other.fields[k]) <==> FieldSettles(local.fields[k], other.fields[k])
    {
      FieldTwice(local.fields[k], other.fields[k]);
    }
    TwiceByFields(local, other);
  }

  lemma TwiceByFields(local: Model, other: Model)
    requires Mergeable(local, other)
    ensures TwiceIsOnce(local, other) <==>
            forall k | k in other.fields && k in local.fields :: FieldTwiceIsOnce(local.fields[k], other.fields[k])
  {
    if forall k | k in other.fields && k in local.fields :: FieldTwiceIsOnce(local.fields[k], other.fields[k]) {
      forall r | May(local, other, r) ensures Stable(r, other) {
        forall k | k in other.fields ensures FieldStable(r.fields[k], other.fields[k]) {
          StableField(local, other, r, k);
        }
        StableByFields(local, other, r);
      }
    }
    if TwiceIsOnce(local, other) {
      forall k | k in other.fields && k in local.fields ensures FieldTwiceIsOnce(local.fields[k], other.fields[k]) {
        forall f | MayField(local.fields[k], other.fields[k], f) ensures FieldStable(f, other.fields[k]) {
          UpdatedMay(local, other);
          var r := WithField(local, other, Updated(local, other), k, f);
          FieldsAreStable(local, other, r, k);
        }
      }
    }
  }

  lemma StableField(local: Model, other: Model, r: Model, k: string)
    requires May(local, other, r) && k in other.fields && k in r.fields
    requires k in local.fields ==> FieldTwiceIsOnce(local.fields[k], other.fields[k])
    ensures FieldStable(r.fields[k], other.fields[k])
  {
    if k in local.fields {
      assert MayField(local.fields[k], other.fields[k], r.fields[k]);
    } else {
      FieldStableItself(other.fields[k]);
    }
  }

  lemma FieldStableItself(f: Field)
    ensures FieldStable(f, f)
  {
    FieldReorderedItself(f);
  }

  lemma StableByFields(local: Model, other: Model, r: Model)
    requires May(local, other, r) && forall k | k in other.fields :: k in r.fields && FieldStable(r.fields[k], other.fields[k])
    ensures Stable(r, other)
  {
    forall s | May(r, other, s) ensures Reordered(r, s) {
      forall k | k in r.fields ensures FieldReordered(r.fields[k], s.fields[k]) {
        if k in other.fields {
          assert MayField(r.fields[k], other.fields[k], s.fields[k]);
        } else {
          FieldReorderedItself(r.fields[k]);
        }
      }
    }
  }

  lemma FieldsAreStable(local: Model, other: Model, r: Model, k: string)
    requires May(local, other, r) && Stable(r, other) && k in other.fields && k in r.fields
    ensures FieldStable(r.fields[k], other.fields[k])
  {
    forall g | MayField(r.fields[k], other.fields[k], g) ensures FieldReordered(r.fields[k], g) {
      UpdatedMay(r, other);
      var s := WithField(r, other, Updated(r, other), k, g);
      assert Reordered(r, s);
    }
  }

  lemma {:induction false} FieldTwice(local: Field, other: Field)
    requires FieldMergeable(local, other)
    ensures FieldTwiceIsOnce(local, other) <==> FieldSettles(local, other)
    decreases other, 1
  {
    if local.Models? && other.Models? && local != other {
      ListTwice(local.items, other.items);
      ListsAreFields(local.items, other.items);
    } else {
      forall f | MayField(local, other, f) ensures FieldStable(f, other) {
        FieldStableItself(other);
        FieldReorderedItself(f);
      }
    }
  }

  ghost predicate ListTwiceIsOnce(local: seq<Model>, other: seq<Model>) {
    forall r :: MayList(local, other, r) ==> r == other || ListStable(r, other)
  }

  lemma ListsAreFields(local: seq<Model>, other: seq<Model>)
    requires local != other
    ensures FieldTwiceIsOnce(Models(local), Models(other)) <==> ListTwiceIsOnce(local, other)
  {
    forall r | MayList(local, other, r) ensures MayField(Models(local), Models(other), Models(r)) {
    }
    forall r ensures FieldStable(Models(r), Models(other)) <==> r == other || ListStable(r, other) {
      ListIsField(r, other);
    }
    if FieldTwiceIsOnce(Models(local), Models(other)) {
      forall r | MayList(local, other, r) ensures r == other || ListStable(r, other) {
        assert FieldStable(Models(r), Models(other));
      }
    }
  }

  lemma ListIsField(r: seq<Model>, other: seq<Model>)
    ensures FieldStable(Models(r), Models(other)) <==> r == other || ListStable(r, other)
  {
    if r == other {
      FieldStableItself(Models(r));
    } else {
      forall s ensures MayField(Models(r), Models(other), Models(s)) <==> MayList(r, other, s) {
      }
      if FieldStable(Models(r), Models(other)) {
        forall s | MayList(r, other, s) ensures SameItems(r, s) {
          assert FieldReordered(Models(r), Models(s));
        }
      }
    }
  }

  lemma {:induction false} ListTwice(local: seq<Model>, other: seq<Model>)
    requires ListMergeable(local, other)
    ensures ListTwiceIsOnce(local, other) <==> ListOverwritten(local, other) || ListSettles(local, other)
    decreases other, 1
  {
    var shared := SharedIds(local, other);
    forall x, y | Pair(local, other, shared, x, y) ensures TwiceIsOnce(x, y) <==> Settles(x, y) {
      UpdateTwice(x, y);
    }
    forall r | MayList(local, other, r) && ListOverwritten(local, other) ensures r == other {
      ListOverwrittenIsOther(local, other, r);
    }
    forall r | MayList(local, other, r) && ListSettles(local, other) ensures ListStable(r, other) {
      MergeTwice(local, other, r);
    }
    if ListTwiceIsOnce(local, other) && !ListOverwritten(local, other) {
      var r := NotOverwritten(local, other);
      MergeTwice(local, other, r);
      forall x, y | Pair(local, other, shared, x, y) ensures TwiceIsOnce(x, y) {
        TwicePair(local, other, x, y);
      }
    }
  }

  lemma TwicePair(local: seq<Model>, other: seq<Model>, x: Model, y: Model)
    requires ListMergeable(local, other) && ListTwiceIsOnce(local, other) && Pair(local, other, SharedIds(local, other), x, y)
    ensures TwiceIsOnce(x, y)
  {
    forall m | May(x, y, m) ensures Stable(m, y) {
      assert Becomes(local, other, SharedIds(local, other), x, y, m);
      var r := SomeMergeWith(local, other, x, y, m);
      if r == other {
        KeyOfResult(local, other, x, y, m);
        SameKeySameItem(other, SharedIds(local, other), m, y);
        StableItself(y);
      } else {
        MergeTwice(local, other, r);
      }
    }
  }

  /** A merge without pairs has one result. */
  lemma OnlyKept(local: seq<Model>, other: seq<Model>)
    requires Distinct(local, SharedIds(local, other)) && Distinct(other, SharedIds(local, other))
    requires forall y :: y in other ==> y.state == Absent
    ensures ListMergeable(local, other)
    ensures forall r :: MayList(local, other, r) <==> r == Unmatched(local, other, SharedIds(local, other))
  {
    var shared, kept := SharedIds(local, other), Kept(local, other);
    NobodyAdded(other, local, shared);
    assert kept == Unmatched(local, other, shared);
    forall r ensures MayList(local, other, r) <==> r == kept {
      if MayList(local, other, r) {
        var both := r[|kept|..];
        assert Arranged(local, other, shared, both);
        if both != [] {
          var x, y := ResultOf(local, other, shared, both[0]);
        }
        assert r == kept + both;
      }
      if r == kept {
        assert r[|kept|..] == [];
      }
    }
  }

  lemma {:induction false} NobodyAdded(items: seq<Model>, others: seq<Model>, shared: set<Id>)
    requires forall m :: m in items ==> m.state == Absent
    ensures Added(items, others, shared) == []
  {
    if items != [] {
      assert items[0] in items;
      NobodyAdded(items[1..], others, shared);
    }
  }

  /** A removal by id that is not quiet: the first merge removes the item with the id, the second one removes the item that
      has had the name of the change all along. */
  lemma SecondMergeRemovesAnother()
    ensures var item := Model(Some("17"), Present, "height", map[]); var bystander := Model(None, Present, "size", map[]);
            var removal := [Model(Some("17"), Absent, "size", map[])];
            && ListMergeable([item, bystander], removal) && ListMergeable([bystander], removal)
            && (forall r :: MayList([item, bystander], removal, r) <==> r == [bystander])
            && (forall r :: MayList([bystander], removal, r) <==> r == [])
            && !Quiet([item, bystander], removal)
  {
    var item := Model(Some("17"), Present, "height", map[]);
    var bystander := Model(None, Present, "size", map[]);
    var gone := Model(Some("17"), Absent, "size", map[]);
    var list := [item, bystander];
    assert item in list && gone in [gone] && bystander in [bystander];
    assert "17" in Ids(list) && "17" in Ids([gone]);
    assert list[1..] == [bystander] && [bystander][1..] == [] && [gone][1..] == [];
    assert Ids([bystander]) == {} && SharedIds(list, [gone]) == {"17"} && SharedIds([bystander], [gone]) == {};
    assert Find([gone], {"17"}, ById("17")) == Some(gone);
    assert Find([gone], {"17"}, ByName("size")) == None;
    assert KeyOf(gone, {"17"}) == ById("17") && KeyOf(bystander, {"17"}) == ByName("size");
    assert Unmatched([bystander], [gone], {"17"}) == [bystander];
    assert Unmatched(list, [gone], {"17"}) == [bystander];
    assert Unmatched([bystander], [gone], {}) == [];
    OnlyKept(list, [gone]);
    OnlyKept([bystander], [gone]);
    assert Alone(list, [gone], SharedIds(list, [gone]), bystander);
    assert LetsGo(list, gone);
  }
}
