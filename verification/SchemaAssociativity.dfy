/** Three schema models merged in either grouping: `update` is associative up to the order of lists. */
module SchemaAssociativity {
  import opened Common
  import opened SchemaUpdate

  /** What the schemas to be merged agree on. At the end of a path of field and item names there is one field, which holds models
      or does not, unless it is an empty list, and an item of a given name, which has one id if it has any. */
  datatype Agreement = Agreement(idOf: (seq<string>, Name) -> Id, holdsModels: seq<string> -> bool)

  ghost predicate Keyed(m: Model, path: seq<string>, agreed: Agreement) {
    forall k | k in m.fields :: FieldKeyed(m.fields[k], path + [k], agreed)
  }

  ghost predicate FieldKeyed(f: Field, path: seq<string>, agreed: Agreement) {
    && (f.Scalars? ==> !agreed.holdsModels(path))
    && (f.Models? && f.items != [] ==> agreed.holdsModels(path) && ListKeyed(f.items, path, agreed))
  }

  ghost predicate ListKeyed(items: seq<Model>, path: seq<string>, agreed: Agreement) {
    && Distinct(items, {}) && IdsTellNames(path, agreed)
    && forall m | m in items :: ItemKeyed(m, path, agreed) && Keyed(m, path + [m.name], agreed)
  }

  ghost predicate IdsTellNames(path: seq<string>, agreed: Agreement) {
    forall n, o :: agreed.idOf(path, n) == agreed.idOf(path, o) ==> n == o
  }

  ghost predicate ItemKeyed(m: Model, path: seq<string>, agreed: Agreement) {
    m.state == Present && (HasId(m) ==> m.id.value == agreed.idOf(path, m.name))
  }

  // ---------- A model without the order of its lists ----------

  datatype Tree = Tree(id: Option<Id>, state: State, name: Name, fields: map<string, Node>)

  datatype Node = Nothing | Leaf(s: string) | Leaves(first: string, more: seq<string>) | Trees(items: map<Name, Tree>)

  function TreeOf(m: Model): Tree {
    Tree(m.id, m.state, m.name, map k | k in m.fields :: NodeOf(m.fields[k]))
  }

  function NodeOf(f: Field): Node {
    match f
    case Null => Nothing
    case Scalar(s) => Leaf(s)
    case Scalars(first, more) => Leaves(first, more)
    case Models(items) => Trees(TreesOf(items))
  }

  function TreesOf(items: seq<Model>): map<Name, Tree> {
    if items == [] then map[] else TreesOf(items[1..])[items[0].name := TreeOf(items[0])]
  }

  function UpdateTree(local: Tree, other: Tree): Tree
    decreases other
  {
    Tree(
      if other.id.Some? then other.id else local.id,
      other.state,
      other.name,
      map k | k in local.fields.Keys + other.fields.Keys ::
        if k !in other.fields then local.fields[k]
        else if k !in local.fields then other.fields[k]
        else UpdateNode(local.fields[k], other.fields[k]))
  }

  function UpdateNode(local: Node, other: Node): Node
    decreases other
  {
    if other.Nothing? then local
    else if local.Nothing? || other.Leaf? then other
    else if local.Leaf? then local
    else if local.Trees? && other.Trees? then
      Trees(map n | n in local.items.Keys + other.items.Keys ::
          if n !in other.items then local.items[n]
          else if n !in local.items then other.items[n]
          else UpdateTree(local.items[n], other.items[n]))
    else other
  }

  // ---------- Updates of trees ----------

  /** No field holds models in one of the two nodes and plain values in the other. */
  predicate SameKind(a: Node, b: Node) {
    (a.Leaves? && b.Trees? ==> b.items == map[]) && (a.Trees? && b.Leaves? ==> a.items == map[])
  }

  ghost predicate TreeTyped(t: Tree, path: seq<string>, agreed: Agreement) {
    forall k | k in t.fields :: NodeTyped(t.fields[k], path + [k], agreed)
  }

  ghost predicate NodeTyped(f: Node, path: seq<string>, agreed: Agreement) {
    && (f.Leaves? ==> !agreed.holdsModels(path))
    && (f.Trees? && f.items != map[] ==> agreed.holdsModels(path))
    && (f.Trees? ==> forall n | n in f.items :: TreeTyped(f.items[n], path + [n], agreed))
  }

  lemma {:induction false} TreeWithItself(t: Tree)
    ensures UpdateTree(t, t) == t
  {
    forall k | k in t.fields ensures UpdateNode(t.fields[k], t.fields[k]) == t.fields[k] {
      NodeWithItself(t.fields[k]);
    }
    assert UpdateTree(t, t).fields == t.fields;
  }

  lemma {:induction false} NodeWithItself(f: Node)
    ensures UpdateNode(f, f) == f
  {
    if f.Trees? {
      forall n | n in f.items ensures UpdateTree(f.items[n], f.items[n]) == f.items[n] {
        TreeWithItself(f.items[n]);
      }
      assert UpdateNode(f, f).items == f.items;
    }
  }

  lemma {:induction false} TreesAssociate(a: Tree, b: Tree, c: Tree, path: seq<string>, agreed: Agreement)
    requires TreeTyped(a, path, agreed) && TreeTyped(b, path, agreed) && TreeTyped(c, path, agreed)
    ensures UpdateTree(UpdateTree(a, b), c) == UpdateTree(a, UpdateTree(b, c))
    decreases c
  {
    var left, right := UpdateTree(UpdateTree(a, b), c), UpdateTree(a, UpdateTree(b, c));
    forall k | k in left.fields ensures left.fields[k] == right.fields[k] {
      if k in a.fields && k in b.fields && k in c.fields {
        NodesAssociate(a.fields[k], b.fields[k], c.fields[k], path + [k], agreed);
      }
    }
    assert left.fields == right.fields;
  }

  lemma {:induction false} NodesAssociate(a: Node, b: Node, c: Node, path: seq<string>, agreed: Agreement)
    requires NodeTyped(a, path, agreed) && NodeTyped(b, path, agreed) && NodeTyped(c, path, agreed)
    ensures UpdateNode(UpdateNode(a, b), c) == UpdateNode(a, UpdateNode(b, c))
    decreases c
  {
    if !a.Trees? || !b.Trees? || !c.Trees? {
      PlainNodesAssociate(a, b, c, path, agreed);
    } else {
      forall n | n in a.items && n in b.items && n in c.items
        ensures UpdateTree(UpdateTree(a.items[n], b.items[n]), c.items[n]) == UpdateTree(a.items[n], UpdateTree(b.items[n], c.items[n]))
      {
        TreesAssociate(a.items[n], b.items[n], c.items[n], path + [n], agreed);
      }
      ItemsAssociate(a, b, c);
    }
  }

  lemma ItemsAssociate(a: Node, b: Node, c: Node)
    requires a.Trees? && b.Trees? && c.Trees?
    requires forall n | n in a.items && n in b.items && n in c.items ::
               UpdateTree(UpdateTree(a.items[n], b.items[n]), c.items[n]) == UpdateTree(a.items[n], UpdateTree(b.items[n], c.items[n]))
    ensures UpdateNode(UpdateNode(a, b), c) == UpdateNode(a, UpdateNode(b, c))
  {
    var left, right := UpdateNode(UpdateNode(a, b), c).items, UpdateNode(a, UpdateNode(b, c)).items;
    assert left.Keys == right.Keys;
    assert forall n | n in left :: left[n] == right[n];
  }

  lemma PlainNodesAssociate(a: Node, b: Node, c: Node, path: seq<string>, agreed: Agreement)
    requires NodeTyped(a, path, agreed) && NodeTyped(b, path, agreed) && NodeTyped(c, path, agreed)
    requires !a.Trees? || !b.Trees? || !c.Trees?
    ensures UpdateNode(UpdateNode(a, b), c) == UpdateNode(a, UpdateNode(b, c))
  {
    assert SameKind(a, b) && SameKind(b, c) && SameKind(a, c);
    if a.Nothing? || b.Nothing? || c.Nothing? {
      assert UpdateNode(UpdateNode(a, b), c) == UpdateNode(a, UpdateNode(b, c));
    } else if c.Leaf? {
      assert UpdateNode(UpdateNode(a, b), c) == UpdateNode(a, UpdateNode(b, c));
    } else if b.Leaf? {
      assert UpdateNode(b, c) == b;
    }
  }

  // ---------- Updates of models are updates of trees ----------

  lemma {:induction false} TreesAt(items: seq<Model>)
    requires Distinct(items, {})
    ensures forall m :: m in items ==> m.name in TreesOf(items) && TreesOf(items)[m.name] == TreeOf(m)
    ensures forall n :: n in TreesOf(items) ==> exists m :: m in items && m.name == n
  {
    if items != [] {
      TreesAt(items[1..]);
      assert items == [items[0]] + items[1..];
      HeadNameIsNew(items);
      forall n | n in TreesOf(items) ensures exists m :: m in items && m.name == n {
        if n == items[0].name {
          assert items[0] in items;
        } else {
          assert n in TreesOf(items[1..]);
          var m :| m in items[1..] && m.name == n;
          assert m in items;
        }
      }
    }
  }

  lemma HeadNameIsNew(items: seq<Model>)
    requires items != [] && Distinct(items, {})
    ensures forall m :: m in items[1..] ==> m.name != items[0].name
  {
    forall m | m in items[1..] ensures m.name != items[0].name {
      var j :| 0 <= j < |items[1..]| && items[1..][j] == m;
      assert KeyOf(items[0], {}) != KeyOf(items[j + 1], {});
    }
  }

  /** Items are merged with each other exactly when they have the same name. */
  lemma KeysAreNames(xs: seq<Model>, ys: seq<Model>, path: seq<string>, agreed: Agreement)
    requires ListKeyed(xs, path, agreed) && ListKeyed(ys, path, agreed)
    ensures var shared := SharedIds(xs, ys);
            && Distinct(xs, shared) && Distinct(ys, shared)
            && forall x, y :: x in xs && y in ys ==> (KeyOf(x, shared) == KeyOf(y, shared) <==> x.name == y.name)
  {
    var shared := SharedIds(xs, ys);
    OneName(xs, shared, path, agreed);
    OneName(ys, shared, path, agreed);
    forall x, y | x in xs && y in ys ensures KeyOf(x, shared) == KeyOf(y, shared) <==> x.name == y.name {
      if x.name == y.name {
        SharedByBoth(xs, ys, path, agreed, x, y);
        SharedByBoth(ys, xs, path, agreed, y, x);
      }
    }
  }

  lemma OneName(items: seq<Model>, shared: set<Id>, path: seq<string>, agreed: Agreement)
    requires ListKeyed(items, path, agreed)
    ensures Distinct(items, shared)
  {
    forall i, j | 0 <= i < j < |items| ensures KeyOf(items[i], shared) != KeyOf(items[j], shared) {
      assert KeyOf(items[i], {}) != KeyOf(items[j], {});
      assert ItemKeyed(items[i], path, agreed) && ItemKeyed(items[j], path, agreed);
    }
  }

  /** If the id of an item is in the other list, the item of the same name there has it. */
  lemma SharedByBoth(xs: seq<Model>, ys: seq<Model>, path: seq<string>, agreed: Agreement, x: Model, y: Model)
    requires ListKeyed(xs, path, agreed) && ListKeyed(ys, path, agreed) && x in xs && y in ys && x.name == y.name
    ensures HasId(x) && x.id.value in Ids(ys) ==> HasId(y) && y.id.value == x.id.value
  {
    if HasId(x) && x.id.value in Ids(ys) {
      var o :| o in ys && HasId(o) && o.id.value == x.id.value;
      assert ItemKeyed(o, path, agreed) && ItemKeyed(x, path, agreed);
      SameKeySameItem(ys, {}, o, y);
    }
  }

  /** Both lists go by their names. */
  ghost predicate ByNames(xs: seq<Model>, ys: seq<Model>) {
    var shared := SharedIds(xs, ys);
    && Distinct(xs, shared) && Distinct(ys, shared) && Distinct(xs, {}) && Distinct(ys, {})
    && (forall x, y :: x in xs && y in ys ==> (KeyOf(x, shared) == KeyOf(y, shared) <==> x.name == y.name))
    && (forall y :: y in ys ==> y.state == Present)
  }

  lemma NamesStayDistinct(xs: seq<Model>, ys: seq<Model>, r: seq<Model>)
    requires ByNames(xs, ys) && Merges(xs, ys, r)
    ensures Distinct(r, {})
  {
    var shared := SharedIds(xs, ys);
    ResultIsDistinct(xs, ys, r);
    forall i, j | 0 <= i < j < |r| ensures r[i].name != r[j].name {
      assert KeyOf(r[i], shared) != KeyOf(r[j], shared);
      if r[i].name == r[j].name {
        OneOfAName(xs, ys, r, r[i], r[j]);
      }
    }
  }

  /** Items of the result with the same name have the same key. */
  lemma OneOfAName(xs: seq<Model>, ys: seq<Model>, r: seq<Model>, m: Model, n: Model)
    requires ByNames(xs, ys) && Merges(xs, ys, r) && m in r && n in r && m.name == n.name
    ensures KeyOf(m, SharedIds(xs, ys)) == KeyOf(n, SharedIds(xs, ys))
  {
    var x, y := Source(xs, ys, r, m);
    var x', y' := Source(xs, ys, r, n);
    NameIsItem(xs);
    NameIsItem(ys);
  }

  /** An item of the result has the key and the name of the items that it comes from. */
  lemma Source(xs: seq<Model>, ys: seq<Model>, r: seq<Model>, m: Model) returns (x: Option<Model>, y: Option<Model>)
    requires ByNames(xs, ys) && Merges(xs, ys, r) && m in r
    ensures x.Some? || y.Some?
    ensures x.Some? ==> x.value in xs && x.value.name == m.name && KeyOf(x.value, SharedIds(xs, ys)) == KeyOf(m, SharedIds(xs, ys))
    ensures y.Some? ==> y.value in ys && y.value.name == m.name && KeyOf(y.value, SharedIds(xs, ys)) == KeyOf(m, SharedIds(xs, ys))
    ensures x.None? ==> forall o :: o in xs ==> o.name != m.name
    ensures y.None? ==> forall o :: o in ys ==> o.name != m.name
  {
    var shared := SharedIds(xs, ys);
    MergedList(xs, ys, r);
    if Alone(xs, ys, shared, m) {
      x, y := Some(m), None;
    } else if Alone(ys, xs, shared, m) {
      x, y := None, Some(m);
    } else {
      var o, p := ResultOf(xs, ys, shared, m);
      KeyOfResult(xs, ys, o, p, m);
      x, y := Some(o), Some(p);
    }
  }

  lemma NameIsItem(items: seq<Model>)
    requires Distinct(items, {})
    ensures forall m, n :: m in items && n in items && m.name == n.name ==> m == n
  {
    forall m, n | m in items && n in items && m.name == n.name ensures m == n {
      SameKeySameItem(items, {}, m, n);
    }
  }

  ghost predicate Renewed(xs: seq<Model>, ys: seq<Model>, x: Model, y: Model, m: Model) {
    x in xs && y in ys && x.name == y.name && May(x, y, m)
  }

  /** What an item of the merged list is, by its name. */
  lemma MergedByName(xs: seq<Model>, ys: seq<Model>, r: seq<Model>, m: Model)
    requires ByNames(xs, ys) && Merges(xs, ys, r) && m in r
    ensures || (m in xs && forall y :: y in ys ==> y.name != m.name)
            || (m in ys && forall x :: x in xs ==> x.name != m.name)
            || exists x, y :: Renewed(xs, ys, x, y, m)
  {
    var shared := SharedIds(xs, ys);
    MergedList(xs, ys, r);
    if !Alone(xs, ys, shared, m) && !Alone(ys, xs, shared, m) {
      var x, y := ResultOf(xs, ys, shared, m);
      assert Renewed(xs, ys, x, y, m);
    }
  }

  lemma NamesLast(xs: seq<Model>, ys: seq<Model>, r: seq<Model>)
    requires ByNames(xs, ys) && Merges(xs, ys, r)
    ensures forall x :: x in xs ==> exists m :: m in r && m.name == x.name
    ensures forall y :: y in ys ==> exists m :: m in r && m.name == y.name
  {
    var shared := SharedIds(xs, ys);
    forall x | x in xs ensures exists m :: m in r && m.name == x.name {
      var m := Lasts(xs, ys, r, Some(x), Find(ys, shared, KeyOf(x, shared)));
    }
    forall y | y in ys ensures exists m :: m in r && m.name == y.name {
      var m := Lasts(xs, ys, r, Find(xs, shared, KeyOf(y, shared)), Some(y));
    }
  }

  /** No name is lost. */
  lemma Lasts(xs: seq<Model>, ys: seq<Model>, r: seq<Model>, x: Option<Model>, y: Option<Model>) returns (m: Model)
    requires ByNames(xs, ys) && Merges(xs, ys, r) && (x.Some? || y.Some?)
    requires x.Some? ==> x.value in xs && y == Find(ys, SharedIds(xs, ys), KeyOf(x.value, SharedIds(xs, ys)))
    requires y.Some? ==> y.value in ys && (x.Some? || Find(xs, SharedIds(xs, ys), KeyOf(y.value, SharedIds(xs, ys))).None?)
    ensures m in r && (x.Some? ==> m.name == x.value.name) && (y.Some? ==> m.name == y.value.name)
  {
    var shared := SharedIds(xs, ys);
    MergedList(xs, ys, r);
    if y.None? {
      m := x.value;
      assert Alone(xs, ys, shared, m);
    } else {
      var o := Find(xs, shared, KeyOf(y.value, shared));
      if o.None? {
        m := y.value;
        assert Alone(ys, xs, shared, m);
      } else {
        assert HasResult(xs, ys, shared, r, o.value, y.value);
        m :| m in r && Becomes(xs, ys, shared, o.value, y.value, m);
        ResultFacts(xs, ys, shared, o.value, y.value, m);
      }
    }
  }

  lemma {:induction false} KeyedMergeable(a: Model, b: Model, path: seq<string>, agreed: Agreement)
    requires Keyed(a, path, agreed) && Keyed(b, path, agreed)
    ensures Mergeable(a, b)
    decreases b, 1
  {
    forall k | k in a.fields && k in b.fields ensures FieldMergeable(a.fields[k], b.fields[k]) {
      if a.fields[k].Models? && b.fields[k].Models? && a.fields[k] != b.fields[k] {
        BothListsKeyed(a.fields[k], b.fields[k], path + [k], agreed);
        ListKeyedMergeable(a.fields[k].items, b.fields[k].items, path + [k], agreed);
      }
    }
  }

  lemma BothListsKeyed(a: Field, b: Field, path: seq<string>, agreed: Agreement)
    requires FieldKeyed(a, path, agreed) && FieldKeyed(b, path, agreed) && a.Models? && b.Models? && a != b
    ensures agreed.holdsModels(path) && ListKeyed(a.items, path, agreed) && ListKeyed(b.items, path, agreed)
  {
  }

  lemma {:induction false} ListKeyedMergeable(xs: seq<Model>, ys: seq<Model>, path: seq<string>, agreed: Agreement)
    requires ListKeyed(xs, path, agreed) && ListKeyed(ys, path, agreed)
    ensures ListMergeable(xs, ys)
    decreases ys, 1
  {
    KeysAreNames(xs, ys, path, agreed);
    forall x, y | Pair(xs, ys, SharedIds(xs, ys), x, y) ensures Mergeable(x, y) {
      KeyedMergeable(x, y, path + [y.name], agreed);
    }
  }

  /** Whatever order an update gives to lists, its result keeps the agreement and is the update of the trees. */
  lemma {:induction false} UpdateKeyed(a: Model, b: Model, r: Model, path: seq<string>, agreed: Agreement)
    requires Keyed(a, path, agreed) && Keyed(b, path, agreed) && May(a, b, r)
    ensures Mergeable(a, b) && Keyed(r, path, agreed) && TreeOf(r) == UpdateTree(TreeOf(a), TreeOf(b))
    decreases b, 1
  {
    KeyedMergeable(a, b, path, agreed);
    forall k | k in a.fields && k in b.fields
      ensures FieldKeyed(r.fields[k], path + [k], agreed)
      ensures NodeOf(r.fields[k]) == UpdateNode(NodeOf(a.fields[k]), NodeOf(b.fields[k]))
    {
      assert k in r.fields;
      FieldUpdateKeyed(a.fields[k], b.fields[k], r.fields[k], path + [k], agreed);
    }
    assert TreeOf(r).fields == UpdateTree(TreeOf(a), TreeOf(b)).fields;
  }

  lemma {:induction false} FieldUpdateKeyed(a: Field, b: Field, f: Field, path: seq<string>, agreed: Agreement)
    requires FieldKeyed(a, path, agreed) && FieldKeyed(b, path, agreed) && MayField(a, b, f)
    ensures FieldKeyed(f, path, agreed) && NodeOf(f) == UpdateNode(NodeOf(a), NodeOf(b))
    decreases b, 1
  {
    if a == b {
      NodeWithItself(NodeOf(a));
    } else if a.Models? && b.Models? {
      BothListsKeyed(a, b, path, agreed);
      ListUpdateKeyed(a.items, b.items, f.items, path, agreed);
    }
  }

  lemma {:induction false} ListUpdateKeyed(xs: seq<Model>, ys: seq<Model>, r: seq<Model>, path: seq<string>, agreed: Agreement)
    requires ListKeyed(xs, path, agreed) && ListKeyed(ys, path, agreed) && MayList(xs, ys, r)
    ensures ListKeyed(r, path, agreed)
    ensures Trees(TreesOf(r)) == UpdateNode(Trees(TreesOf(xs)), Trees(TreesOf(ys)))
    decreases ys, 1
  {
    KeysAreNames(xs, ys, path, agreed);
    ListKeyedMergeable(xs, ys, path, agreed);
    forall x, y, m | Renewed(xs, ys, x, y, m) ensures FollowsTrees(x, y, m, path, agreed) {
      UpdateKeyed(x, y, m, path + [y.name], agreed);
    }
    NamesStayDistinct(xs, ys, r);
    MergedItemsKeyed(xs, ys, r, path, agreed);
    MergedTrees(xs, ys, r, path, agreed);
  }

  ghost predicate FollowsTrees(x: Model, y: Model, m: Model, path: seq<string>, agreed: Agreement) {
    Keyed(m, path + [y.name], agreed) && TreeOf(m) == UpdateTree(TreeOf(x), TreeOf(y))
  }

  lemma MergedItemsKeyed(xs: seq<Model>, ys: seq<Model>, r: seq<Model>, path: seq<string>, agreed: Agreement)
    requires ListKeyed(xs, path, agreed) && ListKeyed(ys, path, agreed) && ByNames(xs, ys) && Merges(xs, ys, r)
    requires forall x, y, m :: Renewed(xs, ys, x, y, m) ==> FollowsTrees(x, y, m, path, agreed)
    ensures forall m :: m in r ==> ItemKeyed(m, path, agreed) && Keyed(m, path + [m.name], agreed)
  {
    forall m | m in r ensures ItemKeyed(m, path, agreed) && Keyed(m, path + [m.name], agreed) {
      MergedByName(xs, ys, r, m);
      if x, y :| Renewed(xs, ys, x, y, m) {
        assert ItemKeyed(x, path, agreed) && ItemKeyed(y, path, agreed) && FollowsTrees(x, y, m, path, agreed);
      }
    }
  }

  lemma MergedTrees(xs: seq<Model>, ys: seq<Model>, r: seq<Model>, path: seq<string>, agreed: Agreement)
    requires ByNames(xs, ys) && Merges(xs, ys, r) && Distinct(r, {})
    requires forall x, y, m :: Renewed(xs, ys, x, y, m) ==> FollowsTrees(x, y, m, path, agreed)
    ensures Trees(TreesOf(r)) == UpdateNode(Trees(TreesOf(xs)), Trees(TreesOf(ys)))
  {
    var t := UpdateNode(Trees(TreesOf(xs)), Trees(TreesOf(ys))).items;
    forall n ensures n in TreesOf(r) <==> n in t {
      SameNames(xs, ys, r, n);
    }
    forall n | n in t ensures TreesOf(r)[n] == t[n] {
      var m := ItemAt(r, n);
      MergedTree(xs, ys, r, m, path, agreed);
    }
    assert TreesOf(r) == t;
  }

  lemma ItemAt(items: seq<Model>, n: Name) returns (m: Model)
    requires Distinct(items, {}) && n in TreesOf(items)
    ensures m in items && m.name == n && TreesOf(items)[n] == TreeOf(m)
  {
    TreesAt(items);
    m :| m in items && m.name == n;
  }

  lemma SameNames(xs: seq<Model>, ys: seq<Model>, r: seq<Model>, n: Name)
    requires ByNames(xs, ys) && Merges(xs, ys, r) && Distinct(r, {})
    ensures n in TreesOf(r) <==> n in TreesOf(xs) || n in TreesOf(ys)
  {
    if n in TreesOf(r) {
      var m := ItemAt(r, n);
      MergedByName(xs, ys, r, m);
      TreesAt(xs);
      TreesAt(ys);
    } else {
      NamesLast(xs, ys, r);
      TreesAt(r);
      if n in TreesOf(xs) {
        var x := ItemAt(xs, n);
      }
      if n in TreesOf(ys) {
        var y := ItemAt(ys, n);
      }
    }
  }

  lemma MergedTree(xs: seq<Model>, ys: seq<Model>, r: seq<Model>, m: Model, path: seq<string>, agreed: Agreement)
    requires ByNames(xs, ys) && Merges(xs, ys, r) && m in r
    requires forall x, y, n :: Renewed(xs, ys, x, y, n) ==> FollowsTrees(x, y, n, path, agreed)
    ensures var t := UpdateNode(Trees(TreesOf(xs)), Trees(TreesOf(ys))).items; m.name in t && t[m.name] == TreeOf(m)
  {
    MergedByName(xs, ys, r, m);
    if x, y :| Renewed(xs, ys, x, y, m) {
      assert FollowsTrees(x, y, m, path, agreed);
      TreeAt(xs, x);
      TreeAt(ys, y);
    } else if m in xs {
      TreeAt(xs, m);
      NoTreeAt(ys, m.name);
    } else {
      TreeAt(ys, m);
      NoTreeAt(xs, m.name);
    }
  }

  lemma TreeAt(items: seq<Model>, m: Model)
    requires Distinct(items, {}) && m in items
    ensures m.name in TreesOf(items) && TreesOf(items)[m.name] == TreeOf(m)
  {
    TreesAt(items);
  }

  lemma NoTreeAt(items: seq<Model>, n: Name)
    requires Distinct(items, {}) && forall m :: m in items ==> m.name != n
    ensures n !in TreesOf(items)
  {
    TreesAt(items);
  }

  // ---------- Associativity ----------

  lemma {:induction false} KeyedIsTyped(m: Model, path: seq<string>, agreed: Agreement)
    requires Keyed(m, path, agreed)
    ensures TreeTyped(TreeOf(m), path, agreed)
  {
    forall k | k in m.fields ensures NodeTyped(NodeOf(m.fields[k]), path + [k], agreed) {
      assert FieldKeyed(m.fields[k], path + [k], agreed);
      assert TreesOf([]) == map[];
      if m.fields[k].Models? && m.fields[k].items != [] {
        ListIsTyped(m.fields[k].items, path + [k], agreed);
      }
    }
  }

  lemma {:induction false} ListIsTyped(items: seq<Model>, path: seq<string>, agreed: Agreement)
    requires ListKeyed(items, path, agreed)
    ensures forall n | n in TreesOf(items) :: TreeTyped(TreesOf(items)[n], path + [n], agreed)
  {
    TreesAt(items);
    forall m | m in items ensures TreeTyped(TreeOf(m), path + [m.name], agreed) {
      KeyedIsTyped(m, path + [m.name], agreed);
    }
  }

  lemma {:induction false} SameTree(a: Model, b: Model, path: seq<string>, agreed: Agreement)
    requires Keyed(a, path, agreed) && Keyed(b, path, agreed) && TreeOf(a) == TreeOf(b)
    ensures Reordered(a, b)
    decreases a
  {
    assert a.fields.Keys == TreeOf(a).fields.Keys == TreeOf(b).fields.Keys == b.fields.Keys;
    forall k | k in a.fields ensures FieldReordered(a.fields[k], b.fields[k]) {
      assert NodeOf(a.fields[k]) == TreeOf(a).fields[k] == TreeOf(b).fields[k] == NodeOf(b.fields[k]);
      assert FieldKeyed(a.fields[k], path + [k], agreed) && FieldKeyed(b.fields[k], path + [k], agreed);
      if a.fields[k].Models? {
        EmptyTogether(a.fields[k].items, b.fields[k].items);
        if a.fields[k].items != [] {
          SameTrees(a.fields[k].items, b.fields[k].items, path + [k], agreed);
        }
      }
    }
  }

  lemma {:induction false} SameTrees(xs: seq<Model>, ys: seq<Model>, path: seq<string>, agreed: Agreement)
    requires ListKeyed(xs, path, agreed) && ListKeyed(ys, path, agreed) && TreesOf(xs) == TreesOf(ys)
    ensures SameItems(xs, ys)
    decreases xs
  {
    NamesCount(xs);
    NamesCount(ys);
    forall m | m in xs ensures Goes(m, ys) {
      var n := Namesake(xs, ys, m);
      SameTree(m, n, path + [m.name], agreed);
    }
    forall n | n in ys ensures Comes(xs, n) {
      var m := Namesake(ys, xs, n);
      SameTree(m, n, path + [m.name], agreed);
    }
  }

  lemma Namesake(xs: seq<Model>, ys: seq<Model>, m: Model) returns (n: Model)
    requires Distinct(xs, {}) && Distinct(ys, {}) && TreesOf(xs) == TreesOf(ys) && m in xs
    ensures n in ys && n.name == m.name && TreeOf(m) == TreeOf(n)
  {
    TreesAt(xs);
    n := ItemAt(ys, m.name);
  }

  lemma EmptyTogether(xs: seq<Model>, ys: seq<Model>)
    requires TreesOf(xs) == TreesOf(ys)
    ensures xs == [] <==> ys == []
  {
    assert TreesOf([]) == map[];
    assert xs != [] ==> xs[0].name in TreesOf(xs);
    assert ys != [] ==> ys[0].name in TreesOf(ys);
  }

  lemma {:induction false} NamesCount(items: seq<Model>)
    requires Distinct(items, {})
    ensures |TreesOf(items)| == |items|
  {
    if items != [] {
      NamesCount(items[1..]);
      TreesAt(items[1..]);
      HeadNameIsNew(items);
    }
  }

  /** Without removals, and where names and ids point at the same items, three updates can be grouped either way: none of them
      fails, and whatever order they give to lists the results are equal up to the order of lists. */
  lemma UpdateIsAssociative(a: Model, b: Model, c: Model, ab: Model, left: Model, bc: Model, right: Model, path: seq<string>, agreed: Agreement)
    requires Keyed(a, path, agreed) && Keyed(b, path, agreed) && Keyed(c, path, agreed)
    requires May(a, b, ab) && May(ab, c, left) && May(b, c, bc) && May(a, bc, right)
    ensures Mergeable(a, b) && Mergeable(ab, c) && Mergeable(b, c) && Mergeable(a, bc)
    ensures Reordered(left, right)
  {
    UpdateKeyed(a, b, ab, path, agreed);
    UpdateKeyed(b, c, bc, path, agreed);
    UpdateKeyed(ab, c, left, path, agreed);
    UpdateKeyed(a, bc, right, path, agreed);
    KeyedIsTyped(a, path, agreed);
    KeyedIsTyped(b, path, agreed);
    KeyedIsTyped(c, path, agreed);
    TreesAssociate(TreeOf(a), TreeOf(b), TreeOf(c), path, agreed);
    SameTree(left, right, path, agreed);
  }
}
