/** The object menu: models are put into buckets by placement, and the buckets are assembled into a tree from "base". */
module Menu {
  import opened Common
  import opened StableSort

  type Kind = string

  const BASE: Kind := "base"

  datatype Model = Model(kind: Kind, title: string, icon: string, includeInMenu: bool, placement: Option<string>) {
    /** An absent or empty placement means the top of the menu. */
    function Bucket(): Kind {
      if placement.Some? && placement.value != "" then placement.value else BASE
    }

    function AsItem(): Item {
      Item(title, "/objects/" + kind, icon, [], kind)
    }
  }

  datatype Item = Item(title: string, path: string, icon: string, children: seq<Item>, kind: Kind) {
    function AllEntry(): Item {
      Item("All " + title + "(s)", path, icon, [], "")
    }
  }

  type Structure = map<Kind, seq<Item>>

  /** The full schema, in the order of its dictionary; kinds are keys, and none of them is empty or "base". */
  ghost predicate ValidSchema(schema: seq<Model>) {
    && (forall i, j :: 0 <= i < j < |schema| ==> schema[i].kind != schema[j].kind)
    && (forall i :: 0 <= i < |schema| ==> schema[i].kind != "" && schema[i].kind != BASE)
  }

  // ---------- Buckets ----------

  function BucketOf(schema: seq<Model>, name: Kind): seq<Item> {
    if schema == [] then []
    else
      var m := schema[|schema| - 1];
      BucketOf(schema[..|schema| - 1], name) + if m.includeInMenu && m.Bucket() == name then [m.AsItem()] else []
  }

  ghost predicate Buckets(schema: seq<Model>, structure: Structure) {
    && (forall name :: name in structure <==> BucketOf(schema, name) != [])
    && (forall name :: name in structure ==> structure[name] == BucketOf(schema, name))
  }

  ghost function StructureOf(schema: seq<Model>): (structure: Structure)
    ensures Buckets(schema, structure)
  {
    var names := set i | 0 <= i < |schema| :: schema[i].Bucket();
    BucketsAreNamed(schema);
    map name | name in names && BucketOf(schema, name) != [] :: BucketOf(schema, name)
  }

  lemma {:induction false} BucketsAreNamed(schema: seq<Model>)
    ensures forall name :: BucketOf(schema, name) != [] ==> exists i :: 0 <= i < |schema| && schema[i].Bucket() == name
  {
    if schema != [] {
      var init := schema[..|schema| - 1];
      BucketsAreNamed(init);
      forall name | BucketOf(schema, name) != [] ensures exists i :: 0 <= i < |schema| && schema[i].Bucket() == name {
        if BucketOf(init, name) != [] {
          var i :| 0 <= i < |init| && init[i].Bucket() == name;
          assert schema[i].Bucket() == name;
        }
      }
    }
  }

  method BuildBuckets(schema: seq<Model>) returns (structure: Structure)
    ensures Buckets(schema, structure)
  {
    structure := map[];
    for i := 0 to |schema|
      invariant Buckets(schema[..i], structure)
    {
      var model := schema[i];
      assert schema[..i + 1][..i] == schema[..i];
      if model.includeInMenu {
        var menuName := model.Bucket();
        if menuName !in structure {
          structure := structure[menuName := []];
        }
        structure := structure[menuName := structure[menuName] + [model.AsItem()]];
      }
    }
    assert schema[..|schema|] == schema;
  }

  predicate Placed(schema: seq<Model>, kind: Kind, bucket: Kind) {
    exists i | 0 <= i < |schema| :: schema[i].includeInMenu && schema[i].kind == kind && schema[i].Bucket() == bucket
  }

  lemma {:induction false} BucketMembers(schema: seq<Model>, name: Kind, k: nat)
    requires ValidSchema(schema) && k < |BucketOf(schema, name)|
    ensures var item := BucketOf(schema, name)[k]; Placed(schema, item.kind, name) && item.children == [] && item.kind != ""
    ensures forall j :: 0 <= j < |BucketOf(schema, name)| && j != k ==> BucketOf(schema, name)[j].kind != BucketOf(schema, name)[k].kind
  {
    var init, m := schema[..|schema| - 1], schema[|schema| - 1];
    var b := BucketOf(schema, name);
    forall j | 0 <= j < |b|
      ensures Placed(schema, b[j].kind, name) && b[j].children == [] && b[j].kind != ""
      ensures j < |BucketOf(init, name)| ==> b[j].kind != m.kind && b[j] == BucketOf(init, name)[j]
    {
      if j < |BucketOf(init, name)| {
        BucketMembers(init, name, j);
        var i :| 0 <= i < |init| && init[i].includeInMenu && init[i].kind == b[j].kind && init[i].Bucket() == name;
        assert schema[i] == init[i];
      }
    }
    if k < |BucketOf(init, name)| {
      BucketMembers(init, name, k);
    }
  }

  lemma {:induction false} BucketComplete(schema: seq<Model>, kind: Kind, name: Kind) returns (k: nat)
    requires ValidSchema(schema) && Placed(schema, kind, name)
    ensures k < |BucketOf(schema, name)| && BucketOf(schema, name)[k].kind == kind
  {
    var init, m := schema[..|schema| - 1], schema[|schema| - 1];
    if m.includeInMenu && m.kind == kind && m.Bucket() == name {
      k := |BucketOf(init, name)|;
    } else {
      var i :| 0 <= i < |schema| && schema[i].includeInMenu && schema[i].kind == kind && schema[i].Bucket() == name;
      assert init[i] == schema[i];
      k := BucketComplete(init, kind, name);
    }
  }

  // ---------- Placement chains ----------

  /** A chain leads from the top of the menu down to its last kind: each kind is placed under the one before it. */
  ghost predicate Chain(schema: seq<Model>, chain: seq<Kind>) {
    && chain != [] && Placed(schema, chain[0], BASE)
    && forall i :: 0 < i < |chain| ==> Placed(schema, chain[i], chain[i - 1])
  }

  lemma OneBucketEach(schema: seq<Model>, kind: Kind, a: Kind, b: Kind)
    requires ValidSchema(schema) && Placed(schema, kind, a) && Placed(schema, kind, b)
    ensures a == b && kind != BASE && kind != ""
  {
  }

  lemma ChainPrefix(schema: seq<Model>, chain: seq<Kind>, n: nat)
    requires Chain(schema, chain) && 0 < n <= |chain|
    ensures Chain(schema, chain[..n])
  {
  }

  /** A kind has at most one chain. */
  lemma {:induction false} ChainIsUnique(schema: seq<Model>, c: seq<Kind>, d: seq<Kind>)
    requires ValidSchema(schema) && Chain(schema, c) && Chain(schema, d) && c[|c| - 1] == d[|d| - 1]
    ensures c == d
    decreases |c|
  {
    var k := c[|c| - 1];
    var cParent, dParent := if |c| == 1 then BASE else c[|c| - 2], if |d| == 1 then BASE else d[|d| - 2];
    OneBucketEach(schema, k, cParent, dParent);
    if |c| > 1 {
      OneBucketEach(schema, cParent, if |c| == 2 then BASE else c[|c| - 3], if |c| == 2 then BASE else c[|c| - 3]);
    }
    if |d| > 1 {
      OneBucketEach(schema, dParent, if |d| == 2 then BASE else d[|d| - 3], if |d| == 2 then BASE else d[|d| - 3]);
    }
    if |c| > 1 && |d| > 1 {
      ChainPrefix(schema, c, |c| - 1);
      ChainPrefix(schema, d, |d| - 1);
      ChainIsUnique(schema, c[..|c| - 1], d[..|d| - 1]);
      assert c == c[..|c| - 1] + [k] && d == d[..|d| - 1] + [k];
    } else {
      assert c == [k] && d == [k];
    }
  }

  function Kinds(schema: seq<Model>): set<Kind> {
    set i | 0 <= i < |schema| :: schema[i].kind
  }

  /** No kind repeats on a chain, cyclic placements or not, so chains are no longer than the schema. */
  lemma ChainIsShort(schema: seq<Model>, chain: seq<Kind>)
    requires ValidSchema(schema) && Chain(schema, chain)
    ensures |chain| <= |Kinds(schema)|
  {
    forall i, j | 0 <= i < j < |chain| ensures chain[i] != chain[j] {
      if chain[i] == chain[j] {
        ChainPrefix(schema, chain, i + 1);
        ChainPrefix(schema, chain, j + 1);
        ChainIsUnique(schema, chain[..i + 1], chain[..j + 1]);
      }
    }
    forall i | 0 <= i < |chain| ensures chain[i] in Kinds(schema) {
      var bucket := if i == 0 then BASE else chain[i - 1];
      assert Placed(schema, chain[i], bucket);
    }
    DistinctFit(chain, Kinds(schema));
  }

  lemma {:induction false} DistinctFit(s: seq<Kind>, all: set<Kind>)
    requires (forall i, j :: 0 <= i < j < |s| ==> s[i] != s[j]) && forall i :: 0 <= i < |s| ==> s[i] in all
    ensures |s| <= |all|
  {
    if s != [] {
      DistinctFit(s[..|s| - 1], all - {s[|s| - 1]});
    }
  }

  /** `chain` is a chain of a schema whose buckets are in `structure`. */
  ghost predicate At(schema: seq<Model>, structure: Structure, chain: seq<Kind>) {
    ValidSchema(schema) && Buckets(schema, structure) && Chain(schema, chain)
  }

  lemma ChainGrows(schema: seq<Model>, structure: Structure, chain: seq<Kind>, k: nat)
    requires At(schema, structure, chain)
    requires chain[|chain| - 1] in structure && k < |structure[chain[|chain| - 1]]|
    ensures At(schema, structure, chain + [structure[chain[|chain| - 1]][k].kind])
    ensures |chain| + 1 <= |Kinds(schema)|
  {
    BucketMembers(schema, chain[|chain| - 1], k);
    ChainIsShort(schema, chain + [structure[chain[|chain| - 1]][k].kind]);
  }

  // ---------- Sorting ----------

  /** Items compare by title. */
  const BY_TITLE: (Item, Item) -> bool := (a: Item, b: Item) => Before(a.title, b.title)

  lemma TitlesAreOrdered()
    ensures WeakOrder(BY_TITLE)
  {
    forall a: Item, b: Item ensures !(BY_TITLE(a, b) && BY_TITLE(b, a)) {
      BeforeIsTotal(a.title, b.title);
    }
    forall a: Item, b: Item, c: Item | !BY_TITLE(b, a) && !BY_TITLE(c, b) ensures !BY_TITLE(c, a) {
      NotBeforeChains(a.title, b.title, c.title);
    }
  }

  lemma NotBeforeChains(a: string, b: string, c: string)
    requires !Before(b, a) && !Before(c, b)
    ensures !Before(c, a)
  {
    BeforeIsTotal(a, b);
    BeforeIsTotal(b, c);
    BeforeIsTotal(a, c);
    if a != b && b != c {
      BeforeChains(a, b, c);
    }
  }

  // ---------- Assembling ----------

  /** The finished item for `item`, which hangs at the end of `chain`. */
  ghost function Assembled(schema: seq<Model>, structure: Structure, item: Item, chain: seq<Kind>): Item
    requires At(schema, structure, chain) && item.kind == chain[|chain| - 1] && item.kind in structure
    decreases |Kinds(schema)| - |chain|, |structure[item.kind]| + 1
  {
    ChainIsShort(schema, chain);
    Item(item.title, "", "", [item.AllEntry()] + Sort(item.children + Finished(schema, structure, chain, |structure[item.kind]|), BY_TITLE), item.kind)
  }

  /** The first n children of the last kind of the chain, finished. */
  ghost function Finished(schema: seq<Model>, structure: Structure, chain: seq<Kind>, n: nat): (r: seq<Item>)
    requires At(schema, structure, chain)
    requires chain[|chain| - 1] in structure && n <= |structure[chain[|chain| - 1]]|
    ensures |r| == n
    decreases |Kinds(schema)| - |chain|, n
  {
    if n == 0 then []
    else
      var child := structure[chain[|chain| - 1]][n - 1];
      ChainGrows(schema, structure, chain, n - 1);
      ChainIsShort(schema, chain);
      Finished(schema, structure, chain, n - 1)
      + [if child.kind in structure then Assembled(schema, structure, child, chain + [child.kind]) else child]
  }

  /** `add_to_menu`; terminates for every schema, because it only follows chains. */
  method AddToMenu(ghost schema: seq<Model>, structure: Structure, menuItem: Item, ghost chain: seq<Kind>) returns (r: Item)
    requires At(schema, structure, chain)
    requires menuItem.kind == chain[|chain| - 1] && menuItem.kind in structure
    ensures r == Assembled(schema, structure, menuItem, chain)
    ensures r.children != [] && r.children[0] == Item("All " + menuItem.title + "(s)", menuItem.path, menuItem.icon, [], "")
    ensures Sorted(r.children[1..], BY_TITLE)
    ensures forall i, j :: 0 < i < j < |r.children| ==> !Before(r.children[j].title, r.children[i].title)
    ensures |r.children| == 1 + |menuItem.children| + |structure[menuItem.kind]|
    decreases |Kinds(schema)| - |chain|
  {
    ChainIsShort(schema, chain);
    var allItems := menuItem.AllEntry();
    var children := menuItem.children;
    for i := 0 to |structure[menuItem.kind]|
      invariant children == menuItem.children + Finished(schema, structure, chain, i)
    {
      var child := structure[menuItem.kind][i];
      ChainGrows(schema, structure, chain, i);
      if child.kind in structure {
        child := AddToMenu(schema, structure, child, chain + [child.kind]);
      }
      NextFinished(schema, structure, chain, i, menuItem.children, child);
      children := children + [child];
    }
    SortedBehind(allItems, children);
    r := Item(menuItem.title, "", "", [allItems] + Sort(children, BY_TITLE), menuItem.kind);
    forall i, j | 0 < i < j < |r.children| ensures !Before(r.children[j].title, r.children[i].title) {
      assert r.children[1..][i - 1] == r.children[i] && r.children[1..][j - 1] == r.children[j];
    }
  }

  lemma SortedBehind(first: Item, children: seq<Item>)
    ensures Sorted(([first] + Sort(children, BY_TITLE))[1..], BY_TITLE) && |Sort(children, BY_TITLE)| == |children|
  {
    TitlesAreOrdered();
    SortSorts(children, BY_TITLE);
    SameElements(children, Sort(children, BY_TITLE));
    assert ([first] + Sort(children, BY_TITLE))[1..] == Sort(children, BY_TITLE);
  }

  lemma NextFinished(schema: seq<Model>, structure: Structure, chain: seq<Kind>, i: nat, before: seq<Item>, child: Item)
    requires At(schema, structure, chain) && chain[|chain| - 1] in structure && i < |structure[chain[|chain| - 1]]|
    requires var c := structure[chain[|chain| - 1]][i]; c.kind in structure ==> At(schema, structure, chain + [c.kind])
    requires var c := structure[chain[|chain| - 1]][i]; child == if c.kind in structure then Assembled(schema, structure, c, chain + [c.kind]) else c
    ensures before + Finished(schema, structure, chain, i) + [child] == before + Finished(schema, structure, chain, i + 1)
  {
  }

  datatype MenuError = NoBaseEntry

  ghost function Top(schema: seq<Model>, structure: Structure, n: nat): (r: seq<Item>)
    requires ValidSchema(schema) && Buckets(schema, structure) && BASE in structure && n <= |structure[BASE]|
    ensures |r| == n
  {
    if n == 0 then []
    else
      var item := structure[BASE][n - 1];
      TopChain(schema, structure, n - 1);
      Top(schema, structure, n - 1) + [if item.kind in structure then Assembled(schema, structure, item, [item.kind]) else item]
  }

  lemma TopChain(schema: seq<Model>, structure: Structure, k: nat)
    requires ValidSchema(schema) && Buckets(schema, structure) && BASE in structure && k < |structure[BASE]|
    ensures Chain(schema, [structure[BASE][k].kind])
  {
    BucketMembers(schema, BASE, k);
  }

  /** The finished "Objects" menu. */
  ghost function Objects(schema: seq<Model>): seq<Item>
    requires ValidSchema(schema) && BASE in StructureOf(schema)
  {
    Sort(Top(schema, StructureOf(schema), |StructureOf(schema)[BASE]|), BY_TITLE)
  }

  /** The "Objects" part of the menu; without any model at the top the source fails on a missing key. */
  method GetObjects(schema: seq<Model>) returns (r: Result<seq<Item>, MenuError>)
    requires ValidSchema(schema)
    ensures r.Err? <==> forall i :: 0 <= i < |schema| && schema[i].includeInMenu ==> schema[i].Bucket() != BASE
    ensures r.Ok? ==> BASE in StructureOf(schema) && r.value == Objects(schema) && Sorted(r.value, BY_TITLE)
    ensures r.Ok? ==> forall i, j :: 0 <= i < j < |r.value| ==> !Before(r.value[j].title, r.value[i].title)
  {
    var structure := BuildBuckets(schema);
    assert structure == StructureOf(schema);
    if BASE !in structure {
      forall i | 0 <= i < |schema| && schema[i].includeInMenu ensures schema[i].Bucket() != BASE {
        if schema[i].Bucket() == BASE {
          var k := BucketComplete(schema, schema[i].kind, BASE);
        }
      }
      return Err(NoBaseEntry);
    }
    var objects := [];
    for i := 0 to |structure[BASE]|
      invariant objects == Top(schema, structure, i)
    {
      var menuItem := structure[BASE][i];
      TopChain(schema, structure, i);
      if menuItem.kind in structure {
        menuItem := AddToMenu(schema, structure, menuItem, [menuItem.kind]);
      }
      objects := objects + [menuItem];
    }
    TitlesAreOrdered();
    SortSorts(objects, BY_TITLE);
    BucketMembers(schema, BASE, 0);
    return Ok(Sort(objects, BY_TITLE));
  }

  // ---------- Every reachable model exactly once ----------

  /** How often a kind occurs in a list of menu items, at any depth. */
  function Count(items: seq<Item>, kind: Kind): nat
    decreases items
  {
    if items == [] then 0
    else CountIn(items[|items| - 1], kind) + Count(items[..|items| - 1], kind)
  }

  function CountIn(item: Item, kind: Kind): nat
    decreases item
  {
    (if item.kind == kind then 1 else 0) + Count(item.children, kind)
  }

  lemma {:induction false} CountConcat(a: seq<Item>, b: seq<Item>, kind: Kind)
    ensures Count(a + b, kind) == Count(a, kind) + Count(b, kind)
  {
    if b == [] {
      assert a + b == a;
    } else {
      assert (a + b)[..|a + b| - 1] == a + b[..|b| - 1];
      CountConcat(a, b[..|b| - 1], kind);
    }
  }

  lemma {:induction false} CountInserted(items: seq<Item>, x: Item, kind: Kind)
    ensures Count(Insert(items, x, BY_TITLE), kind) == Count(items, kind) + CountIn(x, kind)
  {
    if items != [] && BY_TITLE(x, items[|items| - 1]) {
      var init, last := items[..|items| - 1], items[|items| - 1];
      var below := Insert(init, x, BY_TITLE);
      CountInserted(init, x, kind);
      assert (below + [last])[..|below + [last]| - 1] == below;
    } else {
      assert (items + [x])[..|items + [x]| - 1] == items;
    }
  }

  lemma {:induction false} CountSorted(items: seq<Item>, kind: Kind)
    ensures Count(Sort(items, BY_TITLE), kind) == Count(items, kind)
  {
    if items != [] {
      CountSorted(items[..|items| - 1], kind);
      CountInserted(Sort(items[..|items| - 1], BY_TITLE), items[|items| - 1], kind);
    }
  }

  ghost predicate Leads(schema: seq<Model>, chain: seq<Kind>, kind: Kind) {
    Chain(schema, chain) && chain[|chain| - 1] == kind
  }

  /** `d` is the chain of the kind, if it has one. */
  ghost predicate ChainOf(schema: seq<Model>, kind: Kind, d: Option<seq<Kind>>) {
    if d.Some? then Leads(schema, d.value, kind) else forall c :: !Leads(schema, c, kind)
  }

  /** What the item at the end of `chain` contributes: one occurrence if the kind's chain passes through it. */
  function Through(chain: seq<Kind>, d: Option<seq<Kind>>): nat {
    if d.Some? && chain <= d.value then 1 else 0
  }

  /** One of the first n items has this kind. */
  predicate Lists(items: seq<Item>, n: nat, kind: Kind)
    requires n <= |items|
  {
    exists j | 0 <= j < n :: items[j].kind == kind
  }

  lemma LeafCount(schema: seq<Model>, structure: Structure, item: Item, chain: seq<Kind>, kind: Kind, d: Option<seq<Kind>>)
    requires At(schema, structure, chain) && item.kind == chain[|chain| - 1]
    requires item.children == [] && item.kind !in structure && ChainOf(schema, kind, d)
    ensures CountIn(item, kind) == Through(chain, d)
  {
    assert Leads(schema, chain, item.kind);
    if d.Some? {
      if item.kind == kind {
        ChainIsUnique(schema, chain, d.value);
      } else if chain <= d.value {
        assert Placed(schema, d.value[|chain|], item.kind);
        var k := BucketComplete(schema, d.value[|chain|], item.kind);
      }
    }
  }

  lemma {:induction false} AssembledCount(schema: seq<Model>, structure: Structure, item: Item, chain: seq<Kind>, kind: Kind, d: Option<seq<Kind>>)
    requires At(schema, structure, chain) && item.kind == chain[|chain| - 1]
    requires item.children == [] && item.kind in structure && kind != "" && ChainOf(schema, kind, d)
    ensures CountIn(Assembled(schema, structure, item, chain), kind) == Through(chain, d)
    decreases |Kinds(schema)| - |chain|, |structure[item.kind]| + 1
  {
    ChainIsShort(schema, chain);
    FinishedCount(schema, structure, chain, |structure[item.kind]|, kind, d);
    AssembledFromBelow(schema, structure, item, chain, kind);
    OwnAndBelow(schema, structure, chain, kind, d);
  }

  lemma AssembledFromBelow(schema: seq<Model>, structure: Structure, item: Item, chain: seq<Kind>, kind: Kind)
    requires At(schema, structure, chain) && item.kind == chain[|chain| - 1] && item.kind in structure && item.children == [] && kind != ""
    ensures CountIn(Assembled(schema, structure, item, chain), kind)
         == (if item.kind == kind then 1 else 0) + Count(Finished(schema, structure, chain, |structure[item.kind]|), kind)
  {
    var below := Finished(schema, structure, chain, |structure[item.kind]|);
    assert item.children + below == below;
    CountBehindAll(item, below, kind);
  }

  /** The leading entry counts for nothing, and sorting changes no count. */
  lemma CountBehindAll(item: Item, below: seq<Item>, kind: Kind)
    requires kind != ""
    ensures CountIn(Item(item.title, "", "", [item.AllEntry()] + Sort(below, BY_TITLE), item.kind), kind)
         == (if item.kind == kind then 1 else 0) + Count(below, kind)
  {
    CountSorted(below, kind);
    CountConcat([item.AllEntry()], Sort(below, BY_TITLE), kind);
    assert [item.AllEntry()][..0] == [];
  }

  /** An item stands for its own kind or for one below it, never for both. */
  lemma OwnAndBelow(schema: seq<Model>, structure: Structure, chain: seq<Kind>, kind: Kind, d: Option<seq<Kind>>)
    requires At(schema, structure, chain) && chain[|chain| - 1] in structure
    requires ChainOf(schema, kind, d)
    ensures (if chain[|chain| - 1] == kind then 1 else 0) + Descends(structure, chain, |structure[chain[|chain| - 1]]|, d) == Through(chain, d)
  {
    var own := chain[|chain| - 1];
    assert Leads(schema, chain, own);
    if d.Some? {
      if own == kind {
        ChainIsUnique(schema, chain, d.value);
      } else if chain <= d.value {
        assert Placed(schema, d.value[|chain|], own);
        var k := BucketComplete(schema, d.value[|chain|], own);
      }
    }
  }

  /** The kind's chain goes on below `chain` through one of its first n children. */
  function Descends(structure: Structure, chain: seq<Kind>, n: nat, d: Option<seq<Kind>>): nat
    requires chain != [] && chain[|chain| - 1] in structure && n <= |structure[chain[|chain| - 1]]|
  {
    if d.Some? && chain < d.value && Lists(structure[chain[|chain| - 1]], n, d.value[|chain|]) then 1 else 0
  }

  lemma DescendsStep(schema: seq<Model>, structure: Structure, chain: seq<Kind>, n: nat, d: Option<seq<Kind>>)
    requires ValidSchema(schema) && Buckets(schema, structure)
    requires chain != [] && chain[|chain| - 1] in structure && 0 < n <= |structure[chain[|chain| - 1]]|
    ensures Descends(structure, chain, n, d) ==
            Descends(structure, chain, n - 1, d) + Through(chain + [structure[chain[|chain| - 1]][n - 1].kind], d)
  {
    var bucket := structure[chain[|chain| - 1]];
    BucketMembers(schema, chain[|chain| - 1], n - 1);
    if d.Some? && chain < d.value {
      assert Lists(bucket, n, d.value[|chain|]) <==> Lists(bucket, n - 1, d.value[|chain|]) || bucket[n - 1].kind == d.value[|chain|];
      assert chain + [bucket[n - 1].kind] <= d.value <==> d.value[|chain|] == bucket[n - 1].kind;
    }
  }

  lemma {:induction false} FinishedCount(schema: seq<Model>, structure: Structure, chain: seq<Kind>, n: nat, kind: Kind, d: Option<seq<Kind>>)
    requires At(schema, structure, chain) && kind != "" && ChainOf(schema, kind, d)
    requires chain[|chain| - 1] in structure && n <= |structure[chain[|chain| - 1]]|
    ensures Count(Finished(schema, structure, chain, n), kind) == Descends(structure, chain, n, d)
    decreases |Kinds(schema)| - |chain|, n
  {
    if n > 0 {
      var bucket := structure[chain[|chain| - 1]];
      var child := bucket[n - 1];
      var longer := chain + [child.kind];
      ChainGrows(schema, structure, chain, n - 1);
      ChainIsShort(schema, chain);
      BucketMembers(schema, chain[|chain| - 1], n - 1);
      FinishedCount(schema, structure, chain, n - 1, kind, d);
      var last := if child.kind in structure then Assembled(schema, structure, child, longer) else child;
      if child.kind in structure {
        AssembledCount(schema, structure, child, longer, kind, d);
      } else {
        LeafCount(schema, structure, child, longer, kind, d);
      }
      assert CountIn(last, kind) == Through(longer, d);
      assert Finished(schema, structure, chain, n)[..n - 1] == Finished(schema, structure, chain, n - 1);
      DescendsStep(schema, structure, chain, n, d);
    }
  }

  ghost function TopItem(schema: seq<Model>, structure: Structure, item: Item): Item
    requires item.kind in structure ==> At(schema, structure, [item.kind])
  {
    if item.kind in structure then Assembled(schema, structure, item, [item.kind]) else item
  }

  lemma TopItemCount(schema: seq<Model>, structure: Structure, k: nat, kind: Kind, d: Option<seq<Kind>>)
    requires ValidSchema(schema) && Buckets(schema, structure) && BASE in structure && k < |structure[BASE]|
    requires kind != "" && ChainOf(schema, kind, d)
    ensures var item := structure[BASE][k]; At(schema, structure, [item.kind]) && CountIn(TopItem(schema, structure, item), kind) == Through([item.kind], d)
    ensures d.Some? ==> d.value != []
    ensures d.Some? && d.value[0] == structure[BASE][k].kind ==> !Lists(structure[BASE], k, d.value[0])
  {
    var item := structure[BASE][k];
    TopChain(schema, structure, k);
    BucketMembers(schema, BASE, k);
    if item.kind in structure {
      AssembledCount(schema, structure, item, [item.kind], kind, d);
    } else {
      LeafCount(schema, structure, item, [item.kind], kind, d);
    }
  }

  lemma {:induction false} TopCount(schema: seq<Model>, structure: Structure, n: nat, kind: Kind, d: Option<seq<Kind>>)
    requires ValidSchema(schema) && Buckets(schema, structure) && BASE in structure && n <= |structure[BASE]|
    requires kind != "" && ChainOf(schema, kind, d) && (d.Some? ==> d.value != [])
    ensures Count(Top(schema, structure, n), kind) == if d.Some? && Lists(structure[BASE], n, d.value[0]) then 1 else 0
  {
    if n > 0 {
      TopItemCount(schema, structure, n - 1, kind, d);
      TopCount(schema, structure, n - 1, kind, d);
      TopStep(structure[BASE], n, d);
      TopLast(schema, structure, n, kind);
    }
  }

  lemma TopLast(schema: seq<Model>, structure: Structure, n: nat, kind: Kind)
    requires ValidSchema(schema) && Buckets(schema, structure) && BASE in structure && 0 < n <= |structure[BASE]|
    requires At(schema, structure, [structure[BASE][n - 1].kind])
    ensures Count(Top(schema, structure, n), kind)
         == Count(Top(schema, structure, n - 1), kind) + CountIn(TopItem(schema, structure, structure[BASE][n - 1]), kind)
  {
    CountLast(Top(schema, structure, n - 1), TopItem(schema, structure, structure[BASE][n - 1]), kind);
  }

  lemma CountLast(items: seq<Item>, last: Item, kind: Kind)
    ensures Count(items + [last], kind) == Count(items, kind) + CountIn(last, kind)
  {
    assert (items + [last])[..|items|] == items;
  }

  lemma TopStep(bucket: seq<Item>, n: nat, d: Option<seq<Kind>>)
    requires 0 < n <= |bucket| && (d.Some? ==> d.value != [])
    requires d.Some? && d.value[0] == bucket[n - 1].kind ==> !Lists(bucket, n - 1, d.value[0])
    ensures (if d.Some? && Lists(bucket, n, d.value[0]) then 1 else 0)
         == (if d.Some? && Lists(bucket, n - 1, d.value[0]) then 1 else 0) + Through([bucket[n - 1].kind], d)
  {
    if d.Some? {
      assert Lists(bucket, n, d.value[0]) <==> Lists(bucket, n - 1, d.value[0]) || bucket[n - 1].kind == d.value[0];
      assert [bucket[n - 1].kind] <= d.value <==> d.value[0] == bucket[n - 1].kind;
    }
  }

  /** A kind occurs in the menu exactly once if its placement chain reaches the top, and not at all otherwise. */
  lemma EachModelOnce(schema: seq<Model>, kind: Kind)
    requires ValidSchema(schema) && BASE in StructureOf(schema) && kind != ""
    ensures Count(Objects(schema), kind) == if exists c :: Leads(schema, c, kind) then 1 else 0
  {
    var structure := StructureOf(schema);
    var n := |structure[BASE]|;
    CountSorted(Top(schema, structure, n), kind);
    if c :| Leads(schema, c, kind) {
      TopCount(schema, structure, n, kind, Some(c));
      var k := BucketComplete(schema, c[0], BASE);
      assert Lists(structure[BASE], n, c[0]);
    } else {
      TopCount(schema, structure, n, kind, None);
    }
  }

  // ---------- Where a model stands, and as what ----------

  /** The model is included, and its placement is absent, empty or "base". */
  predicate AtTop(m: Model) {
    m.includeInMenu && (m.placement.None? || m.placement.value == "" || m.placement.value == "base")
  }

  predicate Under(m: Model, parent: Model) {
    m.includeInMenu && m.placement == Some(parent.kind)
  }

  /** The models on the way from the top of the menu down to the last one. */
  ghost predicate Trail(schema: seq<Model>, trail: seq<Model>) {
    && trail != [] && (forall m :: m in trail ==> m in schema)
    && AtTop(trail[0]) && forall i :: 0 < i < |trail| ==> Under(trail[i], trail[i - 1])
  }

  /** Going down by the kinds of the trail, one item per level, leads to this item. */
  ghost predicate Found(items: seq<Item>, trail: seq<Model>, item: Item)
    decreases |trail|
  {
    trail != [] && exists k :: 0 <= k < |items| && items[k].kind == trail[0].kind
                               && if |trail| == 1 then items[k] == item else Found(items[k].children, trail[1..], item)
  }

  /** The item shows the model: as a link, or, if other models are placed under it, as a folder whose first entry is the link. */
  ghost predicate ShowsModel(schema: seq<Model>, m: Model, item: Item) {
    && item.kind == m.kind && item.title == m.title
    && if exists x :: x in schema && Under(x, m) then
         && item.path == "" && item.icon == "" && item.children != []
         && item.children[0] == Item("All " + m.title + "(s)", "/objects/" + m.kind, m.icon, [], "")
         && Sorted(item.children[1..], BY_TITLE)
       else item == Item(m.title, "/objects/" + m.kind, m.icon, [], m.kind)
  }

  lemma BucketByPlacement(schema: seq<Model>, m: Model)
    requires ValidSchema(schema) && m in schema && m.includeInMenu
    ensures AtTop(m) <==> m.Bucket() == BASE
    ensures forall p :: p in schema ==> (Under(m, p) <==> m.Bucket() == p.kind)
  {
    forall p | p in schema ensures Under(m, p) <==> m.Bucket() == p.kind {
      var i :| 0 <= i < |schema| && schema[i] == p;
    }
  }

  lemma {:induction false} BucketHolds(schema: seq<Model>, m: Model) returns (k: nat)
    requires m in schema && m.includeInMenu
    ensures k < |BucketOf(schema, m.Bucket())| && BucketOf(schema, m.Bucket())[k] == Item(m.title, "/objects/" + m.kind, m.icon, [], m.kind)
  {
    var init, last := schema[..|schema| - 1], schema[|schema| - 1];
    if m in init {
      k := BucketHolds(init, m);
    } else {
      assert schema == init + [last];
      k := |BucketOf(init, m.Bucket())|;
    }
  }

  /** A model has something under it exactly when its kind is a bucket. */
  lemma FolderIsBucket(schema: seq<Model>, structure: Structure, m: Model)
    requires ValidSchema(schema) && Buckets(schema, structure) && m in schema
    ensures m.kind in structure <==> exists x :: x in schema && Under(x, m)
  {
    if m.kind in structure {
      BucketMembers(schema, m.kind, 0);
      var i :| 0 <= i < |schema| && schema[i].includeInMenu && schema[i].kind == structure[m.kind][0].kind && schema[i].Bucket() == m.kind;
      BucketByPlacement(schema, schema[i]);
    }
    if x :| x in schema && Under(x, m) {
      BucketByPlacement(schema, x);
      var k := BucketHolds(schema, x);
    }
  }

  function KindsOf(trail: seq<Model>): (chain: seq<Kind>)
    ensures |chain| == |trail| && forall i :: 0 <= i < |trail| ==> chain[i] == trail[i].kind
  {
    seq(|trail|, i requires 0 <= i < |trail| => trail[i].kind)
  }

  /** What a child of the chain becomes. */
  ghost function ChildDone(schema: seq<Model>, structure: Structure, chain: seq<Kind>, c: Item): Item
    requires At(schema, structure, chain + [c.kind])
  {
    if c.kind in structure then Assembled(schema, structure, c, chain + [c.kind]) else c
  }

  lemma FinishedAt(schema: seq<Model>, structure: Structure, chain: seq<Kind>, n: nat, k: nat)
    requires At(schema, structure, chain) && chain[|chain| - 1] in structure && k < n <= |structure[chain[|chain| - 1]]|
    requires At(schema, structure, chain + [structure[chain[|chain| - 1]][k].kind])
    ensures Finished(schema, structure, chain, n)[k] == ChildDone(schema, structure, chain, structure[chain[|chain| - 1]][k])
  {
    FinishedKeeps(schema, structure, chain, n, k);
    FinishedLast(schema, structure, chain, k);
  }

  lemma {:induction false} FinishedKeeps(schema: seq<Model>, structure: Structure, chain: seq<Kind>, n: nat, k: nat)
    requires At(schema, structure, chain) && chain[|chain| - 1] in structure && k < n <= |structure[chain[|chain| - 1]]|
    ensures Finished(schema, structure, chain, n)[k] == Finished(schema, structure, chain, k + 1)[k]
    decreases n
  {
    if k + 1 < n {
      FinishedKeeps(schema, structure, chain, n - 1, k);
      FinishedPrefix(schema, structure, chain, n, k);
    } else {
      assert n == k + 1;
    }
  }

  lemma FinishedPrefix(schema: seq<Model>, structure: Structure, chain: seq<Kind>, n: nat, k: nat)
    requires At(schema, structure, chain) && chain[|chain| - 1] in structure && k < n - 1 < |structure[chain[|chain| - 1]]|
    ensures Finished(schema, structure, chain, n)[k] == Finished(schema, structure, chain, n - 1)[k]
  {
  }

  lemma FinishedLast(schema: seq<Model>, structure: Structure, chain: seq<Kind>, k: nat)
    requires At(schema, structure, chain) && chain[|chain| - 1] in structure && k < |structure[chain[|chain| - 1]]|
    requires At(schema, structure, chain + [structure[chain[|chain| - 1]][k].kind])
    ensures Finished(schema, structure, chain, k + 1)[k] == ChildDone(schema, structure, chain, structure[chain[|chain| - 1]][k])
  {
    LastOf(Finished(schema, structure, chain, k), ChildDone(schema, structure, chain, structure[chain[|chain| - 1]][k]));
  }

  lemma LastOf(items: seq<Item>, x: Item)
    ensures (items + [x])[|items|] == x
  {
  }

  lemma {:induction false} TopAt(schema: seq<Model>, structure: Structure, n: nat, k: nat)
    requires ValidSchema(schema) && Buckets(schema, structure) && BASE in structure && k < n <= |structure[BASE]|
    ensures var c := structure[BASE][k];
            && At(schema, structure, [c.kind])
            && Top(schema, structure, n)[k] == if c.kind in structure then Assembled(schema, structure, c, [c.kind]) else c
  {
    TopChain(schema, structure, k);
    if k < n - 1 {
      TopAt(schema, structure, n - 1, k);
    }
  }

  lemma SortKeeps(items: seq<Item>, x: Item)
    requires x in items
    ensures x in Sort(items, BY_TITLE)
  {
    TitlesAreOrdered();
    SortSorts(items, BY_TITLE);
    SameElements(items, Sort(items, BY_TITLE));
  }

  lemma FoundAmongMore(x: Item, items: seq<Item>, trail: seq<Model>, item: Item)
    requires x in items && Found([x], trail, item)
    ensures Found(items, trail, item)
  {
    var k :| 0 <= k < |items| && items[k] == x;
  }

  lemma FoundOne(x: Item, trail: seq<Model>, item: Item)
    requires trail != [] && x.kind == trail[0].kind && if |trail| == 1 then x == item else Found(x.children, trail[1..], item)
    ensures Found([x], trail, item)
  {
    assert [x][0] == x;
  }

  /** The model as a link. */
  function LinkTo(m: Model): Item {
    Item(m.title, "/objects/" + m.kind, m.icon, [], m.kind)
  }

  /** The item of the n-th model of the trail, finished. */
  ghost predicate DoneAt(schema: seq<Model>, structure: Structure, trail: seq<Model>, n: nat, x: Item) {
    && 0 < n <= |trail| && At(schema, structure, KindsOf(trail[..n]))
    && x == if trail[n - 1].kind in structure then Assembled(schema, structure, LinkTo(trail[n - 1]), KindsOf(trail[..n])) else LinkTo(trail[n - 1])
  }

  /** It leads on to the last model. */
  lemma {:induction false} LeadsOn(schema: seq<Model>, structure: Structure, trail: seq<Model>, n: nat, x: Item) returns (item: Item)
    requires ValidSchema(schema) && Buckets(schema, structure) && Trail(schema, trail) && DoneAt(schema, structure, trail, n, x)
    ensures Found([x], trail[n - 1..], item) && ShowsModel(schema, trail[|trail| - 1], item)
    decreases |trail| - n
  {
    if n == |trail| {
      item := x;
      LastShows(schema, structure, trail, x);
      FoundOne(x, trail[n - 1..], item);
    } else {
      var y := ChildOf(schema, structure, trail, n, x);
      item := LeadsOn(schema, structure, trail, n + 1, y);
      FoundAmongMore(y, x.children, trail[n..], item);
      assert trail[n - 1..][1..] == trail[n..];
      FoundOne(x, trail[n - 1..], item);
    }
  }

  lemma LastShows(schema: seq<Model>, structure: Structure, trail: seq<Model>, x: Item)
    requires ValidSchema(schema) && Buckets(schema, structure) && Trail(schema, trail) && DoneAt(schema, structure, trail, |trail|, x)
    ensures ShowsModel(schema, trail[|trail| - 1], x)
  {
    var m := trail[|trail| - 1];
    assert m in trail;
    FolderIsBucket(schema, structure, m);
    if m.kind in structure {
      SortedBehind(LinkTo(m).AllEntry(), [] + Finished(schema, structure, KindsOf(trail[..|trail|]), |structure[m.kind]|));
    }
  }

  /** The finished item of the next model of the trail is a child of this one's. */
  lemma ChildOf(schema: seq<Model>, structure: Structure, trail: seq<Model>, n: nat, x: Item) returns (y: Item)
    requires ValidSchema(schema) && Buckets(schema, structure) && Trail(schema, trail) && n < |trail| && DoneAt(schema, structure, trail, n, x)
    ensures DoneAt(schema, structure, trail, n + 1, y) && y in x.children && x.kind == trail[n - 1].kind
  {
    var m, chain := trail[n], KindsOf(trail[..n]);
    assert m in trail && trail[n - 1] in trail && Under(m, trail[n - 1]);
    BucketByPlacement(schema, m);
    var k := BucketHolds(schema, m);
    var bucket := structure[trail[n - 1].kind];
    assert bucket[k] == LinkTo(m);
    ChainGrows(schema, structure, chain, k);
    assert KindsOf(trail[..n + 1]) == chain + [m.kind];
    y := ChildDone(schema, structure, chain, bucket[k]);
    ChildIsListed(schema, structure, LinkTo(trail[n - 1]), chain, k);
  }

  lemma ChildIsListed(schema: seq<Model>, structure: Structure, own: Item, chain: seq<Kind>, k: nat)
    requires At(schema, structure, chain) && own.kind == chain[|chain| - 1] && own.kind in structure && own.children == [] && k < |structure[own.kind]|
    requires At(schema, structure, chain + [structure[own.kind][k].kind])
    ensures ChildDone(schema, structure, chain, structure[own.kind][k]) in Assembled(schema, structure, own, chain).children
  {
    FinishedAt(schema, structure, chain, |structure[own.kind]|, k);
    ChildIsAssembled(schema, structure, own, chain, Finished(schema, structure, chain, |structure[own.kind]|)[k]);
  }

  lemma ChildIsAssembled(schema: seq<Model>, structure: Structure, own: Item, chain: seq<Kind>, y: Item)
    requires At(schema, structure, chain) && own.kind == chain[|chain| - 1] && own.kind in structure && own.children == []
    requires y in Finished(schema, structure, chain, |structure[own.kind]|)
    ensures y in Assembled(schema, structure, own, chain).children
  {
    var below := Finished(schema, structure, chain, |structure[own.kind]|);
    assert own.children + below == below;
    SortKeeps(below, y);
  }

  /** Every included model whose placements lead up to the top stands in the menu where they say, as a link or as a folder. */
  lemma ModelIsInItsPlace(schema: seq<Model>, trail: seq<Model>)
    requires ValidSchema(schema) && Trail(schema, trail)
    ensures BASE in StructureOf(schema)
    ensures exists item :: Found(Objects(schema), trail, item) && ShowsModel(schema, trail[|trail| - 1], item)
  {
    assert trail[0] in trail;
    BucketByPlacement(schema, trail[0]);
    var k := BucketHolds(schema, trail[0]);
    var item := FoundBelowTop(schema, StructureOf(schema), trail);
  }

  lemma FoundBelowTop(schema: seq<Model>, structure: Structure, trail: seq<Model>) returns (item: Item)
    requires ValidSchema(schema) && Trail(schema, trail) && Buckets(schema, structure) && BASE in structure
    ensures Found(Sort(Top(schema, structure, |structure[BASE]|), BY_TITLE), trail, item) && ShowsModel(schema, trail[|trail| - 1], item)
  {
    var m, top := trail[0], Top(schema, structure, |structure[BASE]|);
    assert m in trail;
    BucketByPlacement(schema, m);
    var k := BucketHolds(schema, m);
    TopAt(schema, structure, |structure[BASE]|, k);
    assert structure[BASE][k] == LinkTo(m) && KindsOf(trail[..1]) == [m.kind];
    item := LeadsOn(schema, structure, trail, 1, top[k]);
    SortKeeps(top, top[k]);
    assert trail[0..] == trail;
    FoundAmongMore(top[k], Sort(top, BY_TITLE), trail, item);
  }
}
