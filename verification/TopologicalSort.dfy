/** Layered topological sort of a dependency dictionary, and the search that reports dependency cycles. */
module TopologicalSort {
  import opened Common

  type Key = string
  type Graph = map<Key, seq<Key>>

  // ---------- Walks, cycles, orders ----------

  predicate DependsOn(g: Graph, a: Key, b: Key) {
    a in g && b in g[a]
  }

  ghost predicate Walk(g: Graph, p: seq<Key>) {
    forall i :: 0 <= i < |p| - 1 ==> DependsOn(g, p[i], p[i + 1])
  }

  ghost predicate Distinct(p: seq<Key>) {
    forall i, j :: 0 <= i < j < |p| ==> p[i] != p[j]
  }

  ghost predicate ClosedWalk(g: Graph, p: seq<Key>) {
    |p| >= 2 && Walk(g, p) && p[0] == p[|p| - 1]
  }

  /** A closed walk whose nodes, but for the return to the start, are all different. */
  ghost predicate Cycle(g: Graph, p: seq<Key>) {
    ClosedWalk(g, p) && Distinct(p[..|p| - 1])
  }

  ghost predicate Acyclic(g: Graph) {
    forall p :: !ClosedWalk(g, p)
  }

  /** A dependency, by its two ends. */
  type Edge = (Key, Key)

  /** Every key comes after the keys it depends on, but for the dependencies that are cut. */
  ghost predicate OrderedBut(g: Graph, cut: set<Edge>, order: seq<Key>) {
    Distinct(order)
    && forall i, d :: 0 <= i < |order| && DependsOn(g, order[i], d) && d in g && (order[i], d) !in cut ==> d in order[..i]
  }

  ghost predicate Ordered(g: Graph, order: seq<Key>) {
    OrderedBut(g, {}, order)
  }

  /** The walk uses a dependency that is cut. */
  ghost predicate Uses(p: seq<Key>, cut: set<Edge>) {
    exists i :: 0 <= i < |p| - 1 && (p[i], p[i + 1]) in cut
  }

  /** Without these dependencies there is no cycle. */
  ghost predicate Breaks(g: Graph, cut: set<Edge>) {
    forall p :: ClosedWalk(g, p) ==> Uses(p, cut)
  }

  /** The last dependency of each cycle, which leads back to its start. */
  ghost function Closing(cycles: seq<seq<Key>>): set<Edge> {
    set c | c in cycles && |c| >= 2 :: (c[|c| - 2], c[|c| - 1])
  }

  ghost predicate OrderOf(g: Graph, order: seq<Key>) {
    Ordered(g, order) && forall k :: k in g <==> k in order
  }

  ghost function Position(order: seq<Key>, k: Key): nat
    requires k in order
    ensures Position(order, k) < |order| && order[Position(order, k)] == k
  {
    var i :| 0 <= i < |order| && order[i] == k; i
  }

  lemma TailIsWalk(g: Graph, p: seq<Key>)
    requires Walk(g, p) && |p| >= 1
    ensures Walk(g, p[1..])
  {
    forall i | 0 <= i < |p[1..]| - 1 ensures DependsOn(g, p[1..][i], p[1..][i + 1]) {
      assert DependsOn(g, p[i + 1], p[i + 2]);
    }
  }

  /** Along a walk inside an ordered graph the position only goes down. */
  lemma {:induction false} WalkGoesDown(g: Graph, cut: set<Edge>, order: seq<Key>, p: seq<Key>)
    requires OrderedBut(g, cut, order) && (forall k :: k in g <==> k in order)
    requires Walk(g, p) && |p| >= 2 && p[|p| - 1] in g && !Uses(p, cut)
    ensures p[0] in g && Position(order, p[|p| - 1]) < Position(order, p[0])
  {
    assert DependsOn(g, p[0], p[1]) && (p[0], p[1]) !in cut;
    if |p| == 2 {
      assert p[1] in order[..Position(order, p[0])];
    } else {
      TailIsWalk(g, p);
      forall i | 0 <= i < |p[1..]| - 1 ensures (p[1..][i], p[1..][i + 1]) !in cut {
        assert (p[i + 1], p[i + 2]) !in cut;
      }
      WalkGoesDown(g, cut, order, p[1..]);
      assert p[1] in order[..Position(order, p[0])];
    }
  }

  lemma OrderBreaks(g: Graph, cut: set<Edge>, order: seq<Key>)
    requires OrderedBut(g, cut, order) && forall k :: k in g <==> k in order
    ensures Breaks(g, cut)
  {
    forall p | ClosedWalk(g, p) ensures Uses(p, cut) {
      if !Uses(p, cut) {
        assert DependsOn(g, p[0], p[1]);
        WalkGoesDown(g, cut, order, p);
      }
    }
  }

  lemma OrderMeansAcyclic(g: Graph, order: seq<Key>)
    requires OrderOf(g, order)
    ensures Acyclic(g)
  {
    OrderBreaks(g, {}, order);
  }

  // ---------- Finding cycles ----------

  /** The dictionary that the search shares and empties as it goes. */
  class CycleFinder {
    ghost const original: Graph
    var pending: Graph
    ghost var finished: seq<Key>
    /** The closing dependencies of the cycles reported so far. */
    ghost var cut: set<Edge>

    constructor (g: Graph)
      ensures original == pending == g && finished == [] && cut == {}
      ensures Consistent([])
    {
      original, pending, finished, cut := g, g, [], {};
    }

    /** Every key is waiting, on the current path, or finished; finished keys are ordered but for what closes a reported cycle. */
    ghost predicate Consistent(path: seq<Key>)
      reads this
    {
      && pending.Keys <= original.Keys && (forall k :: k in pending ==> pending[k] == original[k])
      && (forall k :: k in path ==> k in original && k !in pending && k !in finished)
      && (forall k :: k in finished ==> k in original && k !in pending)
      && (forall k :: k in original ==> k in pending || k in path || k in finished)
      && OrderedBut(original, cut, finished)
    }

    /** These dependencies of the key are finished, or close a reported cycle. */
    ghost predicate Settled(k: Key, ds: seq<Key>)
      reads this
    {
      forall d :: d in ds && d in original && (k, d) !in cut ==> d in finished
    }

    lemma SettledGrows(k: Key, ds: seq<Key>, next: Key, finishedBefore: seq<Key>, cutBefore: set<Edge>)
      requires forall d :: d in ds && d in original && (k, d) !in cutBefore ==> d in finishedBefore
      requires cutBefore <= cut && (forall f :: f in finishedBefore ==> f in finished)
      requires next in original && (k, next) !in cut ==> next in finished
      ensures Settled(k, ds + [next])
    {
    }

    /** Removes the last node of the path from the dictionary. */
    method Pop(path: seq<Key>) returns (nextNodes: seq<Key>)
      requires path != [] && Distinct(path) && Consistent(path[..|path| - 1]) && path[|path| - 1] in pending
      modifies this`pending
      ensures nextNodes == original[path[|path| - 1]]
      ensures Consistent(path) && pending.Keys == old(pending).Keys - {path[|path| - 1]}
    {
      var k := path[|path| - 1];
      nextNodes := pending[k];
      pending := pending - {k};
      assert path == path[..|path| - 1] + [k];
    }

    ghost method Finish(path: seq<Key>)
      requires path != [] && Distinct(path) && Consistent(path)
      requires Settled(path[|path| - 1], original[path[|path| - 1]])
      modifies this`finished
      ensures Consistent(path[..|path| - 1]) && finished == old(finished) + [path[|path| - 1]]
    {
      var k := path[|path| - 1];
      FinishedIsOrdered(original, finished, k, cut);
      finished := finished + [k];
      assert path == path[..|path| - 1] + [k];
    }

    /** `_get_cycles`; the last node of the path is the one to visit. */
    method Visit(path: seq<Key>) returns (cycles: seq<seq<Key>>)
      requires path != [] && Walk(original, path) && Distinct(path) && Consistent(path[..|path| - 1])
      modifies this
      ensures Consistent(path[..|path| - 1])
      ensures pending.Keys <= old(pending).Keys && path[|path| - 1] !in pending
      ensures forall f :: f in old(finished) ==> f in finished
      ensures forall c :: c in cycles ==> Cycle(original, c)
      ensures cut == old(cut) + Closing(cycles)
      decreases |pending|, 0
    {
      var k := path[|path| - 1];
      cycles := [];
      if k !in pending {
        return;
      }
      var nextNodes := Pop(path);
      for i := 0 to |nextNodes|
        invariant Consistent(path)
        invariant pending.Keys <= old(pending).Keys - {k}
        invariant forall f :: f in old(finished) ==> f in finished
        invariant forall c :: c in cycles ==> Cycle(original, c)
        invariant cut == old(cut) + Closing(cycles)
        invariant Settled(k, nextNodes[..i])
      {
        ghost var (finishedBefore, cutBefore) := (finished, cut);
        assert DependsOn(original, k, nextNodes[i]);
        assert nextNodes[..i + 1] == nextNodes[..i] + [nextNodes[i]];
        Smaller(pending.Keys, old(pending).Keys, k);
        var more := VisitNext(path, nextNodes[i]);
        SettledGrows(k, nextNodes[..i], nextNodes[i], finishedBefore, cutBefore);
        CutGrows(old(cut), cycles, more, cutBefore, cut);
        cycles := cycles + more;
      }
      assert nextNodes[..|nextNodes|] == nextNodes;
      Finish(path);
    }

    /** One turn of its loop: a node that is on the path already closes a cycle, any other one is visited. */
    method VisitNext(path: seq<Key>, next: Key) returns (more: seq<seq<Key>>)
      requires path != [] && Walk(original, path) && Distinct(path) && Consistent(path) && DependsOn(original, path[|path| - 1], next)
      modifies this
      ensures Consistent(path) && pending.Keys <= old(pending).Keys
      ensures forall f :: f in old(finished) ==> f in finished
      ensures forall c :: c in more ==> Cycle(original, c)
      ensures cut == old(cut) + Closing(more)
      ensures next in original && (path[|path| - 1], next) !in cut ==> next in finished
      decreases |pending|, 1
    {
      if next in path {
        var at := IndexOf(path, next);
        CycleFound(original, path, at, next);
        more := [path[at..] + [next]];
        cut := cut + {(path[|path| - 1], next)};
        ClosingOfOne(path[at..] + [next]);
      } else {
        PathGrows(original, path, next);
        more := Visit(path + [next]);
      }
    }
  }

  lemma PathGrows(g: Graph, path: seq<Key>, next: Key)
    requires path != [] && Walk(g, path) && Distinct(path) && next !in path && DependsOn(g, path[|path| - 1], next)
    ensures Walk(g, path + [next]) && Distinct(path + [next]) && (path + [next])[..|path + [next]| - 1] == path
  {
  }

  lemma Smaller(a: set<Key>, b: set<Key>, k: Key)
    requires a <= b - {k} && k in b
    ensures |a| < |b|
  {
    assert |b| == |b - {k}| + 1;
    SubsetSize(a, b - {k});
  }

  lemma {:induction false} SubsetSize(a: set<Key>, b: set<Key>)
    requires a <= b
    ensures |a| <= |b|
  {
    if a != {} {
      var x :| x in a;
      SubsetSize(a - {x}, b - {x});
    }
  }

  lemma FinishedIsOrdered(g: Graph, finished: seq<Key>, k: Key, cut: set<Edge>)
    requires k in g && k !in finished && OrderedBut(g, cut, finished)
    requires forall d :: d in g[k] && d in g && (k, d) !in cut ==> d in finished
    ensures OrderedBut(g, cut, finished + [k])
  {
    var f := finished + [k];
    forall i, d | 0 <= i < |f| && DependsOn(g, f[i], d) && d in g && (f[i], d) !in cut ensures d in f[..i] {
      if i < |finished| {
        assert f[..i] == finished[..i];
      } else {
        assert f[..i] == finished;
      }
    }
  }

  lemma CutGrows(first: set<Edge>, cycles: seq<seq<Key>>, more: seq<seq<Key>>, before: set<Edge>, now: set<Edge>)
    requires before == first + Closing(cycles) && now == before + Closing(more)
    ensures now == first + Closing(cycles + more)
  {
    forall e ensures e in Closing(cycles + more) <==> e in Closing(cycles) + Closing(more) {
      if e in Closing(cycles) + Closing(more) {
        var c :| (c in cycles || c in more) && |c| >= 2 && e == (c[|c| - 2], c[|c| - 1]);
        assert c in cycles + more;
      }
    }
  }

  lemma ClosingOfOne(c: seq<Key>)
    requires |c| >= 2
    ensures Closing([c]) == {(c[|c| - 2], c[|c| - 1])}
  {
    assert c in [c];
  }

  method IndexOf(path: seq<Key>, k: Key) returns (at: nat)
    requires k in path
    ensures at < |path| && path[at] == k && k !in path[..at]
  {
    at := 0;
    while path[at] != k
      invariant at < |path| && k !in path[..at] && k in path[at..]
      decreases |path| - at
    {
      at := at + 1;
    }
  }

  lemma CycleFound(g: Graph, path: seq<Key>, at: nat, next: Key)
    requires at < |path| && Walk(g, path) && Distinct(path) && path[at] == next && DependsOn(g, path[|path| - 1], next)
    ensures Cycle(g, path[at..] + [next])
  {
    var c := path[at..] + [next];
    forall i | 0 <= i < |c| - 1 ensures DependsOn(g, c[i], c[i + 1]) {
      assert c[i] == path[at + i];
      if i < |c| - 2 {
        assert c[i + 1] == path[at + i + 1];
      }
    }
    assert c[..|c| - 1] == path[at..];
  }

  /** `get_cycles`: every report is a cycle, and without the dependencies that close the reported cycles the graph has none; so it
      reports something exactly when the graph has a cycle. */
  method GetCycles(g: Graph) returns (cycles: seq<seq<Key>>)
    ensures forall c :: c in cycles ==> Cycle(g, c)
    ensures Breaks(g, Closing(cycles))
    ensures cycles == [] <==> Acyclic(g)
    ensures cycles == [] ==> exists order :: OrderOf(g, order)
  {
    if g == map[] {
      assert OrderOf(g, []);
      OrderMeansAcyclic(g, []);
      return [];
    }
    var finder := new CycleFinder(g);
    cycles := [];
    while finder.pending != map[]
      invariant finder.original == g && finder.Consistent([])
      invariant forall c :: c in cycles ==> Cycle(g, c)
      invariant finder.cut == Closing(cycles)
      decreases finder.pending.Keys
    {
      var start :| start in finder.pending;
      assert [start][..|[start]| - 1] == [];
      var more := finder.Visit([start]);
      CutGrows({}, cycles, more, Closing(cycles), finder.cut);
      cycles := cycles + more;
    }
    OrderBreaks(g, Closing(cycles), finder.finished);
    if cycles == [] {
      assert Closing(cycles) == {} && OrderOf(g, finder.finished);
      OrderMeansAcyclic(g, finder.finished);
    } else {
      assert cycles[0] in cycles;
    }
  }

  // ---------- The layered sort ----------

  datatype SortError = DependencyCycleExists(cycles: seq<seq<Key>>)

  function Deps(g: Graph, k: Key): set<Key> {
    if k in g then set d | d in g[k] else {}
  }

  function Mentioned(g: Graph): set<Key> {
    set k, d | k in g && d in g[k] :: d
  }

  function Below(layers: seq<set<Key>>): set<Key> {
    set i, k | 0 <= i < |layers| && k in layers[i] :: k
  }

  /** Each layer holds the nodes whose dependencies lie in earlier layers, with one in the layer just before. */
  ghost predicate Layered(g: Graph, layers: seq<set<Key>>) {
    forall i, k :: 0 <= i < |layers| && k in layers[i] ==>
      Deps(g, k) <= Below(layers[..i]) && k !in Below(layers[..i]) && (i > 0 ==> Deps(g, k) * layers[i - 1] != {})
  }

  ghost predicate Chain(g: Graph, c: seq<Key>, k: Key) {
    c != [] && c[0] == k && Walk(g, c)
  }

  /** The longest chain of dependencies that starts at `k` has `n` steps. */
  ghost predicate Depth(g: Graph, k: Key, n: nat) {
    && (exists c :: Chain(g, c, k) && |c| - 1 == n)
    && (forall c :: Chain(g, c, k) ==> |c| - 1 <= n)
  }

  /** What a successful sort returns: the nodes, without repetition, each in the layer of its depth and above its dependencies. */
  ghost predicate SortedInto(g: Graph, layers: seq<set<Key>>) {
    && Below(layers) == g.Keys + Mentioned(g)
    && (forall i, j :: 0 <= i < j < |layers| ==> layers[i] !! layers[j])
    && (forall i, k :: 0 <= i < |layers| && k in layers[i] ==> layers[i] != {} && Depth(g, k, i))
    && (forall i, k, d :: 0 <= i < |layers| && k in layers[i] && d in Deps(g, k) ==> d in Below(layers[..i]))
  }

  lemma {:induction false} ChainToTheBottom(g: Graph, layers: seq<set<Key>>, i: nat, k: Key) returns (c: seq<Key>)
    requires Layered(g, layers) && i < |layers| && k in layers[i]
    ensures Chain(g, c, k) && |c| - 1 == i
    decreases i
  {
    if i == 0 {
      c := [k];
    } else {
      var d :| d in Deps(g, k) * layers[i - 1];
      var rest := ChainToTheBottom(g, layers, i - 1, d);
      c := [k] + rest;
      assert DependsOn(g, k, d);
      forall j | 0 <= j < |c| - 1 ensures DependsOn(g, c[j], c[j + 1]) {
        if j > 0 {
          assert DependsOn(g, rest[j - 1], rest[j]);
        }
      }
    }
  }

  lemma {:induction false} ChainIsNoLonger(g: Graph, layers: seq<set<Key>>, i: nat, k: Key, c: seq<Key>)
    requires Layered(g, layers) && i < |layers| && k in layers[i] && Chain(g, c, k)
    ensures |c| - 1 <= i
    decreases i
  {
    if |c| > 1 {
      assert DependsOn(g, c[0], c[1]);
      assert c[1] in Deps(g, k) && c[1] in Below(layers[..i]);
      var j :| 0 <= j < i && c[1] in layers[j];
      TailIsWalk(g, c);
      ChainIsNoLonger(g, layers, j, c[1], c[1..]);
    }
  }

  lemma LayersAreDepths(g: Graph, layers: seq<set<Key>>)
    requires Layered(g, layers)
    ensures forall i, k :: 0 <= i < |layers| && k in layers[i] ==> Depth(g, k, i)
    ensures forall i, j :: 0 <= i < j < |layers| ==> layers[i] !! layers[j]
  {
    forall i, k | 0 <= i < |layers| && k in layers[i] ensures Depth(g, k, i) {
      var c := ChainToTheBottom(g, layers, i, k);
      forall c | Chain(g, c, k) ensures |c| - 1 <= i {
        ChainIsNoLonger(g, layers, i, k, c);
      }
    }
    forall i, j | 0 <= i < j < |layers| ensures layers[i] !! layers[j] {
      forall k | k in layers[i] ensures k !in layers[j] {
        assert k in layers[..j][i];
        assert k in Below(layers[..j]);
      }
    }
  }

  /** Every node that a closed walk visits has chains of any length, so a layered graph has none. */
  lemma LayersMeanAcyclic(g: Graph, layers: seq<set<Key>>)
    requires Layered(g, layers) && Below(layers) == g.Keys + Mentioned(g)
    ensures Acyclic(g)
  {
    forall p ensures !ClosedWalk(g, p) {
      if ClosedWalk(g, p) {
        assert DependsOn(g, p[0], p[1]);
        assert p[0] in Below(layers);
        var i :| 0 <= i < |layers| && p[0] in layers[i];
        var c := LongChain(g, p, i);
        ChainIsNoLonger(g, layers, i, p[0], c);
      }
    }
  }

  lemma {:induction false} LongChain(g: Graph, p: seq<Key>, n: nat) returns (c: seq<Key>)
    requires ClosedWalk(g, p)
    ensures Chain(g, c, p[0]) && |c| - 1 > n
  {
    if n == 0 {
      assert DependsOn(g, p[0], p[1]);
      c := p[..2];
    } else {
      var rest := LongChain(g, p, n - 1);
      c := p + rest[1..];
      forall j | 0 <= j < |c| - 1 ensures DependsOn(g, c[j], c[j + 1]) {
        if j < |p| - 1 {
          assert DependsOn(g, p[j], p[j + 1]);
        } else {
          var i := j - (|p| - 1);
          assert DependsOn(g, rest[i], rest[i + 1]);
          assert c[j] == rest[i] && c[j + 1] == rest[i + 1];
        }
      }
    }
  }

  /** The order in which a set is iterated is not specified. */
  method Listed(s: set<Key>) returns (r: seq<Key>)
    ensures forall k :: k in r <==> k in s
  {
    r := [];
    var left := s;
    while left != {}
      invariant left <= s && forall k :: k in r <==> k in s - left
      decreases left
    {
      var k :| k in left;
      r := r + [k];
      left := left - {k};
    }
  }

  /** The dictionary of sets, handed to the cycle search. */
  method AsGraph(m: map<Key, set<Key>>) returns (g: Graph)
    ensures g.Keys == m.Keys && forall k, d :: k in m ==> (d in g[k] <==> d in m[k])
  {
    g := map[];
    var left := m.Keys;
    while left != {}
      invariant left <= m.Keys && g.Keys == m.Keys - left
      invariant forall k, d :: k in g ==> (d in g[k] <==> d in m[k])
      decreases left
    {
      var k :| k in left;
      var ds := Listed(m[k]);
      g := g[k := ds];
      left := left - {k};
    }
  }

  /** The dictionary that is left after some layers: the other nodes, with the dependencies that are not placed yet. */
  ghost predicate LeftAfter(g: Graph, layers: seq<set<Key>>, left: map<Key, set<Key>>) {
    && left.Keys == (g.Keys + Mentioned(g)) - Below(layers)
    && Below(layers) <= g.Keys + Mentioned(g)
    && (forall k :: k in left ==> left[k] == Deps(g, k) - Below(layers))
    && (|layers| > 0 ==> forall k :: k in left ==> !(Deps(g, k) <= Below(layers[..|layers| - 1])))
  }

  lemma BelowGrows(layers: seq<set<Key>>, next: set<Key>)
    ensures Below(layers + [next]) == Below(layers) + next
    ensures (layers + [next])[..|layers|] == layers
  {
    var l := layers + [next];
    forall k ensures k in Below(l) <==> k in Below(layers) + next {
      if k in Below(layers) {
        var i :| 0 <= i < |layers| && k in layers[i];
        assert k in l[i];
      }
      if k in next {
        assert k in l[|layers|];
      }
      if k in Below(l) {
        var i :| 0 <= i < |l| && k in l[i];
      }
    }
  }

  /** The keys that depend on nothing that is left. */
  function Free(left: map<Key, set<Key>>): set<Key> {
    set k | k in left && left[k] == {}
  }

  function Without(left: map<Key, set<Key>>, gone: set<Key>): map<Key, set<Key>> {
    map k | k in left && k !in gone :: left[k] - gone
  }

  lemma NextLayerFits(g: Graph, layers: seq<set<Key>>, left: map<Key, set<Key>>, k: Key)
    requires LeftAfter(g, layers, left) && k in Free(left)
    ensures Deps(g, k) <= Below(layers) && k !in Below(layers) && (|layers| > 0 ==> Deps(g, k) * layers[|layers| - 1] != {})
  {
    assert left[k] == {} && left[k] == Deps(g, k) - Below(layers);
    forall d | d in Deps(g, k) ensures d in Below(layers) {
      assert d in Below(layers) || d in Deps(g, k) - Below(layers);
    }
    if |layers| > 0 {
      var n := |layers| - 1;
      BelowGrows(layers[..n], layers[n]);
      assert layers == layers[..n] + [layers[n]];
      var d :| d in Deps(g, k) && d !in Below(layers[..n]);
      assert d in Deps(g, k) * layers[n];
    }
  }

  lemma LayersGrow(g: Graph, layers: seq<set<Key>>, left: map<Key, set<Key>>)
    requires Layered(g, layers) && LeftAfter(g, layers, left)
    ensures Layered(g, layers + [Free(left)])
  {
    var l := layers + [Free(left)];
    forall i, k | 0 <= i < |l| && k in l[i]
      ensures Deps(g, k) <= Below(l[..i]) && k !in Below(l[..i]) && (i > 0 ==> Deps(g, k) * l[i - 1] != {})
    {
      if i < |layers| {
        assert l[..i] == layers[..i] && k in layers[i];
      } else {
        assert l[..i] == layers;
        NextLayerFits(g, layers, left, k);
      }
    }
  }

  lemma LeftShrinks(g: Graph, layers: seq<set<Key>>, left: map<Key, set<Key>>)
    requires LeftAfter(g, layers, left)
    ensures LeftAfter(g, layers + [Free(left)], Without(left, Free(left)))
  {
    BelowGrows(layers, Free(left));
    forall k | k in Without(left, Free(left)) ensures !(Deps(g, k) <= Below(layers)) {
      assert left[k] != {} && left[k] == Deps(g, k) - Below(layers);
    }
  }

  ghost predicate Progress(g: Graph, layers: seq<set<Key>>, left: map<Key, set<Key>>) {
    Layered(g, layers) && LeftAfter(g, layers, left) && forall i :: 0 <= i < |layers| ==> layers[i] != {}
  }

  function Start(g: Graph): map<Key, set<Key>> {
    var missing := Mentioned(g) - g.Keys;
    map k | k in g.Keys + missing :: Deps(g, k)
  }

  lemma FirstRound(g: Graph)
    ensures Progress(g, [], Start(g))
  {
  }

  lemma NextRound(g: Graph, layers: seq<set<Key>>, left: map<Key, set<Key>>)
    requires Progress(g, layers, left)
    ensures Free(left) != {} ==> Progress(g, layers + [Free(left)], Without(left, Free(left)))
    ensures Layered(g, layers + [Free(left)]) && LeftAfter(g, layers + [Free(left)], Without(left, Free(left)))
  {
    LayersGrow(g, layers, left);
    LeftShrinks(g, layers, left);
  }

  lemma FreeKeysGo(left: map<Key, set<Key>>)
    ensures Free(left) != {} ==> Without(left, Free(left)).Keys < left.Keys
    ensures Free(left) == {} ==> Without(left, Free(left)) == left
  {
    if Free(left) != {} {
      var k :| k in Free(left);
      assert k in left.Keys && k !in Without(left, Free(left)).Keys;
    } else {
      assert Without(left, {}).Keys == left.Keys;
      assert forall k :: k in left ==> Without(left, {})[k] == left[k];
    }
  }

  lemma LastRound(g: Graph, layers: seq<set<Key>>, left: map<Key, set<Key>>)
    requires Progress(g, layers, left) && left == map[]
    ensures SortedInto(g, layers) && Acyclic(g)
  {
    assert left.Keys == {};
    LayersAreDepths(g, layers);
    LayersMeanAcyclic(g, layers);
  }

  /** The layers, or the cycles that prevent them. */
  method TopologicalSort(g: Graph) returns (r: Result<seq<set<Key>>, SortError>)
    ensures r.Ok? <==> Acyclic(g)
    ensures r.Ok? ==> SortedInto(g, r.value)
    ensures r.Err? ==> r.error.cycles != [] && (forall c :: c in r.error.cycles ==> Cycle(g, c)) && Breaks(g, Closing(r.error.cycles))
  {
    FirstRound(g);
    if g == map[] {
      LastRound(g, [], Start(g));
      return Ok([]);
    }
    var toSort := Start(g);
    var ordered: seq<set<Key>> := [];
    while toSort != map[]
      invariant Progress(g, ordered, toSort)
      decreases toSort.Keys
    {
      var nondependant := Free(toSort);
      NextRound(g, ordered, toSort);
      FreeKeysGo(toSort);
      toSort := Without(toSort, nondependant);
      ordered := ordered + [nondependant];
      if nondependant == {} && toSort != map[] {
        var cycles := CyclesLeft(g, ordered, toSort);
        return Err(DependencyCycleExists(cycles));
      }
    }
    LastRound(g, ordered, toSort);
    return Ok(ordered);
  }

  ghost predicate HasNext(g: Graph, k: Key) {
    exists d :: d in g && DependsOn(g, k, d)
  }

  /** Where every key depends on another one of the graph, there is no first key. */
  lemma NobodyFirst(g: Graph, order: seq<Key>)
    requires g != map[] && forall k {:trigger HasNext(g, k)} :: k in g ==> HasNext(g, k)
    ensures !OrderOf(g, order)
  {
    var k :| k in g;
    if k in order {
      assert order[0] in g ==> HasNext(g, order[0]);
    }
  }

  lemma AllHaveNext(g: Graph, layers: seq<set<Key>>, left: map<Key, set<Key>>, remaining: Graph)
    requires LeftAfter(g, layers, left) && Free(left) == {}
    requires remaining.Keys == left.Keys && forall k, d :: k in left ==> (d in remaining[k] <==> d in left[k])
    ensures forall k {:trigger HasNext(remaining, k)} :: k in remaining ==> HasNext(remaining, k)
    ensures forall k, d :: DependsOn(remaining, k, d) ==> DependsOn(g, k, d)
  {
    forall k {:trigger HasNext(remaining, k)} | k in remaining ensures HasNext(remaining, k) {
      assert k !in Free(left);
      var d :| d in left[k];
      assert d in Deps(g, k) && d in left;
      assert DependsOn(remaining, k, d);
    }
  }

  /** The cycles of what is left when no key is free. */
  method CyclesLeft(g: Graph, ghost layers: seq<set<Key>>, left: map<Key, set<Key>>) returns (cycles: seq<seq<Key>>)
    requires Layered(g, layers) && LeftAfter(g, layers, left) && left != map[] && Free(left) == {}
    ensures cycles != [] && (forall c :: c in cycles ==> Cycle(g, c)) && !Acyclic(g) && Breaks(g, Closing(cycles))
  {
    var remaining := AsGraph(left);
    AllHaveNext(g, layers, left, remaining);
    cycles := GetCycles(remaining);
    if cycles == [] {
      ghost var order :| OrderOf(remaining, order);
      NobodyFirst(remaining, order);
    }
    forall c | c in cycles ensures Cycle(g, c) {
      CycleInWhole(g, remaining, c);
    }
    assert cycles[0] in cycles;
    forall p | ClosedWalk(g, p) ensures Uses(p, Closing(cycles)) {
      CyclesAreLeft(g, layers, left, remaining, p);
    }
  }

  /** Below the layers every chain ends, so whatever closes is left. */
  lemma CyclesAreLeft(g: Graph, layers: seq<set<Key>>, left: map<Key, set<Key>>, remaining: Graph, p: seq<Key>)
    requires Layered(g, layers) && LeftAfter(g, layers, left) && ClosedWalk(g, p)
    requires remaining.Keys == left.Keys && forall k, d :: k in left ==> (d in remaining[k] <==> d in left[k])
    ensures ClosedWalk(remaining, p)
  {
    forall i | 0 <= i < |p| ensures p[i] !in Below(layers) {
      if p[i] in Below(layers) {
        StaysBelow(g, layers, p, i);
        var j :| 0 <= j < |layers| && p[0] in layers[j];
        var c := LongChain(g, p, j);
        ChainIsNoLonger(g, layers, j, p[0], c);
      }
    }
    forall i | 0 <= i < |p| - 1 ensures DependsOn(remaining, p[i], p[i + 1]) {
      assert DependsOn(g, p[i], p[i + 1]);
      assert p[i + 1] in Deps(g, p[i]) - Below(layers);
    }
  }

  /** What a node below the layers depends on is below them too. */
  lemma {:induction false} StaysBelow(g: Graph, layers: seq<set<Key>>, p: seq<Key>, i: nat)
    requires Layered(g, layers) && Walk(g, p) && i < |p| && p[i] in Below(layers)
    ensures p[|p| - 1] in Below(layers)
    decreases |p| - i
  {
    if i < |p| - 1 {
      assert DependsOn(g, p[i], p[i + 1]);
      var j :| 0 <= j < |layers| && p[i] in layers[j];
      assert p[i + 1] in Deps(g, p[i]) && p[i + 1] in Below(layers[..j]);
      var n :| 0 <= n < j && p[i + 1] in layers[..j][n];
      assert p[i + 1] in layers[n];
      StaysBelow(g, layers, p, i + 1);
    }
  }

  lemma CycleInWhole(g: Graph, remaining: Graph, c: seq<Key>)
    requires Cycle(remaining, c) && forall k, d :: DependsOn(remaining, k, d) ==> DependsOn(g, k, d)
    ensures Cycle(g, c)
  {
    forall i | 0 <= i < |c| - 1 ensures DependsOn(g, c[i], c[i + 1]) {
      assert DependsOn(remaining, c[i], c[i + 1]);
    }
  }
}
