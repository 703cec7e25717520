/**
 The branching temporal graph: edges that belong to a branch and live for an interval of time,
 and the windows through which a branch reads them.
 */
module TemporalGraph {
  import opened Common

  type Time = int
  type BranchName = string
  type EdgeId = nat
  type VertexId = nat

  const GLOBAL_BRANCH: BranchName := "-global-"
  const DEFAULT_LEVEL: nat := 1

  datatype Status = Active | Deleted

  /** What an edge is about: edges in one slot compete for the same answer.
      A slot is agnostic when the schema stores the element on the global branch. */
  datatype Slot =
    | PartOf(node: VertexId, agnostic: bool)
    | HasAttribute(node: VertexId, attribute: VertexId, agnostic: bool)
    | Property(owner: VertexId, name: string, agnostic: bool)
    | Related(node: VertexId, relation: VertexId, agnostic: bool)

  /** `since` and `until` are the `from` and `to` fields of the stored edge. */
  datatype Edge = Edge(
    slot: Slot,
    dst: VertexId,
    branch: BranchName,
    level: nat,
    since: Time,
    until: Option<Time>,
    status: Status,
    conflict: Option<string>)

  type Edges = map<EdgeId, Edge>

  datatype Store = Store(edges: Edges, next: EdgeId) {
    /** Identifiers are handed out in order, so a new edge never replaces an old one. */
    ghost predicate Valid() {
      forall id :: id in edges ==> id < next
    }
  }

  datatype Window = Window(branches: set<BranchName>, time: Time)

  datatype BranchInfo = BranchInfo(
    name: BranchName,
    origin: BranchName,
    branchedFrom: Time,
    level: nat,
    isDefault: bool,
    isIsolated: bool)
  {
    /** The time at which the origin branch is read. */
    function OriginTime(at: Time, isIsolated: bool := true): Time {
      if this.isIsolated && isIsolated && at > branchedFrom then branchedFrom else at
    }

    /** The windows in the order of the source's dictionary; equal keys collapse, the last value wins. */
    function TimesToQueryGlobal(at: Time, isIsolated: bool := true): seq<Window> {
      var own := Window({GLOBAL_BRANCH, name}, at);
      var inherited := Window({GLOBAL_BRANCH, origin}, OriginTime(at, isIsolated));
      if isDefault || inherited.branches == own.branches then [own] else [inherited, own]
    }
  }

  /** The interval definition of visibility; both ends are included. */
  predicate Alive(e: Edge, t: Time) {
    e.since <= t && (e.until.None? || t <= e.until.value)
  }

  predicate Visible(e: Edge, w: Window) {
    e.branch in w.branches && Alive(e, w.time)
  }

  predicate Selected(e: Edge, ws: seq<Window>) {
    exists i | 0 <= i < |ws| :: Visible(e, ws[i])
  }

  /** What a branch sees: its own and global edges at the query time, and those of its origin at that time too, unless the branch and
      the read are both isolated and the branch was cut before. */
  lemma SeenThroughWindows(b: BranchInfo, at: Time, isolated: bool, e: Edge)
    ensures b.isDefault ==> (Selected(e, b.TimesToQueryGlobal(at, isolated)) <==> e.branch in {GLOBAL_BRANCH, b.name} && Alive(e, at))
    ensures !b.isDefault && b.origin != b.name ==>
              (Selected(e, b.TimesToQueryGlobal(at, isolated)) <==>
                 || (e.branch in {GLOBAL_BRANCH, b.name} && Alive(e, at))
                 || (e.branch in {GLOBAL_BRANCH, b.origin} && Alive(e, if b.isIsolated && isolated && b.branchedFrom < at then b.branchedFrom else at)))
  {
    var ws := b.TimesToQueryGlobal(at, isolated);
    if !b.isDefault && b.origin != b.name {
      assert b.origin in {GLOBAL_BRANCH, b.origin} && b.name in {GLOBAL_BRANCH, b.name};
      assert |ws| == 2 && (Visible(e, ws[0]) || Visible(e, ws[1]) <==> Selected(e, ws));
    } else if b.isDefault {
      assert Visible(e, ws[0]) <==> Selected(e, ws);
    }
  }

  // ---------- Reading a slot ----------

  /** Competing edges are ordered by branch level, then by the most recent start. */
  predicate Beats(e: Edge, f: Edge) {
    e.level > f.level || (e.level == f.level && e.since > f.since)
  }

  ghost predicate Candidate(edges: Edges, ws: seq<Window>, slot: Slot, id: EdgeId) {
    id in edges && edges[id].slot == slot && Selected(edges[id], ws)
  }

  ghost predicate Top(edges: Edges, ws: seq<Window>, slot: Slot, id: EdgeId) {
    && Candidate(edges, ws, slot, id)
    && forall other :: Candidate(edges, ws, slot, other) ==> !Beats(edges[other], edges[id])
  }

  function Outcome(e: Edge): Option<VertexId> {
    if e.status == Deleted then None else Some(e.dst)
  }

  /** The slot reads as `value`: all the best edges agree on it, and without an edge it reads as None. */
  ghost predicate Shows(edges: Edges, ws: seq<Window>, slot: Slot, value: Option<VertexId>) {
    && (forall id :: Top(edges, ws, slot, id) ==> Outcome(edges[id]) == value)
    && (value.None? || exists id :: Top(edges, ws, slot, id))
  }

  /** Two views that offer the same candidates in a slot give the same answer. */
  lemma SameCandidatesSameAnswer(a: Edges, wa: seq<Window>, b: Edges, wb: seq<Window>, slot: Slot, value: Option<VertexId>)
    requires forall id :: Candidate(a, wa, slot, id) <==> Candidate(b, wb, slot, id)
    requires forall id :: Candidate(a, wa, slot, id) ==> id in b && b[id] == a[id].(until := b[id].until)
    ensures Shows(a, wa, slot, value) <==> Shows(b, wb, slot, value)
  {
    forall id
      ensures Top(a, wa, slot, id) <==> Top(b, wb, slot, id)
    {
      if Candidate(a, wa, slot, id) {
        assert forall o :: Candidate(a, wa, slot, o) ==> (Beats(a[o], a[id]) <==> Beats(b[o], b[id]));
      }
    }
  }

  /** Some edge of a non-empty set is beaten by no edge of the set. */
  lemma {:induction false} BestOf(edges: Edges, ids: set<EdgeId>) returns (best: EdgeId)
    requires ids != {} && ids <= edges.Keys
    ensures best in ids
    ensures forall id :: id in ids ==> !Beats(edges[id], edges[best])
  {
    var x :| x in ids;
    if ids == {x} {
      best := x;
    } else {
      best := BestOf(edges, ids - {x});
      if Beats(edges[x], edges[best]) {
        best := x;
      }
    }
  }

  /** Whenever a slot has candidates, one of them is a best edge. */
  lemma TopExists(edges: Edges, ws: seq<Window>, slot: Slot, id: EdgeId) returns (best: EdgeId)
    requires Candidate(edges, ws, slot, id)
    ensures Top(edges, ws, slot, best)
  {
    var ids := set o | o in edges && Candidate(edges, ws, slot, o);
    assert id in ids;
    best := BestOf(edges, ids);
  }

  /** A slot reads as at most one value. */
  lemma AnswerIsUnique(edges: Edges, ws: seq<Window>, slot: Slot, v: Option<VertexId>, w: Option<VertexId>)
    requires Shows(edges, ws, slot, v)
    ensures Shows(edges, ws, slot, w) <==> v == w
  {
    if v.Some? {
      var id :| Top(edges, ws, slot, id);
      assert Outcome(edges[id]) == v;
    }
  }

  // ---------- Primitive changes ----------

  function AddEdge(s: Store, e: Edge): Store {
    Store(s.edges[s.next := e], s.next + 1)
  }

  /** Sets the `until` of the listed edges, whatever it was before. */
  function CloseEdges(s: Store, ids: set<EdgeId>, at: Time): Store {
    s.(edges := map id | id in s.edges :: if id in ids then s.edges[id].(until := Some(at)) else s.edges[id])
  }

  /** The database, as the source's queries see it. */
  class Database {
    var edges: Edges
    var nextId: EdgeId

    constructor ()
      ensures Contents() == Store(map[], 0)
    {
      edges := map[];
      nextId := 0;
    }

    function Contents(): Store
      reads this
    {
      Store(edges, nextId)
    }

    method AddRelationship(slot: Slot, dst: VertexId, branch: BranchName, level: nat, at: Time, status: Status)
      modifies this
      ensures Contents() == AddEdge(old(Contents()), Edge(slot, dst, branch, level, at, None, status, None))
    {
      edges := edges[nextId := Edge(slot, dst, branch, level, at, None, status, None)];
      nextId := nextId + 1;
    }

    method UpdateRelationshipsTo(ids: set<EdgeId>, at: Time)
      modifies this
      ensures Contents() == CloseEdges(old(Contents()), ids, at)
    {
      if ids == {} {
        assert edges == CloseEdges(old(Contents()), {}, at).edges;
        return;
      }
      edges := map id | id in edges :: if id in ids then edges[id].(until := Some(at)) else edges[id];
    }
  }
}
