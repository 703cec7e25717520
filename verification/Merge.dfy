/** Merging a branch into the default branch: the conflict gate, and the replay of the diff. */
module Merge {
  import opened Common
  import opened TemporalGraph
  import opened AttributeWrites
  import opened Rebase

  datatype Action = Added | Updated | Removed | Unchanged

  datatype Kind =
    | NodeChange
    | AttributeChange
    | PropertyChange
    | RelationChange
    | RelationPropertyChange(element: Action)

  /** One element of the diff of the source branch, in the order in which the merge visits them. */
  datatype Element = Element(
    kind: Kind,
    action: Action,
    slot: Slot,
    dst: VertexId,
    paths: seq<string>,
    relId: Option<EdgeId>,
    originRelId: Option<EdgeId>)

  type Resolution = map<string, bool>

  function Matched(paths: seq<string>, resolution: Resolution): Option<string> {
    if paths == [] then None
    else if paths[0] in resolution then Some(paths[0])
    else Matched(paths[1..], resolution)
  }

  /** The change was not in conflict, or the conflict was resolved in favour of the branch. */
  predicate Accepted(e: Element, resolution: Resolution) {
    var path := Matched(e.paths, resolution);
    path.None? || (path.value in resolution && resolution[path.value])
  }

  function Ids(id: Option<EdgeId>): set<EdgeId> {
    if id.None? then {} else {id.value}
  }

  /** What the replay does with one element: the edge it writes on the default branch, and the edges it closes. */
  datatype Replay = Skip | Fail | Write(status: Status, since: Time, close: set<EdgeId>)

  /** `clock` is the current time: nodes are added through a query that is not given the merge time. */
  function ReplayOf(e: Element, resolution: Resolution, at: Time, clock: Time): Replay {
    match e.kind
    case NodeChange =>
      if e.action.Added? then Write(Active, clock, Ids(e.relId))
      else if e.action.Removed? && e.originRelId.Some? then
        Write(Deleted, at, if e.relId.Some? then Ids(e.relId) + Ids(e.originRelId) else {})
      else Skip
    case AttributeChange =>
      if e.action.Added? then Write(Active, at, Ids(e.relId))
      else if e.action.Removed? && e.originRelId.Some? then Write(Deleted, at, Ids(e.relId) + Ids(e.originRelId))
      else Skip
    case PropertyChange =>
      if e.action.Added? then Write(Active, at, Ids(e.relId))
      else if e.action.Updated? && Accepted(e, resolution) && e.originRelId.Some? then
        Write(Active, at, Ids(e.relId) + Ids(e.originRelId))
      else if e.action.Removed? && e.originRelId.Some? then Write(Deleted, at, Ids(e.relId) + Ids(e.originRelId))
      else Skip
    case RelationChange =>
      if (e.action.Added? || e.action.Removed?) && Accepted(e, resolution) then
        if e.relId.None? then Fail
        else Write(if e.action.Removed? then Deleted else Active, at, Ids(e.relId))
      else Skip
    case RelationPropertyChange(element) =>
      Write(Active, at, Ids(e.relId) + (if element.Updated? || element.Removed? then Ids(e.originRelId) else {}))
  }

  /** A merge request: what is replayed, where, and when. */
  datatype Request = Request(diff: seq<Element>, resolution: Resolution, main: BranchInfo, at: Time, clock: Time) {
    function Replay(k: nat): Replay
      requires k < |diff|
    {
      ReplayOf(diff[k], resolution, at, clock)
    }

    predicate Succeeds() {
      forall k :: 0 <= k < |diff| ==> !Replay(k).Fail?
    }

    function NewEdge(k: nat): Edge
      requires k < |diff| && Replay(k).Write?
    {
      Edge(diff[k].slot, diff[k].dst, main.name, main.level, Replay(k).since, None, Replay(k).status, None)
    }

    /** The edges written for the first n elements. */
    function Adds(s: Store, n: nat): (r: Store)
      requires n <= |diff|
      ensures s.Valid() ==> r.Valid() && r.next >= s.next
      ensures s.Valid() ==> forall id :: id in r.edges && id < s.next ==> id in s.edges
      ensures s.Valid() ==> forall id :: id in s.edges ==> id in r.edges && r.edges[id] == s.edges[id]
    {
      if n == 0 then s
      else
        var r := Adds(s, n - 1);
        if Replay(n - 1).Write? then AddEdge(r, NewEdge(n - 1)) else r
    }

    function Closes(n: nat): (ids: set<EdgeId>)
      requires n <= |diff|
      ensures forall id :: id in ids <==> exists k :: 0 <= k < n && Replay(k).Write? && id in Replay(k).close
    {
      if n == 0 then {}
      else Closes(n - 1) + if Replay(n - 1).Write? then Replay(n - 1).close else {}
    }

    function Result(s: Store): Store {
      CloseEdges(Adds(s, |diff|), Closes(|diff|), at)
    }
  }

  datatype MergeError = ConflictsUnresolved(paths: seq<string>) | MergeIntoItself | IncompleteRelationship

  /** `BranchMerger.merge_graph`; `finished` is the time at which the source branch is restarted. */
  method MergeGraph(db: Database, registry: Registry, source: Branch, request: Request, finished: Time) returns (ok: bool)
    requires db.Contents().Valid()
    modifies db, registry, source
    ensures ok <==> request.Succeeds()
    ensures ok ==> db.Contents() == request.Result(old(db.Contents()))
    ensures ok ==> source.Info() == if request.Closes(|request.diff|) == {} then old(source.Info())
                                    else old(source.Info()).(branchedFrom := finished)
    ensures ok ==> registry.branches == if request.Closes(|request.diff|) == {} then old(registry.branches)
                                        else old(registry.branches)[source.name := source.Info()]
    ensures !ok ==> exists k :: 0 <= k < |request.diff| && request.Replay(k).Fail? && (forall j :: 0 <= j < k ==> !request.Replay(j).Fail?)
                                && db.Contents() == request.Adds(old(db.Contents()), k)
    ensures !ok ==> unchanged(registry) && unchanged(source)
  {
    var relIdsToUpdate: set<EdgeId> := {};
    for k := 0 to |request.diff|
      invariant db.Contents() == request.Adds(old(db.Contents()), k)
      invariant relIdsToUpdate == request.Closes(k)
      invariant forall j :: 0 <= j < k ==> !request.Replay(j).Fail?
      invariant unchanged(registry) && unchanged(source)
    {
      match request.Replay(k) {
        case Skip =>
        case Fail => return false;
        case Write(status, since, close) =>
          db.AddRelationship(request.diff[k].slot, request.diff[k].dst, request.main.name, request.main.level, since, status);
          relIdsToUpdate := relIdsToUpdate + close;
      }
    }
    ghost var added := db.Contents();
    if relIdsToUpdate != {} {
      db.UpdateRelationshipsTo(relIdsToUpdate, request.at);
      source.branchedFrom := finished;
      registry.branches := registry.branches[source.name := source.Info()];
    } else {
      assert CloseEdges(added, {}, request.at).edges == added.edges;
    }
    ok := true;
  }

  /** `BranchMerger.merge`. The gate: every conflict must have a resolution, and the branch is not merged into itself. */
  method MergeBranch(db: Database, registry: Registry, source: Branch, request: Request, conflicts: seq<string>, finished: Time)
    returns (r: Result<(), MergeError>)
    requires db.Contents().Valid()
    modifies db, registry, source
    ensures r.Ok? <==> (forall i :: 0 <= i < |conflicts| ==> conflicts[i] in request.resolution) && source.name != request.main.name && request.Succeeds()
    ensures r.Ok? ==> db.Contents() == request.Result(old(db.Contents()))
    ensures r.Err? && r.error.ConflictsUnresolved? ==>
              r.error.paths != [] && forall p :: p in r.error.paths <==> p in conflicts && p !in request.resolution
    ensures (exists i :: 0 <= i < |conflicts| && conflicts[i] !in request.resolution) ==> r.Err? && r.error.ConflictsUnresolved?
    ensures r == Err(MergeIntoItself) ==> source.name == request.main.name
    ensures r.Err? && !r.error.IncompleteRelationship? ==> unchanged(db) && unchanged(registry) && unchanged(source)
  {
    if request.resolution != map[] {
      var errors := [];
      for i := 0 to |conflicts|
        invariant forall p :: p in errors <==> p in conflicts[..i] && p !in request.resolution
      {
        assert conflicts[..i + 1] == conflicts[..i] + [conflicts[i]];
        if conflicts[i] !in request.resolution {
          errors := errors + [conflicts[i]];
        }
      }
      assert conflicts[..|conflicts|] == conflicts;
      if errors != [] {
        assert errors[0] in errors;
        return Err(ConflictsUnresolved(errors));
      }
    } else if conflicts != [] {
      assert conflicts[0] !in request.resolution;
      return Err(ConflictsUnresolved(conflicts));
    }
    if source.name == request.main.name {
      return Err(MergeIntoItself);
    }
    var ok := MergeGraph(db, registry, source, request, finished);
    r := if ok then Ok(()) else Err(IncompleteRelationship);
  }

  // ---------- Well-formed diffs ----------

  /** The element stands for an edge of the source branch; updated nodes and attributes only hold their properties. */
  predicate Touches(e: Element) {
    e.kind.NodeChange? || e.kind.AttributeChange? ==> e.action.Added? || e.action.Removed?
  }

  /** The ids of an element name the open source edge it reports, a newest one of its slot, and an edge of the default branch, in its slot. */
  ghost predicate ElementFits(edges: Edges, source: BranchInfo, main: BranchInfo, e: Element) {
    && !e.slot.agnostic
    && e.relId.Some? && e.relId.value in edges
    && (var own := edges[e.relId.value];
        && own.slot == e.slot && own.branch == source.name && own.until.None? && own.dst == e.dst
        && own.status == (if e.action.Removed? then Deleted else Active))
    && (e.originRelId.Some? ==>
          && e.originRelId.value in edges
          && edges[e.originRelId.value].slot == e.slot && edges[e.originRelId.value].branch == main.name)
    && Newest(edges, source.name, e.relId.value)
  }

  /** Of the open edges that the branch has in a slot - a deletion leaves markers beside older edges and beside each other - this
      is a newest one, or says the same as those that are. */
  ghost predicate Newest(edges: Edges, branch: BranchName, id: EdgeId) {
    OpenOn(edges, branch, id) && forall o :: OpenOn(edges, branch, o) && edges[o].slot == edges[id].slot ==>
      edges[o].since < edges[id].since || Outcome(edges[o]) == Outcome(edges[id])
  }

  ghost predicate WellFormed(s: Store, source: BranchInfo, request: Request) {
    && (forall k :: 0 <= k < |request.diff| && Touches(request.diff[k]) ==> ElementFits(s.edges, source, request.main, request.diff[k]))
    && (forall j, k :: 0 <= j < k < |request.diff| && Touches(request.diff[j]) && Touches(request.diff[k]) ==> request.diff[j].slot != request.diff[k].slot)
  }

  /** Levels and branches are as the schema says. */
  ghost predicate Consistent(s: Store, source: BranchInfo, main: BranchInfo) {
    && s.Valid()
    && main.isDefault && !source.isDefault && source.origin == main.name && source.name != main.name
    && GLOBAL_BRANCH !in {source.name, main.name} && main.level < source.level
    && (forall id :: id in s.edges ==>
          && (s.edges[id].branch == GLOBAL_BRANCH <==> s.edges[id].slot.agnostic)
          && (s.edges[id].branch == main.name ==> s.edges[id].level == main.level)
          && (s.edges[id].branch == source.name ==> s.edges[id].level == source.level))
  }

  predicate OpenOn(edges: Edges, branch: BranchName, id: EdgeId) {
    id in edges && edges[id].branch == branch && edges[id].until.None?
  }

  /** Times line up: the data is older than the merge, and the branch is restarted after it. */
  predicate Timely(s: Store, request: Request, before: Time)
  {
    && before < request.at <= request.clock
  }

  // ---------- What a merge does with an element ----------

  /** The first path of the element that has a resolution was resolved against the branch. */
  predicate Rejected(e: Element, resolution: Resolution) {
    exists i | 0 <= i < |e.paths| ::
      e.paths[i] in resolution && !resolution[e.paths[i]] && forall j | 0 <= j < i :: e.paths[j] !in resolution
  }

  /** The merge leaves the element out: removals that the default branch has nothing to end for, updates of properties that are rejected or
      that it has nothing to end for, and changes of relationships that are rejected. */
  predicate LeftOut(e: Element, resolution: Resolution) {
    if e.kind.RelationPropertyChange? then false
    else if e.action.Unchanged? then true
    else if e.kind.RelationChange? then e.action.Updated? || Rejected(e, resolution)
    else !e.action.Added? && (e.originRelId.None? || (e.action.Updated? && (!e.kind.PropertyChange? || Rejected(e, resolution))))
  }

  /** Besides the edge of the branch, the merge ends the edge of the default branch that the element names. */
  predicate EndsOrigin(e: Element) {
    match e.kind
    case RelationChange => false
    case RelationPropertyChange(element) => element.Updated? || element.Removed?
    case _ => e.action.Updated? || e.action.Removed?
  }

  /** What the default branch shows once the element has been replayed: removals of relationship properties come back. */
  function Replayed(e: Element): Option<VertexId> {
    if e.action.Removed? && !e.kind.RelationPropertyChange? then None else Some(e.dst)
  }

  function StatusOf(v: Option<VertexId>): Status {
    if v.Some? then Active else Deleted
  }

  lemma {:induction false} MatchedIsFirst(paths: seq<string>, resolution: Resolution)
    ensures match Matched(paths, resolution)
            case Some(p) => p in resolution && exists i | 0 <= i < |paths| :: paths[i] == p && forall j | 0 <= j < i :: paths[j] !in resolution
            case None => forall i | 0 <= i < |paths| :: paths[i] !in resolution
  {
    if paths != [] && paths[0] !in resolution {
      MatchedIsFirst(paths[1..], resolution);
      if Matched(paths, resolution).Some? {
        var p := Matched(paths, resolution).value;
        var i :| 0 <= i < |paths[1..]| && paths[1..][i] == p && forall j | 0 <= j < i :: paths[1..][j] !in resolution;
        assert paths[i + 1] == p;
        forall j | 0 <= j < i + 1 ensures paths[j] !in resolution {
          assert j > 0 ==> paths[j] == paths[1..][j - 1];
        }
      } else {
        assert forall i | 0 < i < |paths| :: paths[i] == paths[1..][i - 1];
      }
    }
  }

  lemma AcceptedUnlessRejected(e: Element, resolution: Resolution)
    ensures Accepted(e, resolution) <==> !Rejected(e, resolution)
  {
    MatchedIsFirst(e.paths, resolution);
    if Matched(e.paths, resolution).Some? {
      var p := Matched(e.paths, resolution).value;
      var i :| 0 <= i < |e.paths| && e.paths[i] == p && forall j | 0 <= j < i :: e.paths[j] !in resolution;
      if Rejected(e, resolution) {
        var n :| 0 <= n < |e.paths| && e.paths[n] in resolution && !resolution[e.paths[n]] && forall j | 0 <= j < n :: e.paths[j] !in resolution;
        assert n == i;
      }
    }
  }

  /** When the replay takes effect: nodes are added at the current time, everything else at the merge time. */
  function TimeOf(e: Element, request: Request): Time {
    if e.kind.NodeChange? && e.action.Added? then request.clock else request.at
  }

  /** A merge goes through exactly when no replayed relationship lacks its edge. */
  lemma SucceedsWithoutGaps(request: Request)
    ensures request.Succeeds() <==>
            forall k :: 0 <= k < |request.diff| && request.diff[k].kind.RelationChange? && !LeftOut(request.diff[k], request.resolution) ==>
              request.diff[k].relId.Some?
  {
    forall k | 0 <= k < |request.diff|
      ensures request.Replay(k).Fail? <==>
              request.diff[k].kind.RelationChange? && !LeftOut(request.diff[k], request.resolution) && request.diff[k].relId.None?
    {
      AcceptedUnlessRejected(request.diff[k], request.resolution);
    }
  }

  /** The replay of an element that stands for an edge, by its kind and action. */
  lemma ReplayIs(e: Element, resolution: Resolution, at: Time, clock: Time)
    requires Touches(e) && e.relId.Some?
    ensures ReplayOf(e, resolution, at, clock) ==
            if LeftOut(e, resolution) then Skip
            else Write(StatusOf(Replayed(e)), if e.kind.NodeChange? && e.action.Added? then clock else at,
                       {e.relId.value} + if EndsOrigin(e) then Ids(e.originRelId) else {})
  {
    AcceptedUnlessRejected(e, resolution);
  }

  // ---------- Reading after the last change ----------

  ghost predicate Late(ws: seq<Window>, t: Time) {
    forall i :: 0 <= i < |ws| ==> t < ws[i].time
  }

  ghost predicate Reads(ws: seq<Window>, branch: BranchName) {
    exists i :: 0 <= i < |ws| && branch in ws[i].branches
  }

  /** Once nothing changes any more, a view offers exactly the open edges of its branches. */
  lemma LateCandidate(edges: Edges, ws: seq<Window>, slot: Slot, t: Time, id: EdgeId)
    requires NotAfter(edges, t) && Late(ws, t)
    ensures Candidate(edges, ws, slot, id) <==>
            id in edges && edges[id].slot == slot && edges[id].until.None? && Reads(ws, edges[id].branch)
  {
    if id in edges && edges[id].slot == slot && edges[id].until.None? && Reads(ws, edges[id].branch) {
      var i :| 0 <= i < |ws| && edges[id].branch in ws[i].branches;
      assert Visible(edges[id], ws[i]);
    }
  }

  /** The edge at `id` decides the slot when it beats every other candidate. */
  lemma Decides(edges: Edges, ws: seq<Window>, slot: Slot, id: EdgeId)
    requires Candidate(edges, ws, slot, id)
    requires forall o :: Candidate(edges, ws, slot, o) && o != id ==> Beats(edges[id], edges[o])
    ensures Shows(edges, ws, slot, Outcome(edges[id]))
  {
    assert Top(edges, ws, slot, id);
  }

  /** The slot reads as the edge at `id` says when that edge beats every candidate that says something else. */
  lemma Settles(edges: Edges, ws: seq<Window>, slot: Slot, id: EdgeId)
    requires Candidate(edges, ws, slot, id)
    requires forall o :: Candidate(edges, ws, slot, o) ==> Beats(edges[id], edges[o]) || Outcome(edges[o]) == Outcome(edges[id])
    ensures Shows(edges, ws, slot, Outcome(edges[id]))
  {
    var best := TopExists(edges, ws, slot, id);
    forall o | Top(edges, ws, slot, o) ensures Outcome(edges[o]) == Outcome(edges[id]) {
      assert !Beats(edges[id], edges[o]);
    }
  }

  /** The edge written for element k is still there after n elements, under an id of its own. */
  lemma {:induction false} Written(s: Store, request: Request, k: nat, n: nat)
    requires s.Valid() && k < n <= |request.diff| && request.Replay(k).Write?
    ensures var id := request.Adds(s, k).next;
            id >= s.next && id in request.Adds(s, n).edges && request.Adds(s, n).edges[id] == request.NewEdge(k)
    decreases n
  {
    if k < n - 1 {
      Written(s, request, k, n - 1);
      assert request.Adds(s, n - 1).Valid();
    }
  }

  /** Every new edge was written for some element. */
  lemma {:induction false} WrittenFor(s: Store, request: Request, n: nat, id: EdgeId) returns (k: nat)
    requires s.Valid() && n <= |request.diff| && id in request.Adds(s, n).edges && id !in s.edges
    ensures k < n && request.Replay(k).Write? && id == request.Adds(s, k).next && request.Adds(s, n).edges[id] == request.NewEdge(k)
    decreases n
  {
    var r := request.Adds(s, n - 1);
    if request.Replay(n - 1).Write? && id == r.next {
      k := n - 1;
    } else {
      k := WrittenFor(s, request, n - 1, id);
    }
  }

  /** What the merge leaves of an edge, in terms of the state before it. */
  lemma MergedEdge(s: Store, source: BranchInfo, request: Request, id: EdgeId)
    requires s.Valid() && WellFormed(s, source, request) && id in s.edges
    ensures id in request.Result(s).edges
    ensures request.Result(s).edges[id] ==
            if id in request.Closes(|request.diff|) then s.edges[id].(until := Some(request.at)) else s.edges[id]
  {
  }

  lemma ReplayIsLocal(e: Element, resolution: Resolution, at: Time, clock: Time)
    requires ReplayOf(e, resolution, at, clock).Write?
    ensures Touches(e)
    ensures ReplayOf(e, resolution, at, clock).close <= Ids(e.relId) + Ids(e.originRelId)
  {
  }

  lemma ClosesOldEdges(s: Store, source: BranchInfo, request: Request, id: EdgeId) returns (k: nat)
    requires WellFormed(s, source, request) && id in request.Closes(|request.diff|)
    ensures k < |request.diff| && request.Replay(k).Write? && id in request.Replay(k).close && Touches(request.diff[k])
    ensures id in s.edges && s.edges[id].slot == request.diff[k].slot && s.edges[id].branch in {source.name, request.main.name}
  {
    k :| 0 <= k < |request.diff| && request.Replay(k).Write? && id in request.Replay(k).close;
    var e := request.diff[k];
    ReplayIsLocal(e, request.resolution, request.at, request.clock);
    assert ElementFits(s.edges, source, request.main, e);
    assert Some(id) == e.relId || Some(id) == e.originRelId;
  }

  lemma NewEdgesStayOpen(s: Store, source: BranchInfo, request: Request, id: EdgeId) returns (k: nat)
    requires s.Valid() && WellFormed(s, source, request) && id in request.Result(s).edges && id !in s.edges
    ensures k < |request.diff| && request.Replay(k).Write? && Touches(request.diff[k]) && request.Result(s).edges[id] == request.NewEdge(k)
    ensures id == request.Adds(s, k).next
  {
    k := WrittenFor(s, request, |request.diff|, id);
    assert Touches(request.diff[k]);
    if id in request.Closes(|request.diff|) {
      var _ := ClosesOldEdges(s, source, request, id);
    }
  }

  lemma MergeStaysTimely(s: Store, source: BranchInfo, request: Request, before: Time)
    requires s.Valid() && WellFormed(s, source, request) && NotAfter(s.edges, before) && Timely(s, request, before)
    ensures NotAfter(request.Result(s).edges, request.clock)
  {
    var c := request.Result(s).edges;
    forall id | id in c
      ensures c[id].since <= request.clock && (c[id].until.Some? ==> c[id].until.value <= request.clock)
    {
      if id in s.edges {
        MergedEdge(s, source, request, id);
      } else {
        var k := NewEdgesStayOpen(s, source, request, id);
      }
    }
  }

  // ---------- The merge theorem ----------

  /** What the branch showed in a touched slot before the merge is what its reported edge says. */
  lemma SourceShowedChange(s: Store, source: BranchInfo, request: Request, before: Time, k: nat)
    requires Consistent(s, source, request.main) && WellFormed(s, source, request) && NotAfter(s.edges, before) && Timely(s, request, before)
    requires k < |request.diff| && Touches(request.diff[k])
    ensures Shows(s.edges, source.TimesToQueryGlobal(request.at), request.diff[k].slot,
                  if request.diff[k].action.Removed? then None else Some(request.diff[k].dst))
  {
    var e, ws := request.diff[k], source.TimesToQueryGlobal(request.at);
    var id := e.relId.value;
    assert ElementFits(s.edges, source, request.main, e);
    assert Visible(s.edges[id], ws[|ws| - 1]);
    forall o | Candidate(s.edges, ws, e.slot, o) ensures Beats(s.edges[id], s.edges[o]) || Outcome(s.edges[o]) == Outcome(s.edges[id]) {
      if s.edges[o].branch == source.name {
        LateCandidateIsOpen(s, source, request.at, before, e.slot, o);
      }
    }
    Settles(s.edges, ws, e.slot, id);
  }

  /** What the branch itself still shows after the last change is open. */
  lemma LateCandidateIsOpen(s: Store, source: BranchInfo, at: Time, before: Time, slot: Slot, o: EdgeId)
    requires NotAfter(s.edges, before) && before < at && !source.isDefault && source.name != source.origin && source.name != GLOBAL_BRANCH
    requires Candidate(s.edges, source.TimesToQueryGlobal(at), slot, o) && s.edges[o].branch == source.name
    ensures OpenOn(s.edges, source.name, o)
  {
    var ws := source.TimesToQueryGlobal(at);
    var i :| 0 <= i < |ws| && Visible(s.edges[o], ws[i]);
  }

  lemma ReplayOfElement(s: Store, source: BranchInfo, request: Request, k: nat)
    requires WellFormed(s, source, request) && k < |request.diff|
    ensures request.Replay(k).Write? <==> !LeftOut(request.diff[k], request.resolution)
    ensures request.Replay(k).Write? ==>
              && Touches(request.diff[k]) && request.Replay(k).status == StatusOf(Replayed(request.diff[k]))
              && request.Replay(k).since == TimeOf(request.diff[k], request)
              && request.Replay(k).close == Ids(request.diff[k].relId) + (if EndsOrigin(request.diff[k]) then Ids(request.diff[k].originRelId) else {})
  {
    if Touches(request.diff[k]) {
      assert ElementFits(s.edges, source, request.main, request.diff[k]);
      ReplayIs(request.diff[k], request.resolution, request.at, request.clock);
    }
  }

  /** The merge ends exactly the reported edge of the branch and, where the element says so, the edge of the default branch that it
      names; of all edges of the slot the others stay as they are, and exactly one edge is added. */
  lemma ReplayedSlot(s: Store, source: BranchInfo, request: Request, k: nat)
    requires Consistent(s, source, request.main) && WellFormed(s, source, request)
    requires k < |request.diff| && !LeftOut(request.diff[k], request.resolution)
    ensures var c, e := request.Result(s).edges, request.diff[k];
            && (forall id :: id in s.edges && s.edges[id].slot == e.slot ==>
                  id in c && c[id] == if Some(id) == e.relId || (Some(id) == e.originRelId && EndsOrigin(e)) then s.edges[id].(until := Some(request.at))
                                      else s.edges[id])
            && (exists n :: n in c && n !in s.edges
                  && c[n] == Edge(e.slot, e.dst, request.main.name, request.main.level, TimeOf(e, request), None, StatusOf(Replayed(e)), None)
                  && forall id :: id in c && id !in s.edges && c[id].slot == e.slot ==> id == n)
  {
    var c, e, n := request.Result(s).edges, request.diff[k], request.Adds(s, k).next;
    ReplayOfElement(s, source, request, k);
    forall id | id in s.edges && s.edges[id].slot == e.slot
      ensures id in c && c[id] == if Some(id) == e.relId || (Some(id) == e.originRelId && EndsOrigin(e)) then s.edges[id].(until := Some(request.at))
                                  else s.edges[id]
    {
      MergedEdge(s, source, request, id);
      if id in request.Closes(|request.diff|) {
        var j := ClosesOldEdges(s, source, request, id);
        SameSlotSameElement(s, source, request, j, k);
      }
    }
    Written(s, request, k, |request.diff|);
    var _ := NewEdgesStayOpen(s, source, request, n);
    forall id | id in c && id !in s.edges && c[id].slot == e.slot ensures id == n {
      if id != n {
        OldInSlot(s, source, request, k, id);
      }
    }
  }

  /** A slot of which no element is replayed keeps its edges, and gets none. */
  lemma OtherSlot(s: Store, source: BranchInfo, request: Request, slot: Slot)
    requires s.Valid() && WellFormed(s, source, request)
    requires forall k :: 0 <= k < |request.diff| && request.diff[k].slot == slot ==> LeftOut(request.diff[k], request.resolution)
    ensures var c := request.Result(s).edges;
            && (forall id :: id in s.edges && s.edges[id].slot == slot ==> id in c && c[id] == s.edges[id])
            && (forall id :: id in c && c[id].slot == slot ==> id in s.edges)
  {
    var c := request.Result(s).edges;
    forall id | id in s.edges && s.edges[id].slot == slot ensures id in c && c[id] == s.edges[id] {
      MergedEdge(s, source, request, id);
      if id in request.Closes(|request.diff|) {
        var k := ClosesOldEdges(s, source, request, id);
        ReplayOfElement(s, source, request, k);
      }
    }
    forall id | id in c && c[id].slot == slot ensures id in s.edges {
      if id !in s.edges {
        var k := NewEdgesStayOpen(s, source, request, id);
        ReplayOfElement(s, source, request, k);
      }
    }
  }

  predicate Ends(before: Edges, after: Edges, id: Option<EdgeId>, at: Time) {
    id.Some? ==> id.value in before && id.value in after && after[id.value] == before[id.value].(until := Some(at))
  }

  predicate Stays(before: Edges, after: Edges, id: Option<EdgeId>) {
    id.Some? ==> id.value in before && id.value in after && after[id.value] == before[id.value]
  }

  /** Which of the two edges that an element names end at the merge time, by its kind and action; the others stay as they are. */
  lemma EndsByKind(s: Store, source: BranchInfo, request: Request, k: nat)
    requires Consistent(s, source, request.main) && WellFormed(s, source, request) && k < |request.diff| && Touches(request.diff[k])
    ensures var (b, c, e, at) := (s.edges, request.Result(s).edges, request.diff[k], request.at);
            match e.kind
            case RelationPropertyChange(element) =>
              && Ends(b, c, e.relId, at)
              && (if element.Updated? || element.Removed? then Ends(b, c, e.originRelId, at) else Stays(b, c, e.originRelId))
            case RelationChange =>
              && (if (e.action.Added? || e.action.Removed?) && !Rejected(e, request.resolution) then Ends(b, c, e.relId, at) else Stays(b, c, e.relId))
              && Stays(b, c, e.originRelId)
            case _ =>
              if e.action.Added? then Ends(b, c, e.relId, at) && Stays(b, c, e.originRelId)
              else if e.originRelId.Some? && (e.action.Removed? || (e.action.Updated? && !Rejected(e, request.resolution))) then
                Ends(b, c, e.relId, at) && Ends(b, c, e.originRelId, at)
              else Stays(b, c, e.relId) && Stays(b, c, e.originRelId)
  {
    var e := request.diff[k];
    assert ElementFits(s.edges, source, request.main, e);
    if LeftOut(e, request.resolution) {
      forall j | 0 <= j < |request.diff| && request.diff[j].slot == e.slot ensures LeftOut(request.diff[j], request.resolution) {
        OnlyTouchedIsReplayed(s, source, request, k, j);
      }
      OtherSlot(s, source, request, e.slot);
    } else {
      ReplayedSlot(s, source, request, k);
    }
  }

  /** The branch is restarted exactly when some element is replayed. */
  lemma RestartsForAReplay(s: Store, source: BranchInfo, request: Request)
    requires WellFormed(s, source, request)
    ensures request.Closes(|request.diff|) == {} <==> forall k :: 0 <= k < |request.diff| ==> LeftOut(request.diff[k], request.resolution)
  {
    forall k | 0 <= k < |request.diff| ensures request.Replay(k).Write? ==> request.Replay(k).close != {} {
      ReplayOfElement(s, source, request, k);
      if request.Replay(k).Write? {
        assert ElementFits(s.edges, source, request.main, request.diff[k]);
        assert request.diff[k].relId.value in request.Replay(k).close;
      }
    }
    if request.Closes(|request.diff|) == {} {
      forall k | 0 <= k < |request.diff| ensures LeftOut(request.diff[k], request.resolution) {
        ReplayOfElement(s, source, request, k);
      }
    } else if forall k :: 0 <= k < |request.diff| ==> LeftOut(request.diff[k], request.resolution) {
      var id :| id in request.Closes(|request.diff|);
      var k := ClosesOldEdges(s, source, request, id);
      ReplayOfElement(s, source, request, k);
    }
  }

  /** From the replay of an element on, the default branch shows what was replayed for its slot. */
  lemma MainShowsReplay(s: Store, source: BranchInfo, request: Request, before: Time, k: nat, q: Time)
    requires Consistent(s, source, request.main) && WellFormed(s, source, request) && NotAfter(s.edges, before) && Timely(s, request, before)
    requires k < |request.diff| && !LeftOut(request.diff[k], request.resolution) && TimeOf(request.diff[k], request) <= q
    ensures Shows(request.Result(s).edges, request.main.TimesToQueryGlobal(q), request.diff[k].slot, Replayed(request.diff[k]))
  {
    ReplayOfElement(s, source, request, k);
    var c, slot, ws := request.Result(s).edges, request.diff[k].slot, request.main.TimesToQueryGlobal(q);
    var id := request.Adds(s, k).next;
    Written(s, request, k, |request.diff|);
    var k' := NewEdgesStayOpen(s, source, request, id);
    assert Visible(c[id], ws[0]);
    forall o | Candidate(c, ws, slot, o) && o != id
      ensures Beats(c[id], c[o])
    {
      NewEdgeWins(s, source, request, before, k, o);
    }
    Decides(c, ws, slot, id);
  }

  lemma NewEdgeWins(s: Store, source: BranchInfo, request: Request, before: Time, k: nat, o: EdgeId)
    requires Consistent(s, source, request.main) && WellFormed(s, source, request) && NotAfter(s.edges, before) && Timely(s, request, before)
    requires k < |request.diff| && request.Replay(k).Write?
    requires o in request.Result(s).edges && o != request.Adds(s, k).next
    requires request.Result(s).edges[o].slot == request.diff[k].slot && request.Result(s).edges[o].branch in {GLOBAL_BRANCH, request.main.name}
    ensures Beats(request.NewEdge(k), request.Result(s).edges[o])
  {
    OldInSlot(s, source, request, k, o);
    MergedEdge(s, source, request, o);
    ReplayIsLocal(request.diff[k], request.resolution, request.at, request.clock);
    assert ElementFits(s.edges, source, request.main, request.diff[k]);
    assert request.at <= request.Replay(k).since;
  }

  /** In the slot of a replayed element every edge but the one written for it was there before. */
  lemma OldInSlot(s: Store, source: BranchInfo, request: Request, k: nat, o: EdgeId)
    requires s.Valid() && WellFormed(s, source, request) && k < |request.diff| && request.Replay(k).Write?
    requires o in request.Result(s).edges && o != request.Adds(s, k).next && request.Result(s).edges[o].slot == request.diff[k].slot
    ensures o in s.edges
  {
    if o !in s.edges {
      var j := NewEdgesStayOpen(s, source, request, o);
      ReplayIsLocal(request.diff[k], request.resolution, request.at, request.clock);
      SameSlotSameElement(s, source, request, j, k);
    }
  }

  lemma SameSlotSameElement(s: Store, source: BranchInfo, request: Request, j: nat, k: nat)
    requires WellFormed(s, source, request) && j < |request.diff| && k < |request.diff|
    requires Touches(request.diff[j]) && Touches(request.diff[k]) && request.diff[j].slot == request.diff[k].slot
    ensures j == k
  {
  }

  /** A slot for which nothing is replayed keeps its value on the default branch. */
  lemma MainKeepsTheRest(s: Store, source: BranchInfo, request: Request, slot: Slot, q: Time, v: Option<VertexId>)
    requires Consistent(s, source, request.main) && WellFormed(s, source, request)
    requires forall k :: 0 <= k < |request.diff| && request.diff[k].slot == slot ==> LeftOut(request.diff[k], request.resolution)
    ensures Shows(request.Result(s).edges, request.main.TimesToQueryGlobal(q), slot, v)
            <==> Shows(s.edges, request.main.TimesToQueryGlobal(q), slot, v)
  {
    var c, ws := request.Result(s).edges, request.main.TimesToQueryGlobal(q);
    OtherSlot(s, source, request, slot);
    SameCandidatesSameAnswer(s.edges, ws, c, ws, slot, v);
  }

  lemma OnlyTouchedIsReplayed(s: Store, source: BranchInfo, request: Request, k: nat, j: nat)
    requires WellFormed(s, source, request) && k < |request.diff| && j < |request.diff| && Touches(request.diff[k])
    requires request.diff[j].slot == request.diff[k].slot && LeftOut(request.diff[k], request.resolution)
    ensures LeftOut(request.diff[j], request.resolution)
  {
    if j != k && Touches(request.diff[j]) {
      SameSlotSameElement(s, source, request, j, k);
    }
  }

  /** Merge then agree, for every element that stands for an edge: if it is replayed, the default branch shows from then on what the
      branch showed, except for the removal of a relationship property, which is replayed as an addition; if it is left out, the two
      agree where they did before. */
  lemma MergeThenAgree(s: Store, source: BranchInfo, request: Request, before: Time, k: nat, q: Time, v: Option<VertexId>)
    requires Consistent(s, source, request.main) && WellFormed(s, source, request) && NotAfter(s.edges, before) && Timely(s, request, before)
    requires k < |request.diff| && Touches(request.diff[k])
    requires !LeftOut(request.diff[k], request.resolution) ==> TimeOf(request.diff[k], request) <= q
    requires Shows(s.edges, source.TimesToQueryGlobal(request.at), request.diff[k].slot, v)
    ensures Shows(request.Result(s).edges, request.main.TimesToQueryGlobal(q), request.diff[k].slot, v)
            <==> if LeftOut(request.diff[k], request.resolution) then Shows(s.edges, request.main.TimesToQueryGlobal(q), request.diff[k].slot, v)
                 else !(request.diff[k].kind.RelationPropertyChange? && request.diff[k].action.Removed?)
  {
    if LeftOut(request.diff[k], request.resolution) {
      LeftOutIsKept(s, source, request, k, q, v);
    } else {
      ReplayedAgrees(s, source, request, before, k, q, v);
    }
  }

  lemma ReplayedAgrees(s: Store, source: BranchInfo, request: Request, before: Time, k: nat, q: Time, v: Option<VertexId>)
    requires Consistent(s, source, request.main) && WellFormed(s, source, request) && NotAfter(s.edges, before) && Timely(s, request, before)
    requires k < |request.diff| && !LeftOut(request.diff[k], request.resolution) && TimeOf(request.diff[k], request) <= q
    requires Shows(s.edges, source.TimesToQueryGlobal(request.at), request.diff[k].slot, v)
    ensures Shows(request.Result(s).edges, request.main.TimesToQueryGlobal(q), request.diff[k].slot, v)
            <==> !(request.diff[k].kind.RelationPropertyChange? && request.diff[k].action.Removed?)
  {
    var e := request.diff[k];
    SourceShowedChange(s, source, request, before, k);
    AnswerIsUnique(s.edges, source.TimesToQueryGlobal(request.at), e.slot, v, if e.action.Removed? then None else Some(e.dst));
    MainShowsReplay(s, source, request, before, k, q);
    AnswerIsUnique(request.Result(s).edges, request.main.TimesToQueryGlobal(q), e.slot, Replayed(e), v);
  }

  lemma LeftOutIsKept(s: Store, source: BranchInfo, request: Request, k: nat, q: Time, v: Option<VertexId>)
    requires Consistent(s, source, request.main) && WellFormed(s, source, request)
    requires k < |request.diff| && Touches(request.diff[k]) && LeftOut(request.diff[k], request.resolution)
    ensures Shows(request.Result(s).edges, request.main.TimesToQueryGlobal(q), request.diff[k].slot, v)
            <==> Shows(s.edges, request.main.TimesToQueryGlobal(q), request.diff[k].slot, v)
  {
    forall j | 0 <= j < |request.diff| && request.diff[j].slot == request.diff[k].slot ensures LeftOut(request.diff[j], request.resolution) {
      OnlyTouchedIsReplayed(s, source, request, k, j);
    }
    MainKeepsTheRest(s, source, request, request.diff[k].slot, q, v);
  }

  /** Additions and removals of attribute properties, and everything about nodes, attributes and the properties of relationships,
      are replayed whatever the resolution says. */
  predicate IgnoresResolution(e: Element) {
    match e.kind
    case NodeChange => e.action.Added? || (e.action.Removed? && e.originRelId.Some?)
    case AttributeChange => e.action.Added? || (e.action.Removed? && e.originRelId.Some?)
    case PropertyChange => e.action.Added? || (e.action.Removed? && e.originRelId.Some?)
    case RelationChange => false
    case RelationPropertyChange(_) => true
  }

  /** A conflict that was resolved against the branch: the default branch goes on showing its own value, exactly when the
      element is not of a kind that is replayed whatever the resolution says. */
  lemma RejectedConflict(s: Store, source: BranchInfo, request: Request, before: Time, k: nat, q: Time, v: Option<VertexId>)
    requires Consistent(s, source, request.main) && WellFormed(s, source, request) && NotAfter(s.edges, before) && Timely(s, request, before)
    requires k < |request.diff| && Touches(request.diff[k]) && Rejected(request.diff[k], request.resolution) && request.clock <= q
    requires Shows(s.edges, request.main.TimesToQueryGlobal(q), request.diff[k].slot, v) && v != Replayed(request.diff[k])
    ensures Shows(request.Result(s).edges, request.main.TimesToQueryGlobal(q), request.diff[k].slot, v) <==> !IgnoresResolution(request.diff[k])
  {
    var e := request.diff[k];
    assert LeftOut(e, request.resolution) <==> !IgnoresResolution(e);
    if IgnoresResolution(e) {
      MainShowsReplay(s, source, request, before, k, q);
      AnswerIsUnique(request.Result(s).edges, request.main.TimesToQueryGlobal(q), e.slot, Replayed(e), v);
    } else {
      LeftOutIsKept(s, source, request, k, q, v);
    }
  }

  /** After the merge the source branch reads a slot as the default branch does, unless it still holds an open edge there,
      and then it goes on showing a newest one. */
  lemma SourceFollowsMain(s: Store, source: BranchInfo, request: Request, before: Time, finished: Time, slot: Slot, q: Time, v: Option<VertexId>)
    requires Consistent(s, source, request.main) && WellFormed(s, source, request) && NotAfter(s.edges, before) && Timely(s, request, before)
    requires request.clock < finished && request.clock < q
    ensures var c, after := request.Result(s).edges, source.(branchedFrom := finished).TimesToQueryGlobal(q);
            && ((forall id :: OpenOn(c, source.name, id) ==> c[id].slot != slot) ==>
                  (Shows(c, after, slot, v) <==> Shows(c, request.main.TimesToQueryGlobal(q), slot, v)))
            && (forall id :: Newest(c, source.name, id) && c[id].slot == slot ==> Shows(c, after, slot, Outcome(c[id])))
  {
    var c, after, ws := request.Result(s).edges, source.(branchedFrom := finished).TimesToQueryGlobal(q), request.main.TimesToQueryGlobal(q);
    MergeStaysTimely(s, source, request, before);
    assert ws[0].branches == {GLOBAL_BRANCH, request.main.name};
    assert after[0].branches == {GLOBAL_BRANCH, request.main.name} && after[1].branches == {GLOBAL_BRANCH, source.name};
    forall id
      ensures Candidate(c, after, slot, id) <==> id in c && c[id].slot == slot && c[id].until.None? && c[id].branch in {GLOBAL_BRANCH, request.main.name, source.name}
      ensures Candidate(c, ws, slot, id) <==> id in c && c[id].slot == slot && c[id].until.None? && c[id].branch in {GLOBAL_BRANCH, request.main.name}
    {
      LateCandidate(c, after, slot, request.clock, id);
      LateCandidate(c, ws, slot, request.clock, id);
    }
    if forall id :: OpenOn(c, source.name, id) ==> c[id].slot != slot {
      SameCandidatesSameAnswer(c, after, c, ws, slot, v);
    }
    forall id | Newest(c, source.name, id) && c[id].slot == slot
      ensures Shows(c, after, slot, Outcome(c[id]))
    {
      forall o | Candidate(c, after, slot, o)
        ensures Beats(c[id], c[o]) || Outcome(c[o]) == Outcome(c[id])
      {
        MergedLevels(s, source, request, id);
        MergedLevels(s, source, request, o);
      }
      Settles(c, after, slot, id);
    }
  }

  /** In the slot of a replayed element the restarted branch reads what the default branch reads, at every later time, if the reported
      edge was the only one that the branch had open there; if the element is left out, the branch goes on showing its change. */
  lemma SourceFollowsTouched(s: Store, source: BranchInfo, request: Request, before: Time, finished: Time, k: nat, q: Time, v: Option<VertexId>)
    requires Consistent(s, source, request.main) && WellFormed(s, source, request) && NotAfter(s.edges, before) && Timely(s, request, before)
    requires request.clock < finished && request.clock < q && k < |request.diff| && Touches(request.diff[k])
    ensures var c, e, after := request.Result(s).edges, request.diff[k], source.(branchedFrom := finished).TimesToQueryGlobal(q);
            if LeftOut(e, request.resolution) then Shows(c, after, e.slot, if e.action.Removed? then None else Some(e.dst))
            else (forall o :: OpenOn(s.edges, source.name, o) && s.edges[o].slot == e.slot ==> Some(o) == e.relId) ==>
                   (Shows(c, after, e.slot, v) <==> Shows(c, request.main.TimesToQueryGlobal(q), e.slot, v))
  {
    var c, e := request.Result(s).edges, request.diff[k];
    SourceFollowsMain(s, source, request, before, finished, e.slot, q, v);
    if LeftOut(e, request.resolution) {
      LeftOutStaysNewest(s, source, request, k);
    } else if forall o :: OpenOn(s.edges, source.name, o) && s.edges[o].slot == e.slot ==> Some(o) == e.relId {
      ReplayedSlot(s, source, request, k);
      forall id | OpenOn(c, source.name, id) ensures c[id].slot != e.slot {
        MergedLevels(s, source, request, id);
      }
    }
  }

  lemma LeftOutStaysNewest(s: Store, source: BranchInfo, request: Request, k: nat)
    requires Consistent(s, source, request.main) && WellFormed(s, source, request)
    requires k < |request.diff| && Touches(request.diff[k]) && LeftOut(request.diff[k], request.resolution)
    ensures var c, e := request.Result(s).edges, request.diff[k];
            e.relId.Some? && Newest(c, source.name, e.relId.value) && c[e.relId.value] == s.edges[e.relId.value]
  {
    var e := request.diff[k];
    assert ElementFits(s.edges, source, request.main, e);
    forall j | 0 <= j < |request.diff| && request.diff[j].slot == e.slot ensures LeftOut(request.diff[j], request.resolution) {
      OnlyTouchedIsReplayed(s, source, request, k, j);
    }
    OtherSlot(s, source, request, e.slot);
  }

  lemma MergedLevels(s: Store, source: BranchInfo, request: Request, id: EdgeId)
    requires Consistent(s, source, request.main) && WellFormed(s, source, request) && id in request.Result(s).edges
    ensures var e := request.Result(s).edges[id];
            && (e.branch == GLOBAL_BRANCH <==> e.slot.agnostic)
            && (e.branch == request.main.name ==> e.level == request.main.level)
            && (e.branch == source.name ==> e.level == source.level && id in s.edges && e.slot == s.edges[id].slot)
            && (OpenOn(request.Result(s).edges, source.name, id) ==> OpenOn(s.edges, source.name, id))
  {
    if id in s.edges {
      MergedEdge(s, source, request, id);
    } else {
      var k := NewEdgesStayOpen(s, source, request, id);
      assert ElementFits(s.edges, source, request.main, request.diff[k]);
    }
  }

  /** A node is added at the current time and not at the merge time: a default branch that has never had the node shows it exactly
      from the current time on. */
  lemma AddedNodeAppearsLate(s: Store, source: BranchInfo, request: Request, k: nat, q: Time)
    requires Consistent(s, source, request.main) && WellFormed(s, source, request)
    requires k < |request.diff| && request.diff[k].kind.NodeChange? && request.diff[k].action.Added?
    requires forall id :: id in s.edges && s.edges[id].slot == request.diff[k].slot ==> s.edges[id].branch != request.main.name
    ensures Shows(request.Result(s).edges, request.main.TimesToQueryGlobal(q), request.diff[k].slot, Some(request.diff[k].dst)) <==> request.clock <= q
    ensures Shows(request.Result(s).edges, request.main.TimesToQueryGlobal(q), request.diff[k].slot, None) <==> q < request.clock
  {
    var c, slot, ws := request.Result(s).edges, request.diff[k].slot, request.main.TimesToQueryGlobal(q);
    var n := request.Adds(s, k).next;
    Written(s, request, k, |request.diff|);
    var _ := NewEdgesStayOpen(s, source, request, n);
    forall id ensures Candidate(c, ws, slot, id) <==> id == n && request.clock <= q {
      OnlyTheAddedNode(s, source, request, k, q, id, n);
    }
    if request.clock <= q {
      Decides(c, ws, slot, n);
    }
  }

  lemma OnlyTheAddedNode(s: Store, source: BranchInfo, request: Request, k: nat, q: Time, id: EdgeId, n: EdgeId)
    requires Consistent(s, source, request.main) && WellFormed(s, source, request)
    requires k < |request.diff| && request.diff[k].kind.NodeChange? && request.diff[k].action.Added?
    requires forall id :: id in s.edges && s.edges[id].slot == request.diff[k].slot ==> s.edges[id].branch != request.main.name
    requires n == request.Adds(s, k).next && n in request.Result(s).edges && request.Result(s).edges[n] == request.NewEdge(k)
    ensures Candidate(request.Result(s).edges, request.main.TimesToQueryGlobal(q), request.diff[k].slot, id) <==> id == n && request.clock <= q
  {
    var c, slot, ws := request.Result(s).edges, request.diff[k].slot, request.main.TimesToQueryGlobal(q);
    assert ws == [Window({GLOBAL_BRANCH, request.main.name}, q)];
    if id == n {
      assert Selected(c[n], ws) <==> Visible(c[n], ws[0]);
    } else if id in c && c[id].slot == slot {
      OldInSlot(s, source, request, k, id);
      MergedEdge(s, source, request, id);
      assert Touches(request.diff[k]) && ElementFits(s.edges, source, request.main, request.diff[k]);
    }
  }

  // ---------- The discipline ----------

  /** The replay ends every open live edge that the default branch has in the slot, and overlaps no later one. */
  ghost predicate FitsMain(s: Store, request: Request, k: nat)
    requires k < |request.diff|
  {
    var e := request.diff[k];
    !LeftOut(e, request.resolution) ==>
      && (Replayed(e).Some? ==>
            forall id :: Competitor(s.edges, e.slot, request.main.name, None, id) && s.edges[id].until.None? ==> EndsOrigin(e) && Some(id) == e.originRelId)
      && ClosesCleanly(s, request, k)
  }

  /** The edge of the default branch, if the merge ends it, is not stretched over a later live edge. */
  ghost predicate ClosesCleanly(s: Store, request: Request, k: nat)
    requires k < |request.diff|
  {
    var e := request.diff[k];
    !LeftOut(e, request.resolution) && EndsOrigin(e) && e.originRelId.Some? && e.originRelId.value in s.edges ==>
      NothingInTheWay(s.edges, e.originRelId.value, request.at)
  }

  lemma ClosedLanesDiffer(s: Store, source: BranchInfo, request: Request, i: EdgeId, j: EdgeId)
    requires Consistent(s, source, request.main) && WellFormed(s, source, request)
    requires i in request.Closes(|request.diff|) && j in request.Closes(|request.diff|) && i != j
    ensures i in s.edges && j in s.edges && !SameLane(s.edges[i], s.edges[j])
  {
    var a := ClosesOldEdges(s, source, request, i);
    var b := ClosesOldEdges(s, source, request, j);
    if a == b {
      ReplayIsLocal(request.diff[a], request.resolution, request.at, request.clock);
      assert ElementFits(s.edges, source, request.main, request.diff[a]);
    }
  }

  lemma OpenEdgeIsLatest(edges: Edges, id: EdgeId, at: Time)
    requires Disciplined(edges) && id in edges && edges[id].until.None?
    ensures NothingInTheWay(edges, id, at)
  {
    forall o | o in edges && o != id && SameLane(edges[o], edges[id]) ensures OutOfTheWay(edges[id], at, edges[o]) {
      assert Apart(edges[o], edges[id]);
    }
  }

  lemma ClosedIdIsClean(s: Store, source: BranchInfo, request: Request, id: EdgeId)
    requires Consistent(s, source, request.main) && WellFormed(s, source, request) && Disciplined(s.edges)
    requires id in request.Closes(|request.diff|)
    requires forall k :: 0 <= k < |request.diff| ==> ClosesCleanly(s, request, k)
    ensures id in s.edges && NothingInTheWay(s.edges, id, request.at)
  {
    var k := ClosesOldEdges(s, source, request, id);
    ReplayOfElement(s, source, request, k);
    assert ClosesCleanly(s, request, k) && ElementFits(s.edges, source, request.main, request.diff[k]);
    if s.edges[id].until.None? {
      OpenEdgeIsLatest(s.edges, id, request.at);
    }
  }

  /** Closing the reported edges is harmless exactly when no closed origin edge is stretched over a later one. */
  lemma MergeClosesCleanly(s: Store, source: BranchInfo, request: Request)
    requires Consistent(s, source, request.main) && WellFormed(s, source, request) && Disciplined(s.edges) && NotAfter(s.edges, request.at)
    ensures Disciplined(CloseEdges(s, request.Closes(|request.diff|), request.at).edges) <==>
            forall k :: 0 <= k < |request.diff| ==> ClosesCleanly(s, request, k)
  {
    var ids := request.Closes(|request.diff|);
    forall i | i in ids ensures i in s.edges {
      var _ := ClosesOldEdges(s, source, request, i);
    }
    forall i, j | i in ids && j in ids && i != j ensures !SameLane(s.edges[i], s.edges[j]) {
      ClosedLanesDiffer(s, source, request, i, j);
    }
    StretchingKeepsDiscipline(s, ids, request.at);
    if forall k :: 0 <= k < |request.diff| ==> ClosesCleanly(s, request, k) {
      forall id | id in ids ensures NothingInTheWay(s.edges, id, request.at) {
        ClosedIdIsClean(s, source, request, id);
      }
    }
    if forall id :: id in ids ==> NothingInTheWay(s.edges, id, request.at) {
      forall k | 0 <= k < |request.diff| ensures ClosesCleanly(s, request, k) {
        ReplayOfElement(s, source, request, k);
        assert request.Replay(k).Write? ==> request.Replay(k).close <= ids;
      }
    }
  }

  lemma NoOpenRival(s: Store, source: BranchInfo, request: Request, k: nat)
    requires Consistent(s, source, request.main) && WellFormed(s, source, request) && Disciplined(request.Result(s).edges)
    requires NotAfter(s.edges, request.at) && request.at <= request.clock
    requires k < |request.diff| && !LeftOut(request.diff[k], request.resolution) && Replayed(request.diff[k]).Some?
    ensures forall id :: Competitor(s.edges, request.diff[k].slot, request.main.name, None, id) && s.edges[id].until.None? ==>
              EndsOrigin(request.diff[k]) && Some(id) == request.diff[k].originRelId
  {
    ReplayOfElement(s, source, request, k);
    assert ElementFits(s.edges, source, request.main, request.diff[k]);
    var c, own := request.Result(s).edges, request.Adds(s, k).next;
    Written(s, request, k, |request.diff|);
    var _ := NewEdgesStayOpen(s, source, request, own);
    forall id | Competitor(s.edges, request.diff[k].slot, request.main.name, None, id) && s.edges[id].until.None?
      ensures EndsOrigin(request.diff[k]) && Some(id) == request.diff[k].originRelId
    {
      MergedEdge(s, source, request, id);
      assert SameLane(c[id], c[own]);
      assert Apart(c[id], c[own]);
      assert id in request.Closes(|request.diff|);
      var j := ClosesOldEdges(s, source, request, id);
      ReplayIsLocal(request.diff[k], request.resolution, request.at, request.clock);
      assert j == k;
    }
  }

  lemma TouchedSlotsDiffer(s: Store, source: BranchInfo, request: Request, a: nat, b: nat)
    requires WellFormed(s, source, request) && a < |request.diff| && b < |request.diff| && a != b
    requires Touches(request.diff[a]) && Touches(request.diff[b])
    ensures request.diff[a].slot != request.diff[b].slot
  {
  }

  lemma NewEdgesDiffer(s: Store, source: BranchInfo, request: Request, i: EdgeId, j: EdgeId)
    requires s.Valid() && WellFormed(s, source, request) && i != j
    requires i in request.Result(s).edges && j in request.Result(s).edges && i !in s.edges && j !in s.edges
    ensures request.Result(s).edges[i].slot != request.Result(s).edges[j].slot
  {
    var a := NewEdgesStayOpen(s, source, request, i);
    var b := NewEdgesStayOpen(s, source, request, j);
    TouchedSlotsDiffer(s, source, request, a, b);
  }

  lemma NewEdgeFollowsOld(s: Store, source: BranchInfo, request: Request, i: EdgeId, j: EdgeId)
    requires Consistent(s, source, request.main) && WellFormed(s, source, request)
    requires NotAfter(s.edges, request.at) && request.at <= request.clock
    requires forall k :: 0 <= k < |request.diff| ==> FitsMain(s, request, k)
    requires i in request.Result(s).edges && j in s.edges && i !in s.edges && j in request.Result(s).edges
    requires SameLane(request.Result(s).edges[i], request.Result(s).edges[j])
    ensures request.Result(s).edges[j].until.Some? && request.Result(s).edges[j].until.value <= request.Result(s).edges[i].since
  {
    var a := NewEdgesStayOpen(s, source, request, i);
    ReplayOfElement(s, source, request, a);
    assert FitsMain(s, request, a);
    MergedEdge(s, source, request, j);
    assert Competitor(s.edges, request.diff[a].slot, request.main.name, None, j);
  }

  lemma FittingMergeCloses(s: Store, source: BranchInfo, request: Request)
    requires Consistent(s, source, request.main) && WellFormed(s, source, request) && Disciplined(s.edges) && NotAfter(s.edges, request.at)
    requires forall k :: 0 <= k < |request.diff| ==> FitsMain(s, request, k)
    ensures Disciplined(CloseEdges(s, request.Closes(|request.diff|), request.at).edges)
  {
    MergeClosesCleanly(s, source, request);
    forall k | 0 <= k < |request.diff| ensures ClosesCleanly(s, request, k) {
      assert FitsMain(s, request, k);
    }
  }

  lemma FittingMergeIsDisciplined(s: Store, source: BranchInfo, request: Request)
    requires Consistent(s, source, request.main) && WellFormed(s, source, request) && Disciplined(s.edges) && NotAfter(s.edges, request.at)
    requires request.at <= request.clock
    requires forall k :: 0 <= k < |request.diff| ==> FitsMain(s, request, k)
    ensures Disciplined(request.Result(s).edges)
  {
    var c := request.Result(s).edges;
    FittingMergeCloses(s, source, request);
    forall id | id in c ensures WellTimed(c[id]) {
      if id in s.edges {
        MergedEdge(s, source, request, id);
      } else {
        var _ := NewEdgesStayOpen(s, source, request, id);
      }
    }
    forall i, j | i in c && j in c && i != j && SameLane(c[i], c[j]) ensures Apart(c[i], c[j]) {
      MergedPairIsApart(s, source, request, i, j);
    }
  }

  lemma MergedPairIsApart(s: Store, source: BranchInfo, request: Request, i: EdgeId, j: EdgeId)
    requires Consistent(s, source, request.main) && WellFormed(s, source, request)
    requires NotAfter(s.edges, request.at) && request.at <= request.clock
    requires forall k :: 0 <= k < |request.diff| ==> FitsMain(s, request, k)
    requires Disciplined(CloseEdges(s, request.Closes(|request.diff|), request.at).edges)
    requires i in request.Result(s).edges && j in request.Result(s).edges && i != j
    requires SameLane(request.Result(s).edges[i], request.Result(s).edges[j])
    ensures Apart(request.Result(s).edges[i], request.Result(s).edges[j])
  {
    if i in s.edges && j in s.edges {
      var closed := CloseEdges(s, request.Closes(|request.diff|), request.at).edges;
      MergedEdge(s, source, request, i);
      MergedEdge(s, source, request, j);
      assert SameLane(closed[i], closed[j]);
    } else if i in s.edges {
      NewEdgeFollowsOld(s, source, request, j, i);
    } else if j in s.edges {
      NewEdgeFollowsOld(s, source, request, i, j);
    } else {
      NewEdgesDiffer(s, source, request, i, j);
      assert false;
    }
  }

  /** A merge keeps the discipline exactly when every replayed element fits the default branch. */
  lemma MergeKeepsDiscipline(s: Store, source: BranchInfo, request: Request)
    requires Consistent(s, source, request.main) && WellFormed(s, source, request) && Disciplined(s.edges) && NotAfter(s.edges, request.at)
    requires request.at <= request.clock
    ensures Disciplined(request.Result(s).edges) <==> forall k :: 0 <= k < |request.diff| ==> FitsMain(s, request, k)
  {
    if Disciplined(request.Result(s).edges) {
      var c, closed := request.Result(s).edges, CloseEdges(s, request.Closes(|request.diff|), request.at).edges;
      forall id | id in s.edges ensures id in c && c[id] == closed[id] {
        MergedEdge(s, source, request, id);
      }
      assert Disciplined(closed) by {
        assert forall id :: id in closed ==> WellTimed(c[id]);
        forall i, j | i in closed && j in closed && i != j && SameLane(closed[i], closed[j]) ensures Apart(closed[i], closed[j]) {
          assert SameLane(c[i], c[j]);
        }
      }
      MergeClosesCleanly(s, source, request);
      forall k | 0 <= k < |request.diff| ensures FitsMain(s, request, k) {
        if !LeftOut(request.diff[k], request.resolution) && Replayed(request.diff[k]).Some? {
          NoOpenRival(s, source, request, k);
        }
      }
    } else if forall k :: 0 <= k < |request.diff| ==> FitsMain(s, request, k) {
      FittingMergeIsDisciplined(s, source, request);
    }
  }

  /** A value that the default branch has opened since the edge named by the diff was closed stays open beside the merged one. */
  lemma NewerValueStaysOpen(s: Store, source: BranchInfo, request: Request, k: nat, o: EdgeId)
    requires Consistent(s, source, request.main) && WellFormed(s, source, request)
    requires k < |request.diff| && !LeftOut(request.diff[k], request.resolution) && Replayed(request.diff[k]).Some?
    requires OpenOn(s.edges, request.main.name, o) && s.edges[o].slot == request.diff[k].slot && Some(o) != request.diff[k].originRelId
    ensures var c, merged := request.Result(s).edges, request.Adds(s, k).next;
            && OpenOn(c, request.main.name, o) && OpenOn(c, request.main.name, merged) && o != merged
            && c[o].slot == c[merged].slot && c[o].dst == s.edges[o].dst && c[merged].dst == request.diff[k].dst
  {
    var merged := request.Adds(s, k).next;
    ReplayOfElement(s, source, request, k);
    Written(s, request, k, |request.diff|);
    var _ := NewEdgesStayOpen(s, source, request, merged);
    MergedEdge(s, source, request, o);
    ReplayIsLocal(request.diff[k], request.resolution, request.at, request.clock);
    assert ElementFits(s.edges, source, request.main, request.diff[k]);
    if o in request.Closes(|request.diff|) {
      var j := ClosesOldEdges(s, source, request, o);
      assert j == k;
    }
  }
}
