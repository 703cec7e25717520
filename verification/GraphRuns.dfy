/** Runs of the branching graph: every operation as a step of one state machine, and what holds over whole runs. */
module GraphRuns {
  import opened Common
  import opened TemporalGraph
  import opened AttributeWrites
  import opened Rebase
  import opened Merge

  const MAIN_BRANCH: BranchName := "main"
  const MAIN: BranchInfo := BranchInfo(MAIN_BRANCH, MAIN_BRANCH, 0, DEFAULT_LEVEL, true, true)
  const USER_LEVEL: nat := 2

  datatype State = State(store: Store, branches: map<BranchName, BranchInfo>, now: Time) {
    function View(branch: BranchName): seq<Window>
      requires branch in branches
    {
      branches[branch].TimesToQueryGlobal(now)
    }

    /** A deletion reads through the branch that takes it: agnostic edges through the global branch, whose other window lies at its
        creation, before all data. */
    function DeletionView(branch: BranchName, agnostic: bool): seq<Window>
      requires branch in branches
    {
      if agnostic then [Window({GLOBAL_BRANCH}, now)] else View(branch)
    }

    /** A merge at the current time; `clock` is the time at which it adds nodes. */
    function MergeRequest(diff: seq<Element>, resolution: Resolution, clock: Time): Request {
      Request(diff, resolution, MAIN, now, clock)
    }
  }

  datatype Op =
    | Advance(time: Time)
    | Fork(name: BranchName, isolated: bool)
    | Create(branch: BranchName, slot: Slot, dst: VertexId)
    | Update(branch: BranchName, slot: Slot, dst: VertexId, current: Option<EdgeId>)
    | Delete(branch: BranchName, slot: Slot, dst: VertexId, results: seq<EdgeId>)
    | RebaseOnto(branch: BranchName)
    | MergeInto(branch: BranchName, diff: seq<Element>, resolution: Resolution, clock: Time, finished: Time)

  /** The edge that an update reads as the current one: a best live edge, an open one if there is a choice. */
  ghost predicate Chosen(edges: Edges, ws: seq<Window>, slot: Slot, id: EdgeId) {
    && Top(edges, ws, slot, id) && edges[id].status == Active
    && (edges[id].until.Some? ==> forall o :: Top(edges, ws, slot, o) ==> edges[o].until.Some?)
  }

  ghost predicate ReadsAsCurrent(edges: Edges, ws: seq<Window>, slot: Slot, current: Option<EdgeId>) {
    match current
    case Some(id) => Chosen(edges, ws, slot, id)
    case None => forall id :: Candidate(edges, ws, slot, id) ==> edges[id].status == Deleted
  }

  ghost predicate Enabled(s: State, op: Op) {
    match op
    case Advance(time) => s.now <= time
    case Fork(name, _) => name !in s.branches && name != GLOBAL_BRANCH
    case Create(b, slot, _) =>
      // the vertices are new
      b in s.branches && forall id :: id in s.store.edges ==> s.store.edges[id].slot != slot
    case Update(b, slot, _, current) =>
      b in s.branches && ReadsAsCurrent(s.store.edges, s.View(b), slot, current)
    case Delete(b, slot, _, results) =>
      // the properties of an attribute are agnostic together with it
      && b in s.branches
      && forall i :: 0 <= i < |results| ==>
           && results[i] in s.store.edges && s.store.edges[results[i]].slot.agnostic == slot.agnostic
           && Selected(s.store.edges[results[i]], s.DeletionView(b, slot.agnostic))
    case RebaseOnto(b) => b in s.branches && !s.branches[b].isDefault
    case MergeInto(b, diff, resolution, clock, finished) =>
      && b in s.branches && !s.branches[b].isDefault && s.now <= clock <= finished
      && var request := s.MergeRequest(diff, resolution, clock);
         WellFormed(s.store, s.branches[b], request) && request.Succeeds()
  }

  /** An element is created with the level of its creator's branch, also on the global branch. */
  function CreatedEdge(s: State, b: BranchName, slot: Slot, dst: VertexId): Edge
    requires b in s.branches
  {
    Edge(slot, dst, WriteBranch(slot, s.branches[b]).0, s.branches[b].level, s.now, None, Active, None)
  }

  function DeletedEdge(s: State, b: BranchName, slot: Slot, dst: VertexId): Edge
    requires b in s.branches
  {
    Edge(slot, dst, WriteBranch(slot, s.branches[b]).0, WriteBranch(slot, s.branches[b]).1, s.now, None, Deleted, None)
  }

  ghost function Apply(s: State, op: Op): State
    requires Enabled(s, op)
  {
    match op
    case Advance(time) => s.(now := time)
    case Fork(name, isolated) =>
      s.(branches := s.branches[name := BranchInfo(name, MAIN_BRANCH, s.now, USER_LEVEL, false, isolated)])
    case Create(b, slot, dst) =>
      s.(store := AddEdge(s.store, CreatedEdge(s, b, slot, dst)))
    case Update(b, slot, dst, current) =>
      s.(store := WriteValue(s.store, slot, dst, s.branches[b], s.now, current))
    case Delete(b, slot, dst, results) =>
      s.(store := DeleteProperties(s.store, DeletedEdge(s, b, slot, dst), results, s.now))
    case RebaseOnto(b) =>
      State(RebaseStore(s.store, b, s.now), s.branches[b := s.branches[b].(branchedFrom := s.now)], s.now)
    case MergeInto(b, diff, resolution, clock, finished) =>
      var request := s.MergeRequest(diff, resolution, clock);
      // without a replayed element the branch is not restarted
      if forall k :: 0 <= k < |diff| ==> LeftOut(diff[k], resolution) then State(request.Result(s.store), s.branches, clock)
      else State(request.Result(s.store), s.branches[b := s.branches[b].(branchedFrom := finished)], finished)
  }

  // ---------- Which steps are sound ----------

  /** The slot is agnostic, and the branch still sees, through the cut, the edge that a user branch created with its own level
      although that edge has ended - before now, or now with a live edge in its place. */
  ghost predicate Stale(s: State, b: BranchName, slot: Slot)
    requires b in s.branches
  {
    slot.agnostic && exists id :: Outlived(s, b, slot, id)
  }

  ghost predicate Outlived(s: State, b: BranchName, slot: Slot, id: EdgeId)
    requires b in s.branches
  {
    && Candidate(s.store.edges, s.View(b), slot, id) && s.store.edges[id].level > DEFAULT_LEVEL && s.store.edges[id].until.Some?
    && (s.store.edges[id].until.value < s.now || exists o :: LiveAndOpen(s.store.edges, slot, o))
  }

  predicate LiveAndOpen(edges: Edges, slot: Slot, id: EdgeId) {
    id in edges && edges[id].slot == slot && edges[id].status == Active && edges[id].until.None?
  }

  /** What a caller can check before a step: an update does not read an outlived value, a merge only closes edges that are alive,
      and each replayed element of a merge fits the default branch. */
  ghost predicate Safe(s: State, op: Op)
    requires Enabled(s, op)
  {
    match op
    case Update(b, slot, _, _) => !Stale(s, b, slot)
    case MergeInto(b, diff, resolution, clock, _) =>
      forall k :: 0 <= k < |diff| ==>
        FitsMain(s.store, s.MergeRequest(diff, resolution, clock), k) && EndsAlive(s, diff[k], resolution)
    case _ => true
  }

  /** A run of safe steps. */
  ghost predicate Runs(s: State, ops: seq<Op>)
    decreases |ops|
  {
    ops == [] || (Enabled(s, ops[0]) && Safe(s, ops[0]) && Runs(Apply(s, ops[0]), ops[1..]))
  }

  ghost function Run(s: State, ops: seq<Op>): State
    requires Runs(s, ops)
    decreases |ops|
  {
    if ops == [] then s else Run(Apply(s, ops[0]), ops[1..])
  }

  // ---------- The invariant ----------

  ghost predicate BranchesFit(s: State) {
    && MAIN_BRANCH in s.branches && s.branches[MAIN_BRANCH] == MAIN && GLOBAL_BRANCH !in s.branches
    && forall b :: b in s.branches && b != MAIN_BRANCH ==>
         && s.branches[b].name == b && s.branches[b].origin == MAIN_BRANCH && !s.branches[b].isDefault
         && s.branches[b].level == USER_LEVEL && s.branches[b].branchedFrom <= s.now
  }

  predicate EdgeFits(e: Edge, branches: map<BranchName, BranchInfo>) {
    && (e.branch == GLOBAL_BRANCH <==> e.slot.agnostic)
    && (e.branch == GLOBAL_BRANCH ==> DEFAULT_LEVEL <= e.level <= USER_LEVEL)
    && (e.branch != GLOBAL_BRANCH ==> e.branch in branches && e.level == branches[e.branch].level)
  }

  predicate Permanent(branch: BranchName) {
    branch == MAIN_BRANCH || branch == GLOBAL_BRANCH
  }

  /** At time t the slot has an edge on the branch that started no earlier than `e` ended. */
  ghost predicate Succeeded(edges: Edges, e: Edge, t: Time) {
    e.until.Some? && exists id :: id in edges && edges[id].slot == e.slot && edges[id].branch == e.branch && e.until.value <= edges[id].since && Alive(edges[id], t)
  }

  /** On the default and the global branch, a slot that has been written never becomes empty again. */
  ghost predicate Contiguous(edges: Edges) {
    forall id, t: Time :: id in edges && Permanent(edges[id].branch) && edges[id].until.Some? && edges[id].until.value <= t ==>
      Succeeded(edges, edges[id], t)
  }

  /** The edge keeps the level of the user branch that created the agnostic element. */
  predicate Creator(edges: Edges, id: EdgeId) {
    id in edges && edges[id].branch == GLOBAL_BRANCH && edges[id].level > DEFAULT_LEVEL
  }

  /** Only the creation of an agnostic element puts a user level on the global branch. */
  ghost predicate OneCreator(edges: Edges) {
    && (forall id :: Creator(edges, id) ==> edges[id].status == Active)
    && (forall i, j :: Creator(edges, i) && Creator(edges, j) && edges[i].slot == edges[j].slot ==> i == j)
  }

  ghost predicate Inv(s: State) {
    && s.store.Valid() && NotAfter(s.store.edges, s.now) && Disciplined(s.store.edges)
    && BranchesFit(s) && (forall id :: id in s.store.edges ==> EdgeFits(s.store.edges[id], s.branches))
    && Contiguous(s.store.edges) && OneCreator(s.store.edges)
  }

  /** The state before anything was done, at any time: the default branch alone. */
  function Start(now: Time): State {
    State(Store(map[], 0), map[MAIN_BRANCH := MAIN], now)
  }

  lemma StartIsSound(now: Time)
    ensures Inv(Start(now))
  {
  }

  /** A step at `at` only adds edges that start then or later, and only closes edges that are alive then;
      the branches in `rewritten` are exempt. */
  ghost predicate Gentle(before: Edges, after: Edges, at: Time, rewritten: set<BranchName>) {
    && (forall id :: id in before && before[id].branch !in rewritten ==> id in after && Aged(before[id], after[id], at))
    && (forall id :: id in after && id !in before ==> at <= after[id].since && after[id].until.None?)
    && (forall id :: id in after && id in before ==> after[id].branch == before[id].branch)
  }

  predicate Aged(e: Edge, f: Edge, at: Time) {
    f == e || (f == e.(until := Some(at)) && Alive(e, at))
  }

  /** Whatever the step closes on a permanent branch is followed by an open edge that starts at the same time. */
  ghost predicate HandsOver(before: Edges, after: Edges, at: Time) {
    forall id :: id in before && Permanent(before[id].branch) && id in after && after[id] != before[id] ==>
      exists n :: n in after && after[n].slot == before[id].slot && after[n].branch == before[id].branch && after[n].since == at && after[n].until.None?
  }

  lemma ContiguousStep(before: Edges, after: Edges, at: Time, rewritten: set<BranchName>)
    requires Contiguous(before) && NotAfter(before, at) && Gentle(before, after, at, rewritten) && HandsOver(before, after, at)
    requires forall b :: b in rewritten ==> !Permanent(b)
    ensures Contiguous(after)
  {
    forall id, t: Time | id in after && Permanent(after[id].branch) && after[id].until.Some? && after[id].until.value <= t
      ensures Succeeded(after, after[id], t)
    {
      if after[id] != before[id] {
        var n :| n in after && after[n].slot == before[id].slot && after[n].branch == before[id].branch && after[n].since == at && after[n].until.None?;
        assert Alive(after[n], t);
      } else {
        assert Succeeded(before, before[id], t);
        var n :| n in before && before[n].slot == before[id].slot && before[n].branch == before[id].branch
                 && before[id].until.value <= before[n].since && Alive(before[n], t);
        if !Alive(after[n], t) {
          var m :| m in after && after[m].slot == before[n].slot && after[m].branch == before[n].branch && after[m].since == at && after[m].until.None?;
          assert Alive(after[m], t);
        }
      }
    }
  }

  // ---------- Each operation ----------

  /** On a permanent lane the best edge of a view that reads it now is open whenever it is closed-or-older otherwise. */
  lemma OpenSuccessor(s: State, id: EdgeId) returns (n: EdgeId)
    requires Inv(s) && id in s.store.edges && s.store.edges[id].until.Some? && Permanent(s.store.edges[id].branch)
    ensures n in s.store.edges && s.store.edges[n].until.None? && s.store.edges[n].slot == s.store.edges[id].slot
    ensures s.store.edges[n].branch == s.store.edges[id].branch && s.store.edges[id].until.value <= s.store.edges[n].since <= s.now
  {
    assert Succeeded(s.store.edges, s.store.edges[id], s.now + 1);
    n :| n in s.store.edges && s.store.edges[n].slot == s.store.edges[id].slot && s.store.edges[n].branch == s.store.edges[id].branch
         && s.store.edges[id].until.value <= s.store.edges[n].since && Alive(s.store.edges[n], s.now + 1);
  }

  lemma OwnEdgesAreCandidates(s: State, b: BranchName, slot: Slot, id: EdgeId)
    requires Inv(s) && b in s.branches && id in s.store.edges && s.store.edges[id].slot == slot
    requires s.store.edges[id].branch == WriteBranch(slot, s.branches[b]).0
    ensures Alive(s.store.edges[id], s.now) ==> Candidate(s.store.edges, s.View(b), slot, id)
    ensures Candidate(s.store.edges, s.View(b), slot, id) && s.store.edges[id].until.Some? && !slot.agnostic ==> Alive(s.store.edges[id], s.now)
  {
    var ws := s.View(b);
    assert ws[|ws| - 1] == Window({GLOBAL_BRANCH, b}, s.now);
    if Alive(s.store.edges[id], s.now) {
      assert Visible(s.store.edges[id], ws[|ws| - 1]);
    }
  }

  /** Unless the branch reads an outlived value, the edge that an update replaces is the latest of its lane, and alive now. */
  lemma ReadPicksTheLatest(s: State, b: BranchName, slot: Slot, current: Option<EdgeId>)
    requires Inv(s) && b in s.branches && ReadsAsCurrent(s.store.edges, s.View(b), slot, current) && !Stale(s, b, slot)
    ensures ReplacesTheLatest(s.store.edges, slot, WriteBranch(slot, s.branches[b]).0, current, s.now)
    ensures current.Some? && s.store.edges[current.value].branch == WriteBranch(slot, s.branches[b]).0 ==> Alive(s.store.edges[current.value], s.now)
  {
    var edges, ws, name := s.store.edges, s.View(b), WriteBranch(slot, s.branches[b]).0;
    forall id: EdgeId | Competitor(edges, slot, name, current, id)
      ensures edges[id].until.Some?
    {
      if edges[id].until.None? {
        OwnEdgesAreCandidates(s, b, slot, id);
        if current.Some? {
          OpenEdgeIsCurrent(s, b, slot, current.value, id);
        }
      }
    }
    if current.Some? && edges[current.value].branch == name {
      CurrentIsAlive(s, b, slot, current.value);
      forall o | o in edges && o != current.value && SameLane(edges[o], edges[current.value])
        ensures OutOfTheWay(edges[current.value], s.now, edges[o])
      {
        assert Apart(edges[o], edges[current.value]);
      }
    }
  }

  lemma CurrentIsAlive(s: State, b: BranchName, slot: Slot, cur: EdgeId)
    requires Inv(s) && b in s.branches && Chosen(s.store.edges, s.View(b), slot, cur) && !Stale(s, b, slot)
    requires s.store.edges[cur].branch == WriteBranch(slot, s.branches[b]).0
    ensures Alive(s.store.edges[cur], s.now)
  {
    var edges := s.store.edges;
    if edges[cur].until.Some? && edges[cur].until.value < s.now {
      OwnEdgesAreCandidates(s, b, slot, cur);
      assert EdgeFits(edges[cur], s.branches);
      assert !Outlived(s, b, slot, cur);
      var n := OpenSuccessor(s, cur);
      OwnEdgesAreCandidates(s, b, slot, n);
    }
  }

  lemma OpenEdgeIsCurrent(s: State, b: BranchName, slot: Slot, cur: EdgeId, id: EdgeId)
    requires Inv(s) && b in s.branches && Chosen(s.store.edges, s.View(b), slot, cur) && !Stale(s, b, slot)
    requires id in s.store.edges && s.store.edges[id].slot == slot && s.store.edges[id].status == Active && s.store.edges[id].until.None?
    requires s.store.edges[id].branch == WriteBranch(slot, s.branches[b]).0
    ensures id == cur
  {
    var edges, ws := s.store.edges, s.View(b);
    OwnEdgesAreCandidates(s, b, slot, id);
    assert EdgeFits(edges[id], s.branches) && EdgeFits(edges[cur], s.branches);
    assert !Beats(edges[id], edges[cur]);
    assert edges[cur].branch == edges[id].branch;
    assert LiveAndOpen(edges, slot, id);
    assert !Outlived(s, b, slot, cur);
    if edges[cur].since == edges[id].since && edges[cur].level == edges[id].level {
      assert Top(edges, ws, slot, id);
    }
  }

  /** The edges of every branch except a rebased one are only added to and closed. */
  function Rewritten(op: Op): set<BranchName> {
    if op.RebaseOnto? then {op.branch} else {}
  }

  /** The step closes the edges in `ids` and adds open edges that start now. */
  ghost predicate ClosesAndAdds(s: State, after: Edges, ids: set<EdgeId>) {
    && s.store.edges.Keys <= after.Keys
    && (forall id :: id in s.store.edges ==> after[id] == if id in ids then s.store.edges[id].(until := Some(s.now)) else s.store.edges[id])
    && (forall id :: id in ids && id in s.store.edges ==> Alive(s.store.edges[id], s.now))
    && (forall id :: id in after && id !in s.store.edges ==> Fresh(s, after[id]))
  }

  predicate Fresh(s: State, e: Edge) {
    s.now <= e.since && e.until.None? && EdgeFits(e, s.branches)
  }

  ghost predicate Replaced(s: State, after: Edges, id: EdgeId)
    requires id in s.store.edges
  {
    exists n :: n in after && n !in s.store.edges && after[n].slot == s.store.edges[id].slot && after[n].branch == s.store.edges[id].branch
                && after[n].since == s.now
  }

  /** What every step but a rebase establishes about the edges. */
  ghost predicate SoundStep(s: State, after: Edges) {
    && Disciplined(after)
    && Gentle(s.store.edges, after, s.now, {}) && HandsOver(s.store.edges, after, s.now)
    && forall id :: id in after ==> EdgeFits(after[id], s.branches)
  }

  lemma ClosingAndAddingIsSound(s: State, after: Edges, ids: set<EdgeId>)
    requires Inv(s) && Disciplined(after) && ClosesAndAdds(s, after, ids)
    requires forall id :: id in ids && id in s.store.edges && Permanent(s.store.edges[id].branch) ==> Replaced(s, after, id)
    ensures SoundStep(s, after)
  {
    forall id | id in after ensures EdgeFits(after[id], s.branches) {
      if id in s.store.edges {
        assert EdgeFits(s.store.edges[id], s.branches);
      } else {
        assert Fresh(s, after[id]);
      }
    }
    forall id | id in s.store.edges && Permanent(s.store.edges[id].branch) && id in after && after[id] != s.store.edges[id]
      ensures exists n :: n in after && after[n].slot == s.store.edges[id].slot && after[n].branch == s.store.edges[id].branch && after[n].since == s.now && after[n].until.None?
    {
      assert Replaced(s, after, id);
      var n :| n in after && n !in s.store.edges && after[n].slot == s.store.edges[id].slot && after[n].branch == s.store.edges[id].branch
               && after[n].since == s.now;
      assert Fresh(s, after[n]);
    }
  }

  lemma UpdateStep(s: State, b: BranchName, slot: Slot, dst: VertexId, current: Option<EdgeId>)
    requires Inv(s) && Enabled(s, Update(b, slot, dst, current)) && !Stale(s, b, slot)
    ensures SoundStep(s, Apply(s, Update(b, slot, dst, current)).store.edges)
  {
    var after := Apply(s, Update(b, slot, dst, current)).store.edges;
    ReadPicksTheLatest(s, b, slot, current);
    WriteKeepsDiscipline(s.store, slot, dst, s.branches[b], s.now, current);
    var ids := if current.Some? && s.store.edges[current.value].branch == WriteBranch(slot, s.branches[b]).0 then {current.value} else {};
    UpdateClosesAndAdds(s, b, slot, dst, current, ids);
    ClosingAndAddingIsSound(s, after, ids);
  }

  lemma UpdateClosesAndAdds(s: State, b: BranchName, slot: Slot, dst: VertexId, current: Option<EdgeId>, ids: set<EdgeId>)
    requires Inv(s) && Enabled(s, Update(b, slot, dst, current))
    requires ids == if current.Some? && s.store.edges[current.value].branch == WriteBranch(slot, s.branches[b]).0 then {current.value} else {}
    requires forall id :: id in ids ==> Alive(s.store.edges[id], s.now)
    ensures ClosesAndAdds(s, Apply(s, Update(b, slot, dst, current)).store.edges, ids)
    ensures forall id :: id in ids ==> Replaced(s, Apply(s, Update(b, slot, dst, current)).store.edges, id)
  {
    var after, n := Apply(s, Update(b, slot, dst, current)).store.edges, s.store.next;
    assert n in after && n !in s.store.edges && after[n].slot == slot && after[n].branch == WriteBranch(slot, s.branches[b]).0;
    assert Fresh(s, after[n]);
  }

  /** The edges that a deletion closes are alive. */
  lemma OwnResultsAreAlive(s: State, b: BranchName, slot: Slot, dst: VertexId, results: seq<EdgeId>)
    requires Inv(s) && Enabled(s, Delete(b, slot, dst, results))
    ensures forall id :: id in Mine(s.store, results, WriteBranch(slot, s.branches[b]).0) ==> Alive(s.store.edges[id], s.now)
  {
    forall id | id in Mine(s.store, results, WriteBranch(slot, s.branches[b]).0) ensures Alive(s.store.edges[id], s.now) {
      var ws := s.DeletionView(b, slot.agnostic);
      var i :| 0 <= i < |ws| && Visible(s.store.edges[id], ws[i]);
    }
  }

  lemma DeleteStep(s: State, b: BranchName, slot: Slot, dst: VertexId, results: seq<EdgeId>)
    requires Inv(s) && Enabled(s, Delete(b, slot, dst, results)) && results != []
    ensures SoundStep(s, Apply(s, Delete(b, slot, dst, results)).store.edges)
  {
    var e := DeletedEdge(s, b, slot, dst);
    OwnResultsAreAlive(s, b, slot, dst, results);
    DeleteKeepsDiscipline(s.store, e, results, s.now);
    DeleteClosesAndAdds(s, b, slot, dst, results);
    DeletedAreReplaced(s, b, slot, dst, results);
    ClosingAndAddingIsSound(s, Apply(s, Delete(b, slot, dst, results)).store.edges, Mine(s.store, results, e.branch));
  }

  lemma DeleteClosesAndAdds(s: State, b: BranchName, slot: Slot, dst: VertexId, results: seq<EdgeId>)
    requires Inv(s) && Enabled(s, Delete(b, slot, dst, results)) && results != []
    ensures ClosesAndAdds(s, Apply(s, Delete(b, slot, dst, results)).store.edges, Mine(s.store, results, WriteBranch(slot, s.branches[b]).0))
  {
    var after := Apply(s, Delete(b, slot, dst, results)).store.edges;
    OwnResultsAreAlive(s, b, slot, dst, results);
    forall id | id in after && id !in s.store.edges ensures Fresh(s, after[id]) {
      MarkersAreFresh(s, b, slot, dst, results, id);
    }
  }

  lemma DeletedAreReplaced(s: State, b: BranchName, slot: Slot, dst: VertexId, results: seq<EdgeId>)
    requires Inv(s) && Enabled(s, Delete(b, slot, dst, results))
    ensures forall id :: id in Mine(s.store, results, WriteBranch(slot, s.branches[b]).0) ==>
              Replaced(s, Apply(s, Delete(b, slot, dst, results)).store.edges, id)
  {
    forall id | id in Mine(s.store, results, WriteBranch(slot, s.branches[b]).0)
      ensures Replaced(s, Apply(s, Delete(b, slot, dst, results)).store.edges, id)
    {
      var n := MarkerStays(s, b, slot, dst, results, id);
    }
  }

  lemma MarkersAreFresh(s: State, b: BranchName, slot: Slot, dst: VertexId, results: seq<EdgeId>, id: EdgeId)
    requires Inv(s) && Enabled(s, Delete(b, slot, dst, results)) && results != []
    requires id in Apply(s, Delete(b, slot, dst, results)).store.edges && id !in s.store.edges
    ensures var e := Apply(s, Delete(b, slot, dst, results)).store.edges[id]; Fresh(s, e) && e.status == Deleted
    ensures Apply(s, Delete(b, slot, dst, results)).store.edges[id].level == WriteBranch(slot, s.branches[b]).1
  {
    var e := DeletedEdge(s, b, slot, dst);
    var m := DeletionMarkers(s.store, results, (e.branch, e.level), s.now);
    if id in m.edges {
      MarkerFor(s.store, results, (e.branch, e.level), s.now, id);
    }
  }

  /** A deletion leaves a marker in the slot of each result. */
  lemma MarkerStays(s: State, b: BranchName, slot: Slot, dst: VertexId, results: seq<EdgeId>, id: EdgeId) returns (n: EdgeId)
    requires Inv(s) && Enabled(s, Delete(b, slot, dst, results)) && id in results
    ensures n in Apply(s, Delete(b, slot, dst, results)).store.edges && n !in s.store.edges
    ensures var e := Apply(s, Delete(b, slot, dst, results)).store.edges[n];
            && e.slot == s.store.edges[id].slot && e.branch == WriteBranch(slot, s.branches[b]).0 && e.level == WriteBranch(slot, s.branches[b]).1
            && e.since == s.now && e.until.None? && e.status == Deleted
  {
    n := MarkerOf(s.store, results, WriteBranch(slot, s.branches[b]), s.now, id);
  }

  /** Every result of a deletion gets a marker in its own slot. */
  lemma {:induction false} MarkerOf(s: Store, results: seq<EdgeId>, branch: (BranchName, nat), at: Time, id: EdgeId) returns (n: EdgeId)
    requires s.Valid() && (forall i :: 0 <= i < |results| ==> results[i] in s.edges) && id in results
    ensures var m := DeletionMarkers(s, results, branch, at); n in m.edges && n !in s.edges && m.edges[n].slot == s.edges[id].slot && n < m.next
    decreases |results|
  {
    var init, last := results[..|results| - 1], results[|results| - 1];
    if id == last {
      n := DeletionMarkers(s, init, branch, at).next;
      assert n !in s.edges;
    } else {
      n := MarkerOf(s, init, branch, at, id);
    }
  }

  /** Markers only appear in the slots of results. */
  lemma {:induction false} MarkerFor(s: Store, results: seq<EdgeId>, branch: (BranchName, nat), at: Time, n: EdgeId)
    requires s.Valid() && forall i :: 0 <= i < |results| ==> results[i] in s.edges
    requires n in DeletionMarkers(s, results, branch, at).edges && n !in s.edges
    ensures exists i :: 0 <= i < |results| && DeletionMarkers(s, results, branch, at).edges[n].slot == s.edges[results[i]].slot
    decreases |results|
  {
    var init := results[..|results| - 1];
    var m := DeletionMarkers(s, init, branch, at);
    if n in m.edges {
      MarkerFor(s, init, branch, at, n);
      var i :| 0 <= i < |init| && m.edges[n].slot == s.edges[init[i]].slot;
      assert results[i] == init[i];
    }
  }

  lemma MergeStep(s: State, b: BranchName, diff: seq<Element>, resolution: Resolution, clock: Time, finished: Time)
    requires Inv(s) && Enabled(s, MergeInto(b, diff, resolution, clock, finished)) && Safe(s, MergeInto(b, diff, resolution, clock, finished))
    ensures SoundStep(s, Apply(s, MergeInto(b, diff, resolution, clock, finished)).store.edges)
  {
    var request, source := s.MergeRequest(diff, resolution, clock), s.branches[b];
    var after, ids := request.Result(s.store).edges, request.Closes(|diff|);
    MergeKeepsDiscipline(s.store, source, request);
    MergeClosesAlive(s, b, request);
    MergedEdges(s.store, source, request);
    forall id | id in after && id !in s.store.edges ensures Fresh(s, after[id]) {
      MergeAddsFresh(s, b, request, id);
    }
    forall id | id in ids && id in s.store.edges && Permanent(s.store.edges[id].branch) ensures Replaced(s, after, id) {
      MergeReplaces(s, b, request, id);
    }
    ClosingAndAddingIsSound(s, after, ids);
  }

  lemma MergedEdges(s: Store, source: BranchInfo, request: Request)
    requires s.Valid() && WellFormed(s, source, request)
    ensures forall id :: id in s.edges ==> id in request.Result(s).edges
    ensures forall id :: id in s.edges ==>
              request.Result(s).edges[id] == if id in request.Closes(|request.diff|) then s.edges[id].(until := Some(request.at)) else s.edges[id]
  {
    forall id | id in s.edges
      ensures id in request.Result(s).edges
      ensures request.Result(s).edges[id] == if id in request.Closes(|request.diff|) then s.edges[id].(until := Some(request.at)) else s.edges[id]
    {
      MergedEdge(s, source, request, id);
    }
  }

  /** The request is one of a branch of the state, at its time. */
  ghost predicate Requested(s: State, b: BranchName, request: Request) {
    && b in s.branches && !s.branches[b].isDefault && request.main == MAIN && request.at == s.now <= request.clock
    && WellFormed(s.store, s.branches[b], request)
  }

  /** Every branch of a sound state but the default one can be merged, whatever was done on it. */
  lemma BranchesAreConsistent(s: State, b: BranchName)
    requires Inv(s) && b in s.branches && !s.branches[b].isDefault
    ensures Consistent(s.store, s.branches[b], MAIN)
  {
    forall id | id in s.store.edges ensures EdgeFits(s.store.edges[id], s.branches) {
    }
  }

  /** A newest open edge of a branch can be merged whatever else the branch has open in the slot: a deletion, say, leaves its marker
      beside the edge that it deletes. */
  lemma NewestCanBeMerged(s: State, b: BranchName, e: Element, resolution: Resolution, clock: Time, finished: Time)
    requires Inv(s) && b in s.branches && !s.branches[b].isDefault && s.now <= clock <= finished
    requires e.relId.Some? && e.originRelId.None? && Newest(s.store.edges, b, e.relId.value)
    requires var own := s.store.edges[e.relId.value];
             own.slot == e.slot && !e.slot.agnostic && own.dst == e.dst && (own.status == Deleted <==> e.action.Removed?)
    ensures Consistent(s.store, s.branches[b], MAIN) && Enabled(s, MergeInto(b, [e], resolution, clock, finished))
  {
    BranchesAreConsistent(s, b);
    assert s.branches[b].name == b;
  }

  /** The edge of the default branch that the element has the merge end is alive. */
  ghost predicate EndsAlive(s: State, e: Element, resolution: Resolution) {
    !LeftOut(e, resolution) && EndsOrigin(e) && e.originRelId.Some? && e.originRelId.value in s.store.edges ==>
      Alive(s.store.edges[e.originRelId.value], s.now)
  }

  /** What the replay of an element closes. */
  lemma ReplayCloses(s: State, b: BranchName, request: Request, k: nat)
    requires Inv(s) && Requested(s, b, request) && k < |request.diff| && request.Replay(k).Write?
    ensures EndsAlive(s, request.diff[k], request.resolution) <==>
            forall id :: id in request.Replay(k).close && id in s.store.edges ==> Alive(s.store.edges[id], s.now)
  {
    ReplayOfElement(s.store, s.branches[b], request, k);
    assert ElementFits(s.store.edges, s.branches[b], MAIN, request.diff[k]);
  }

  /** A merge only closes edges that are alive exactly when those of the default branch are: the reported ones are open. */
  lemma MergeClosesAlive(s: State, b: BranchName, request: Request)
    requires Inv(s) && Requested(s, b, request)
    ensures (forall id :: id in request.Closes(|request.diff|) && id in s.store.edges ==> Alive(s.store.edges[id], s.now)) <==>
            forall k :: 0 <= k < |request.diff| ==> EndsAlive(s, request.diff[k], request.resolution)
  {
    if forall id :: id in request.Closes(|request.diff|) && id in s.store.edges ==> Alive(s.store.edges[id], s.now) {
      forall k | 0 <= k < |request.diff| ensures EndsAlive(s, request.diff[k], request.resolution) {
        ReplayOfElement(s.store, s.branches[b], request, k);
        if request.Replay(k).Write? {
          assert request.Replay(k).close <= request.Closes(|request.diff|);
          ReplayCloses(s, b, request, k);
        }
      }
    }
    if forall k :: 0 <= k < |request.diff| ==> EndsAlive(s, request.diff[k], request.resolution) {
      forall id | id in request.Closes(|request.diff|) && id in s.store.edges ensures Alive(s.store.edges[id], s.now) {
        var k := ClosesOldEdges(s.store, s.branches[b], request, id);
        ReplayCloses(s, b, request, k);
      }
    }
  }

  /** What a merge closes on the default branch is replaced at the merge time. */
  lemma MergeReplaces(s: State, b: BranchName, request: Request, id: EdgeId)
    requires Inv(s) && Requested(s, b, request)
    requires id in request.Closes(|request.diff|) && id in s.store.edges && Permanent(s.store.edges[id].branch)
    ensures Replaced(s, request.Result(s.store).edges, id)
  {
    var after, source := request.Result(s.store).edges, s.branches[b];
    var k := ClosesOldEdges(s.store, source, request, id);
    ClosedOnMainIsReplacedNow(s, b, request, id, k);
    var n := request.Adds(s.store, k).next;
    Written(s.store, request, k, |request.diff|);
    var _ := NewEdgesStayOpen(s.store, source, request, n);
    assert after[n] == request.NewEdge(k);
  }

  lemma ClosedOnMainIsReplacedNow(s: State, b: BranchName, request: Request, id: EdgeId, k: nat)
    requires Inv(s) && Requested(s, b, request) && k < |request.diff| && request.Replay(k).Write? && id in request.Replay(k).close
    requires id in s.store.edges && Permanent(s.store.edges[id].branch) && Touches(request.diff[k])
    ensures request.Replay(k).since == s.now && s.store.edges[id].branch == MAIN_BRANCH
  {
    ReplayIsLocal(request.diff[k], request.resolution, request.at, request.clock);
    assert ElementFits(s.store.edges, s.branches[b], MAIN, request.diff[k]);
  }

  lemma MergeAddsFresh(s: State, b: BranchName, request: Request, id: EdgeId)
    requires Inv(s) && Requested(s, b, request)
    requires id in request.Result(s.store).edges && id !in s.store.edges
    ensures Fresh(s, request.Result(s.store).edges[id]) && request.Result(s.store).edges[id].branch == MAIN_BRANCH
    ensures request.Result(s.store).edges[id].since <= request.clock
  {
    var k := NewEdgesStayOpen(s.store, s.branches[b], request, id);
    assert ElementFits(s.store.edges, s.branches[b], MAIN, request.diff[k]);
  }

  lemma CreateStep(s: State, b: BranchName, slot: Slot, dst: VertexId)
    requires Inv(s) && Enabled(s, Create(b, slot, dst))
    ensures SoundStep(s, Apply(s, Create(b, slot, dst)).store.edges)
  {
    var e := CreatedEdge(s, b, slot, dst);
    var after := AddEdge(s.store, e).edges;
    AddingKeepsDiscipline(s.store, e);
    assert forall id :: id in after && id !in s.store.edges ==> id == s.store.next;
    assert Fresh(s, e);
    ClosingAndAddingIsSound(s, after, {});
  }

  /** A later state with the same levels, whose edges come from a sound step. */
  lemma SoundStepKeepsInv(s: State, s': State, rewritten: set<BranchName>)
    requires Inv(s) && s'.store.Valid() && BranchesFit(s') && s.now <= s'.now
    requires Disciplined(s'.store.edges) && NotAfter(s'.store.edges, s'.now) && OneCreator(s'.store.edges)
    requires forall id :: id in s'.store.edges ==> EdgeFits(s'.store.edges[id], s.branches)
    requires Gentle(s.store.edges, s'.store.edges, s.now, rewritten) && HandsOver(s.store.edges, s'.store.edges, s.now)
    requires forall b :: b in rewritten ==> !Permanent(b)
    requires forall b :: b in s.branches ==> b in s'.branches && s'.branches[b].level == s.branches[b].level
    ensures Inv(s')
  {
    ContiguousStep(s.store.edges, s'.store.edges, s.now, rewritten);
    forall id | id in s'.store.edges ensures EdgeFits(s'.store.edges[id], s'.branches) {
      assert EdgeFits(s'.store.edges[id], s.branches);
    }
  }

  /** New edges keep out of the creators' way, and old ones keep their slot, level, status and branch. */
  lemma CreatorsStay(before: Edges, after: Edges)
    requires OneCreator(before)
    requires forall id :: id in after && id in before ==>
      after[id].slot == before[id].slot && after[id].level == before[id].level && after[id].status == before[id].status && after[id].branch == before[id].branch
    requires forall id :: id in after && id !in before && after[id].branch == GLOBAL_BRANCH ==> after[id].level <= DEFAULT_LEVEL
    ensures OneCreator(after)
  {
    assert forall id :: Creator(after, id) ==> Creator(before, id);
  }

  lemma CreateKeepsInv(s: State, b: BranchName, slot: Slot, dst: VertexId)
    requires Inv(s) && Enabled(s, Create(b, slot, dst))
    ensures var s' := Apply(s, Create(b, slot, dst)); Inv(s') && Gentle(s.store.edges, s'.store.edges, s.now, {})
  {
    var s' := Apply(s, Create(b, slot, dst));
    CreateStep(s, b, slot, dst);
    forall id | Creator(s'.store.edges, id) ensures s'.store.edges[id].status == Active && (id in s.store.edges ==> Creator(s.store.edges, id)) {
    }
    SoundStepKeepsInv(s, s', {});
  }

  lemma UpdateKeepsInv(s: State, b: BranchName, slot: Slot, dst: VertexId, current: Option<EdgeId>)
    requires Inv(s) && Enabled(s, Update(b, slot, dst, current)) && !Stale(s, b, slot)
    ensures var s' := Apply(s, Update(b, slot, dst, current)); Inv(s') && Gentle(s.store.edges, s'.store.edges, s.now, {})
  {
    UpdateStep(s, b, slot, dst, current);
    UpdateIsDated(s, b, slot, dst, current);
    SoundStepKeepsInv(s, Apply(s, Update(b, slot, dst, current)), {});
  }

  lemma UpdateIsDated(s: State, b: BranchName, slot: Slot, dst: VertexId, current: Option<EdgeId>)
    requires Inv(s) && Enabled(s, Update(b, slot, dst, current))
    ensures var store := Apply(s, Update(b, slot, dst, current)).store; store.Valid() && NotAfter(store.edges, s.now) && OneCreator(store.edges)
  {
    WriteKeepsDiscipline(s.store, slot, dst, s.branches[b], s.now, current);
    WriteKeepsCreators(s.store, slot, dst, s.branches[b], s.now, current);
  }

  lemma WriteKeepsCreators(s: Store, slot: Slot, dst: VertexId, info: BranchInfo, at: Time, current: Option<EdgeId>)
    requires OneCreator(s.edges) && s.Valid() && info.name != GLOBAL_BRANCH && (current.Some? ==> current.value in s.edges)
    ensures OneCreator(WriteValue(s, slot, dst, info, at, current).edges)
  {
    CreatorsStay(s.edges, WriteValue(s, slot, dst, info, at, current).edges);
  }

  lemma DeleteKeepsInv(s: State, b: BranchName, slot: Slot, dst: VertexId, results: seq<EdgeId>)
    requires Inv(s) && Enabled(s, Delete(b, slot, dst, results))
    ensures var s' := Apply(s, Delete(b, slot, dst, results)); Inv(s') && Gentle(s.store.edges, s'.store.edges, s.now, {})
  {
    var s' := Apply(s, Delete(b, slot, dst, results));
    if results == [] {
      SoundStepKeepsInv(s, s', {});
    } else {
      DeleteStep(s, b, slot, dst, results);
      DeleteKeepsDiscipline(s.store, DeletedEdge(s, b, slot, dst), results, s.now);
      DeleteKeepsCreators(s, b, slot, dst, results);
      SoundStepKeepsInv(s, s', {});
    }
  }

  lemma DeleteKeepsCreators(s: State, b: BranchName, slot: Slot, dst: VertexId, results: seq<EdgeId>)
    requires Inv(s) && Enabled(s, Delete(b, slot, dst, results)) && results != []
    ensures OneCreator(Apply(s, Delete(b, slot, dst, results)).store.edges) && Apply(s, Delete(b, slot, dst, results)).store.Valid()
  {
    var after := Apply(s, Delete(b, slot, dst, results)).store.edges;
    forall id | id in after && id !in s.store.edges && after[id].branch == GLOBAL_BRANCH ensures after[id].level <= DEFAULT_LEVEL {
      MarkersAreFresh(s, b, slot, dst, results, id);
    }
    CreatorsStay(s.store.edges, after);
  }

  lemma MergeKeepsInv(s: State, b: BranchName, diff: seq<Element>, resolution: Resolution, clock: Time, finished: Time)
    requires Inv(s) && Enabled(s, MergeInto(b, diff, resolution, clock, finished)) && Safe(s, MergeInto(b, diff, resolution, clock, finished))
    ensures var s' := Apply(s, MergeInto(b, diff, resolution, clock, finished)); Inv(s') && Gentle(s.store.edges, s'.store.edges, s.now, {})
  {
    var op := MergeInto(b, diff, resolution, clock, finished);
    var request := s.MergeRequest(diff, resolution, clock);
    MergeStep(s, b, diff, resolution, clock, finished);
    MergeIsDated(s, b, request);
    SoundStepKeepsInv(s, Apply(s, op), {});
  }

  lemma MergeIsDated(s: State, b: BranchName, request: Request)
    requires Inv(s) && Requested(s, b, request)
    ensures NotAfter(request.Result(s.store).edges, request.clock) && OneCreator(request.Result(s.store).edges) && request.Result(s.store).Valid()
  {
    var after := request.Result(s.store).edges;
    MergedEdges(s.store, s.branches[b], request);
    forall id | id in after && id !in s.store.edges
      ensures after[id].since <= request.clock && after[id].until.None? && after[id].branch == MAIN_BRANCH
    {
      MergeAddsFresh(s, b, request, id);
    }
    CreatorsStay(s.store.edges, after);
  }

  lemma RebaseStep(s: State, b: BranchName)
    requires Inv(s) && Enabled(s, RebaseOnto(b))
    ensures Inv(Apply(s, RebaseOnto(b))) && Gentle(s.store.edges, Apply(s, RebaseOnto(b)).store.edges, s.now, {b})
  {
    RebaseKeepsDiscipline(s.store, b, s.now);
    RebaseIsGentle(s, b);
    SoundStepKeepsInv(s, Apply(s, RebaseOnto(b)), {b});
  }

  lemma RebaseIsGentle(s: State, b: BranchName)
    requires Inv(s) && b in s.branches && b != MAIN_BRANCH
    ensures var after := RebaseStore(s.store, b, s.now).edges;
            && Gentle(s.store.edges, after, s.now, {b}) && HandsOver(s.store.edges, after, s.now) && OneCreator(after)
            && forall id :: id in after ==> EdgeFits(after[id], s.branches)
  {
    var after := RebaseStore(s.store, b, s.now).edges;
    forall id | id in after ensures EdgeFits(after[id], s.branches) {
      assert EdgeFits(s.store.edges[id], s.branches);
    }
    CreatorsStay(s.store.edges, after);
  }

  // ---------- Unsafe steps ----------

  /** Through an outlived edge an update reads that edge, and stretches it over later ones or leaves a live edge open beside its own. */
  lemma StaleUpdateBreaks(s: State, b: BranchName, slot: Slot, dst: VertexId, current: Option<EdgeId>, old_: EdgeId)
    requires Inv(s) && Enabled(s, Update(b, slot, dst, current)) && slot.agnostic && Outlived(s, b, slot, old_)
    ensures current == Some(old_)
    ensures var after := Apply(s, Update(b, slot, dst, current)).store.edges;
            && after[old_].until == Some(s.now) && after[s.store.next].dst == dst && LiveAndOpen(after, slot, s.store.next)
            && (forall o :: LiveAndOpen(s.store.edges, slot, o) ==> LiveAndOpen(after, slot, o) && !Disciplined(after))
            && !(Disciplined(after) && Gentle(s.store.edges, after, s.now, {}))
  {
    var edges, after := s.store.edges, Apply(s, Update(b, slot, dst, current)).store.edges;
    assert EdgeFits(edges[old_], s.branches) && Creator(edges, old_);
    assert current.Some?;
    var cur := current.value;
    assert !Beats(edges[old_], edges[cur]) && EdgeFits(edges[cur], s.branches);
    assert Creator(edges, cur);
    forall o: EdgeId | LiveAndOpen(edges, slot, o) ensures LiveAndOpen(after, slot, o) && !Disciplined(after) {
      assert EdgeFits(edges[o], s.branches);
      assert SameLane(after[o], after[s.store.next]) && !Apart(after[o], after[s.store.next]);
    }
    if edges[old_].until.value < s.now {
      assert !Aged(edges[old_], after[old_], s.now);
    }
  }

  /** Every step keeps the invariant and only ages the edges of the branches it does not rebase, exactly when it is safe. */
  lemma Step(s: State, op: Op)
    requires Inv(s) && Enabled(s, op)
    ensures Safe(s, op) <==> Inv(Apply(s, op)) && Gentle(s.store.edges, Apply(s, op).store.edges, s.now, Rewritten(op))
    ensures s.now <= Apply(s, op).now
  {
    if Safe(s, op) {
      SafeStep(s, op);
    } else {
      UnsafeStep(s, op);
    }
  }

  lemma SafeStep(s: State, op: Op)
    requires Inv(s) && Enabled(s, op) && Safe(s, op)
    ensures Inv(Apply(s, op)) && Gentle(s.store.edges, Apply(s, op).store.edges, s.now, Rewritten(op)) && s.now <= Apply(s, op).now
  {
    match op {
      case Advance(_) => SoundStepKeepsInv(s, Apply(s, op), {});
      case Fork(_, _) => SoundStepKeepsInv(s, Apply(s, op), {});
      case Create(b, slot, dst) => CreateKeepsInv(s, b, slot, dst);
      case Update(b, slot, dst, current) => UpdateKeepsInv(s, b, slot, dst, current);
      case Delete(b, slot, dst, results) => DeleteKeepsInv(s, b, slot, dst, results);
      case RebaseOnto(b) => RebaseStep(s, b);
      case MergeInto(b, diff, resolution, clock, finished) => MergeKeepsInv(s, b, diff, resolution, clock, finished);
    }
  }

  lemma UnsafeStep(s: State, op: Op)
    requires Inv(s) && Enabled(s, op) && !Safe(s, op)
    ensures !(Disciplined(Apply(s, op).store.edges) && Gentle(s.store.edges, Apply(s, op).store.edges, s.now, Rewritten(op)))
  {
    match op {
      case Update(b, slot, dst, current) =>
        var old_ :| Outlived(s, b, slot, old_);
        StaleUpdateBreaks(s, b, slot, dst, current, old_);
      case MergeInto(b, diff, resolution, clock, finished) => UnsafeMerge(s, b, diff, resolution, clock, finished);
    }
  }

  lemma UnsafeMerge(s: State, b: BranchName, diff: seq<Element>, resolution: Resolution, clock: Time, finished: Time)
    requires Inv(s) && Enabled(s, MergeInto(b, diff, resolution, clock, finished)) && !Safe(s, MergeInto(b, diff, resolution, clock, finished))
    ensures var after := Apply(s, MergeInto(b, diff, resolution, clock, finished)).store.edges;
            !(Disciplined(after) && Gentle(s.store.edges, after, s.now, {}))
  {
    var request := s.MergeRequest(diff, resolution, clock);
    MergeClosesAlive(s, b, request);
    if id :| id in request.Closes(|diff|) && id in s.store.edges && !Alive(s.store.edges[id], s.now) {
      StretchingIsNotGentle(s, b, request, id);
    } else {
      MergeKeepsDiscipline(s.store, s.branches[b], request);
    }
  }

  lemma StretchingIsNotGentle(s: State, b: BranchName, request: Request, id: EdgeId)
    requires Inv(s) && Requested(s, b, request)
    requires id in request.Closes(|request.diff|) && id in s.store.edges && !Alive(s.store.edges[id], s.now)
    ensures !Gentle(s.store.edges, request.Result(s.store).edges, s.now, {})
  {
    MergedEdge(s.store, s.branches[b], request, id);
    assert !Aged(s.store.edges[id], request.Result(s.store).edges[id], s.now);
  }

  // ---------- Whole runs ----------

  /** After every run of safe steps the live edges are disciplined, permanent lanes have no gap, and identifiers and times are in order. */
  lemma {:induction false} InvariantOverRuns(s: State, ops: seq<Op>)
    requires Inv(s) && Runs(s, ops)
    ensures Inv(Run(s, ops)) && s.now <= Run(s, ops).now
    decreases |ops|
  {
    if ops != [] {
      Step(s, ops[0]);
      InvariantOverRuns(Apply(s, ops[0]), ops[1..]);
    }
  }

  /** At a time when nothing starts in the slot, a branch shows at most one live edge there, after every run of safe steps. */
  lemma OneValuePerBranch(s: State, ops: seq<Op>, branch: BranchName, t: Time, i: EdgeId, j: EdgeId)
    requires Inv(s) && Runs(s, ops)
    requires var edges := Run(s, ops).store.edges;
             && VisibleOn(edges, branch, t, i) && VisibleOn(edges, branch, t, j) && SameLane(edges[i], edges[j])
             && edges[i].since != t && edges[j].since != t
    ensures i == j
  {
    InvariantOverRuns(s, ops);
    var edges := Run(s, ops).store.edges;
    assert i != j ==> Apart(edges[i], edges[j]);
  }

  /** What a branch shows at time t is the same in both states, edge by edge. */
  ghost predicate SamePast(a: Edges, b: Edges, branch: BranchName, t: Time) {
    forall id :: (VisibleOn(a, branch, t, id) <==> VisibleOn(b, branch, t, id))
                 && (VisibleOn(a, branch, t, id) ==> b[id] == a[id].(until := b[id].until))
  }

  predicate AddedBy(before: Edges, after: Edges, branch: BranchName, t: Time, id: EdgeId) {
    id in after && id !in before && after[id].branch == branch && after[id].since <= t
  }

  lemma PastOfAGentleStep(before: Edges, after: Edges, now: Time, rewritten: set<BranchName>, branch: BranchName, t: Time)
    requires Gentle(before, after, now, rewritten) && branch !in rewritten && t <= now
    ensures SamePast(before, after, branch, t) <==> t < now || forall id :: !AddedBy(before, after, branch, t, id)
  {
    if id :| AddedBy(before, after, branch, t, id) {
      assert VisibleOn(after, branch, t, id) && !VisibleOn(before, branch, t, id);
    }
    forall id | id in before && before[id].branch == branch
      ensures VisibleOn(before, branch, t, id) <==> VisibleOn(after, branch, t, id)
      ensures after[id] == before[id].(until := after[id].until)
    {
      assert Aged(before[id], after[id], now);
    }
    if forall id :: !AddedBy(before, after, branch, t, id) {
      forall id | id !in before ensures !VisibleOn(after, branch, t, id) {
        assert !AddedBy(before, after, branch, t, id);
      }
    }
  }

  lemma SamePastChains(a: Edges, b: Edges, c: Edges, branch: BranchName, t: Time)
    requires SamePast(a, b, branch, t) && SamePast(b, c, branch, t)
    ensures SamePast(a, c, branch, t)
  {
  }

  predicate Rebases(ops: seq<Op>, branch: BranchName) {
    exists i | 0 <= i < |ops| :: ops[i] == RebaseOnto(branch)
  }

  /** Later safe operations never change a past read of a branch that is not rebased. */
  lemma {:induction false} PastReadsAreStable(s: State, ops: seq<Op>, branch: BranchName, t: Time)
    requires Inv(s) && Runs(s, ops) && t < s.now && !Rebases(ops, branch)
    ensures SamePast(s.store.edges, Run(s, ops).store.edges, branch, t)
    decreases |ops|
  {
    if ops != [] {
      var s' := Apply(s, ops[0]);
      Step(s, ops[0]);
      assert branch !in Rewritten(ops[0]);
      assert forall i :: 0 <= i < |ops[1..]| ==> ops[1..][i] == ops[i + 1];
      PastReadsAreStable(s', ops[1..], branch, t);
      PastOfAGentleStep(s.store.edges, s'.store.edges, s.now, Rewritten(ops[0]), branch, t);
      SamePastChains(s.store.edges, s'.store.edges, Run(s, ops).store.edges, branch, t);
    }
  }
}
