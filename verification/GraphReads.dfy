/** What a branch reads in the course of a run: its own writes, the origin through the cut, and the global branch. */
module GraphReads {
  import opened Common
  import opened TemporalGraph
  import opened AttributeWrites
  import opened Rebase
  import opened Merge
  import opened GraphRuns

  // ---------- What was written is read ----------

  /** The edge as it is once it has been closed now, if it was still open. */
  function Ended(e: Edge, now: Time): Edge {
    if e.until.None? then e.(until := Some(now)) else e
  }

  /** The edge that a user branch created keeps deciding the agnostic slot for this branch at time q, although it has ended. */
  ghost predicate Shadows(s: State, b: BranchName, slot: Slot, q: Time, id: EdgeId)
    requires b in s.branches
  {
    Creator(s.store.edges, id) && s.store.edges[id].slot == slot
    && Selected(Ended(s.store.edges[id], s.now), s.branches[b].TimesToQueryGlobal(q))
  }

  /** An edge that starts at this very instant on the branch that takes the slot's writes, and is still seen at time q once the
      edges in `closed` have been closed. */
  ghost predicate Ties(s: State, b: BranchName, slot: Slot, closed: set<EdgeId>, q: Time, id: EdgeId)
    requires b in s.branches
  {
    && id in s.store.edges && s.store.edges[id].slot == slot && !Creator(s.store.edges, id)
    && s.store.edges[id].branch == WriteBranch(slot, s.branches[b]).0 && s.store.edges[id].since == s.now
    && Selected(if id in closed then Ended(s.store.edges[id], s.now) else s.store.edges[id], s.branches[b].TimesToQueryGlobal(q))
  }

  /** An edge that starts now, on the branch that takes the slot's writes, beats every older edge that the branch sees there,
      unless a user branch created that one on the global branch. */
  lemma NewestOwnEdgeWins(s: State, b: BranchName, slot: Slot, e: Edge, ws: seq<Window>, o: Edge)
    requires Inv(s) && b in s.branches && EdgeFits(o, s.branches) && o.slot == e.slot == slot
    requires e.branch == WriteBranch(slot, s.branches[b]).0 && e.level == WriteBranch(slot, s.branches[b]).1 && e.since == s.now
    requires (forall i :: 0 <= i < |ws| ==> ws[i].branches <= {GLOBAL_BRANCH, MAIN_BRANCH, b}) && Selected(o, ws)
    requires o.since <= s.now && (o.branch == GLOBAL_BRANCH ==> o.level <= DEFAULT_LEVEL)
    ensures Beats(e, o) || (o.branch == e.branch && o.since == e.since && o.level == e.level)
  {
    assert o.branch in {GLOBAL_BRANCH, MAIN_BRANCH, b};
  }

  /** Where every candidate is beaten by the edge `n` or its equal, the equals are best edges. */
  lemma EqualsAreTop(edges: Edges, ws: seq<Window>, slot: Slot, n: EdgeId, o: EdgeId)
    requires Candidate(edges, ws, slot, n) && Candidate(edges, ws, slot, o)
    requires edges[o].level == edges[n].level && edges[o].since == edges[n].since
    requires forall p :: Candidate(edges, ws, slot, p) ==> !Beats(edges[p], edges[n])
    ensures Top(edges, ws, slot, o)
  {
  }

  lemma CreatorWins(edges: Edges, ws: seq<Window>, slot: Slot, id: EdgeId)
    requires OneCreator(edges) && Creator(edges, id) && edges[id].slot == slot && Selected(edges[id], ws)
    requires forall o :: o in edges && edges[o].slot == slot ==> edges[o].branch == GLOBAL_BRANCH
    ensures Shows(edges, ws, slot, Some(edges[id].dst))
  {
    forall o | Candidate(edges, ws, slot, o) && o != id ensures Beats(edges[id], edges[o]) {
      assert !Creator(edges, o);
    }
    Decides(edges, ws, slot, id);
  }

  lemma SlotIsGlobal(s: State, slot: Slot)
    requires Inv(s) && slot.agnostic
    ensures forall o :: o in s.store.edges && s.store.edges[o].slot == slot ==> s.store.edges[o].branch == GLOBAL_BRANCH
  {
    forall o | o in s.store.edges && s.store.edges[o].slot == slot ensures s.store.edges[o].branch == GLOBAL_BRANCH {
      assert EdgeFits(s.store.edges[o], s.branches);
    }
  }

  /** After a safe update the creator's edge has ended. */
  lemma CreatorAfterUpdate(s: State, b: BranchName, slot: Slot, dst: VertexId, current: Option<EdgeId>, id: EdgeId)
    requires Inv(s) && Enabled(s, Update(b, slot, dst, current)) && !Stale(s, b, slot)
    requires Creator(s.store.edges, id) && s.store.edges[id].slot == slot
    ensures Apply(s, Update(b, slot, dst, current)).store.edges[id] == Ended(s.store.edges[id], s.now)
  {
    assert EdgeFits(s.store.edges[id], s.branches);
    if s.store.edges[id].until.None? {
      OwnEdgesAreCandidates(s, b, slot, id);
      assert current.Some?;
      assert EdgeFits(s.store.edges[current.value], s.branches) && !Beats(s.store.edges[id], s.store.edges[current.value]);
      assert Creator(s.store.edges, current.value);
    } else if current == Some(id) {
      assert !Outlived(s, b, slot, id);
    }
  }

  /** From an update on, at any time, the branch reads the new value: if an ended edge of a user branch still decides the slot for
      it, exactly when that has the value, and otherwise exactly when every edge that started at the same instant and is still
      seen has it. */
  lemma WriteIsRead(s: State, b: BranchName, slot: Slot, dst: VertexId, current: Option<EdgeId>, q: Time)
    requires Inv(s) && Enabled(s, Update(b, slot, dst, current)) && Safe(s, Update(b, slot, dst, current)) && s.now <= q
    ensures Shows(Apply(s, Update(b, slot, dst, current)).store.edges, s.branches[b].TimesToQueryGlobal(q), slot, Some(dst))
            <==> if exists id :: Shadows(s, b, slot, q, id) then forall id :: Shadows(s, b, slot, q, id) ==> s.store.edges[id].dst == dst
                 else forall id :: Ties(s, b, slot, Ids(current), q, id) ==> Outcome(s.store.edges[id]) == Some(dst)
  {
    if id :| Shadows(s, b, slot, q, id) {
      ShadowedWrite(s, b, slot, dst, current, q, id);
      OnlyShadow(s, b, slot, q, id, dst);
    } else {
      PlainWrite(s, b, slot, dst, current, q);
    }
  }

  lemma ShadowedWrite(s: State, b: BranchName, slot: Slot, dst: VertexId, current: Option<EdgeId>, q: Time, id: EdgeId)
    requires Inv(s) && Enabled(s, Update(b, slot, dst, current)) && Safe(s, Update(b, slot, dst, current))
    requires Shadows(s, b, slot, q, id)
    ensures Shows(Apply(s, Update(b, slot, dst, current)).store.edges, s.branches[b].TimesToQueryGlobal(q), slot, Some(dst))
            <==> s.store.edges[id].dst == dst
  {
    var s', ws := Apply(s, Update(b, slot, dst, current)), s.branches[b].TimesToQueryGlobal(q);
    UpdateKeepsInv(s, b, slot, dst, current);
    assert EdgeFits(s.store.edges[id], s.branches);
    CreatorAfterUpdate(s, b, slot, dst, current, id);
    SlotIsGlobal(s', slot);
    CreatorWins(s'.store.edges, ws, slot, id);
    AnswerIsUnique(s'.store.edges, ws, slot, Some(s.store.edges[id].dst), Some(dst));
  }

  lemma PlainWrite(s: State, b: BranchName, slot: Slot, dst: VertexId, current: Option<EdgeId>, q: Time)
    requires Inv(s) && Enabled(s, Update(b, slot, dst, current)) && Safe(s, Update(b, slot, dst, current)) && s.now <= q
    requires forall id :: !Shadows(s, b, slot, q, id)
    ensures Shows(Apply(s, Update(b, slot, dst, current)).store.edges, s.branches[b].TimesToQueryGlobal(q), slot, Some(dst))
            <==> forall id :: Ties(s, b, slot, Ids(current), q, id) ==> Outcome(s.store.edges[id]) == Some(dst)
  {
    var after, n, ws := Apply(s, Update(b, slot, dst, current)).store.edges, s.store.next, s.branches[b].TimesToQueryGlobal(q);
    assert after[n].slot == slot && after[n].dst == dst && after[n].status == Active && Visible(after[n], ws[|ws| - 1]);
    forall o | Candidate(after, ws, slot, o) && o != n
      ensures o in s.store.edges && Outcome(after[o]) == Outcome(s.store.edges[o]) && !Beats(after[o], after[n])
      ensures Beats(after[n], after[o]) || Ties(s, b, slot, Ids(current), q, o)
    {
      OlderEdgeIsBeaten(s, b, slot, dst, current, q, o);
    }
    if forall id :: Ties(s, b, slot, Ids(current), q, id) ==> Outcome(s.store.edges[id]) == Some(dst) {
      Settles(after, ws, slot, n);
    }
    forall o | Ties(s, b, slot, Ids(current), q, o) ensures Top(after, ws, slot, o) && Outcome(after[o]) == Outcome(s.store.edges[o]) {
      TieAfterUpdate(s, b, slot, dst, current, q, o);
      EqualsAreTop(after, ws, slot, n, o);
    }
  }

  lemma TieAfterUpdate(s: State, b: BranchName, slot: Slot, dst: VertexId, current: Option<EdgeId>, q: Time, o: EdgeId)
    requires Inv(s) && Enabled(s, Update(b, slot, dst, current)) && Ties(s, b, slot, Ids(current), q, o)
    ensures var after := Apply(s, Update(b, slot, dst, current)).store.edges;
            && s.store.next in after && Candidate(after, s.branches[b].TimesToQueryGlobal(q), slot, o) && Outcome(after[o]) == Outcome(s.store.edges[o])
            && after[o].level == after[s.store.next].level && after[o].since == after[s.store.next].since
  {
    assert EdgeFits(s.store.edges[o], s.branches);
  }

  /** An update closes the edge that it replaces, if that is on the same branch. */
  lemma OldEdgeAfterUpdate(s: State, b: BranchName, slot: Slot, dst: VertexId, current: Option<EdgeId>, o: EdgeId)
    requires Inv(s) && Enabled(s, Update(b, slot, dst, current)) && !Stale(s, b, slot) && o in s.store.edges
    ensures var after := Apply(s, Update(b, slot, dst, current)).store.edges;
            && s.store.next in after && o in after
            && after[o] == if o in Ids(current) && s.store.edges[o].branch == WriteBranch(slot, s.branches[b]).0 then Ended(s.store.edges[o], s.now)
                           else s.store.edges[o]
  {
    ReadPicksTheLatest(s, b, slot, current);
  }

  lemma OlderEdgeIsBeaten(s: State, b: BranchName, slot: Slot, dst: VertexId, current: Option<EdgeId>, q: Time, o: EdgeId)
    requires Inv(s) && Enabled(s, Update(b, slot, dst, current)) && Safe(s, Update(b, slot, dst, current))
    requires Candidate(Apply(s, Update(b, slot, dst, current)).store.edges, s.branches[b].TimesToQueryGlobal(q), slot, o)
    requires o in s.store.edges && !Shadows(s, b, slot, q, o)
    ensures var after := Apply(s, Update(b, slot, dst, current)).store.edges;
            && s.store.next in after && !Beats(after[o], after[s.store.next]) && Outcome(after[o]) == Outcome(s.store.edges[o])
            && (Beats(after[s.store.next], after[o]) || Ties(s, b, slot, Ids(current), q, o))
  {
    var after := Apply(s, Update(b, slot, dst, current)).store.edges;
    assert EdgeFits(s.store.edges[o], s.branches);
    if Creator(s.store.edges, o) {
      CreatorAfterUpdate(s, b, slot, dst, current, o);
    } else {
      OldEdgeAfterUpdate(s, b, slot, dst, current, o);
    }
    NewestOwnEdgeWins(s, b, slot, after[s.store.next], s.branches[b].TimesToQueryGlobal(q), after[o]);
  }

  lemma OnlyShadow(s: State, b: BranchName, slot: Slot, q: Time, id: EdgeId, dst: VertexId)
    requires Inv(s) && b in s.branches && Shadows(s, b, slot, q, id)
    ensures s.store.edges[id].dst == dst <==> forall o :: Shadows(s, b, slot, q, o) ==> s.store.edges[o].dst == dst
  {
    assert forall o :: Shadows(s, b, slot, q, o) ==> o == id;
  }

  /** The creator's edge, ended if it is among the deleted results, is still seen by the branch at time q. */
  ghost predicate Survives(s: State, b: BranchName, hit: Slot, results: seq<EdgeId>, q: Time, id: EdgeId)
    requires b in s.branches
  {
    Creator(s.store.edges, id) && s.store.edges[id].slot == hit
    && Selected(if id in results then Ended(s.store.edges[id], s.now) else s.store.edges[id], s.branches[b].TimesToQueryGlobal(q))
  }

  /** The edges that the deletion closes. */
  ghost function Closed(s: State, b: BranchName, slot: Slot, results: seq<EdgeId>): set<EdgeId>
    requires b in s.branches
  {
    Mine(s.store, results, WriteBranch(slot, s.branches[b]).0)
  }

  lemma OldEdgeAfterDeletion(s: State, b: BranchName, slot: Slot, dst: VertexId, results: seq<EdgeId>, o: EdgeId)
    requires Inv(s) && Enabled(s, Delete(b, slot, dst, results)) && results != [] && o in s.store.edges
    ensures o in Apply(s, Delete(b, slot, dst, results)).store.edges
    ensures var e := Apply(s, Delete(b, slot, dst, results)).store.edges[o];
            e == if o in Closed(s, b, slot, results) then Ended(s.store.edges[o], s.now) else s.store.edges[o]
  {
    OwnResultsAreAlive(s, b, slot, dst, results);
    DeletedEdgeStays(s.store, DeletedEdge(s, b, slot, dst), results, s.now, o);
    if o in Closed(s, b, slot, results) {
      AliveEnds(s, o);
    }
  }

  lemma AliveEnds(s: State, id: EdgeId)
    requires Inv(s) && id in s.store.edges && Alive(s.store.edges[id], s.now)
    ensures s.store.edges[id].(until := Some(s.now)) == Ended(s.store.edges[id], s.now)
  {
  }

  lemma DeletedEdgeStays(s: Store, attribute: Edge, results: seq<EdgeId>, at: Time, o: EdgeId)
    requires s.Valid() && results != [] && (forall i :: 0 <= i < |results| ==> results[i] in s.edges) && o in s.edges
    ensures var after := DeleteProperties(s, attribute, results, at).edges;
            o in after && after[o] == if o in Mine(s, results, attribute.branch) then s.edges[o].(until := Some(at)) else s.edges[o]
  {
  }

  /** The deletion left this marker in the slot. */
  ghost predicate Marked(s: State, b: BranchName, slot: Slot, dst: VertexId, results: seq<EdgeId>, hit: Slot, n: EdgeId)
    requires Enabled(s, Delete(b, slot, dst, results))
  {
    var after := Apply(s, Delete(b, slot, dst, results)).store.edges;
    && n in after && n !in s.store.edges && after[n].slot == hit && hit.agnostic == slot.agnostic && after[n].status == Deleted
    && after[n].since == s.now && after[n].until.None?
    && after[n].branch == WriteBranch(slot, s.branches[b]).0 && after[n].level == WriteBranch(slot, s.branches[b]).1
  }

  /** From a deletion on, at any time, the branch reads nothing in the slots of the results, exactly when no edge of a user branch
      still decides the slot for it, and every edge that started at the same instant and is still seen is a deletion too. */
  lemma DeletionIsRead(s: State, b: BranchName, slot: Slot, dst: VertexId, results: seq<EdgeId>, id: EdgeId, q: Time)
    requires Inv(s) && Enabled(s, Delete(b, slot, dst, results)) && id in results && s.now <= q
    ensures Shows(Apply(s, Delete(b, slot, dst, results)).store.edges, s.branches[b].TimesToQueryGlobal(q), s.store.edges[id].slot, None)
            <==> && (forall o :: !Survives(s, b, s.store.edges[id].slot, results, q, o))
                 && (forall o :: Ties(s, b, s.store.edges[id].slot, Closed(s, b, slot, results), q, o) ==> s.store.edges[o].status == Deleted)
  {
    var n := MarkerStays(s, b, slot, dst, results, id);
    MarkedSlotIsRead(s, b, slot, dst, results, s.store.edges[id].slot, n, q);
  }

  /** The attribute itself is gone from its node under the same condition, in its own slot: its edges there are left open, and the
      deleted edge that is added hides them. */
  lemma AttributeDeletionIsRead(s: State, b: BranchName, slot: Slot, dst: VertexId, results: seq<EdgeId>, q: Time)
    requires Inv(s) && Enabled(s, Delete(b, slot, dst, results)) && results != [] && s.now <= q
    ensures Shows(Apply(s, Delete(b, slot, dst, results)).store.edges, s.branches[b].TimesToQueryGlobal(q), slot, None)
            <==> && (forall o :: !Survives(s, b, slot, results, q, o))
                 && (forall o :: Ties(s, b, slot, Closed(s, b, slot, results), q, o) ==> s.store.edges[o].status == Deleted)
  {
    AttributeIsMarked(s, b, slot, dst, results);
    MarkedSlotIsRead(s, b, slot, dst, results, slot, s.store.next + |results|, q);
  }

  lemma AttributeIsMarked(s: State, b: BranchName, slot: Slot, dst: VertexId, results: seq<EdgeId>)
    requires Inv(s) && Enabled(s, Delete(b, slot, dst, results)) && results != []
    ensures Marked(s, b, slot, dst, results, slot, s.store.next + |results|)
  {
    DeletedGraph(s.store, DeletedEdge(s, b, slot, dst), results, s.now);
  }

  /** In all other slots everything is read as before, through any windows. */
  lemma DeletionLeavesTheRest(s: State, b: BranchName, slot: Slot, dst: VertexId, results: seq<EdgeId>, other: Slot, ws: seq<Window>, v: Option<VertexId>)
    requires Inv(s) && Enabled(s, Delete(b, slot, dst, results)) && other != slot && forall id :: id in results ==> s.store.edges[id].slot != other
    ensures Shows(Apply(s, Delete(b, slot, dst, results)).store.edges, ws, other, v) <==> Shows(s.store.edges, ws, other, v)
  {
    DeletionStaysInItsSlots(s.store, DeletedEdge(s, b, slot, dst), results, s.now, other);
    SameSlotShows(s.store.edges, Apply(s, Delete(b, slot, dst, results)).store.edges, other, ws, v);
  }

  lemma MarkedSlotIsRead(s: State, b: BranchName, slot: Slot, dst: VertexId, results: seq<EdgeId>, hit: Slot, n: EdgeId, q: Time)
    requires Inv(s) && Enabled(s, Delete(b, slot, dst, results)) && results != [] && Marked(s, b, slot, dst, results, hit, n) && s.now <= q
    ensures Shows(Apply(s, Delete(b, slot, dst, results)).store.edges, s.branches[b].TimesToQueryGlobal(q), hit, None)
            <==> && (forall o :: !Survives(s, b, hit, results, q, o))
                 && (forall o :: Ties(s, b, hit, Closed(s, b, slot, results), q, o) ==> s.store.edges[o].status == Deleted)
  {
    if o :| Survives(s, b, hit, results, q, o) {
      SurvivorIsRead(s, b, slot, dst, results, hit, q, o);
    } else {
      PlainDeletion(s, b, slot, dst, results, hit, n, q);
    }
  }

  lemma SurvivorIsRead(s: State, b: BranchName, slot: Slot, dst: VertexId, results: seq<EdgeId>, hit: Slot, q: Time, o: EdgeId)
    requires Inv(s) && Enabled(s, Delete(b, slot, dst, results)) && results != [] && hit.agnostic == slot.agnostic
    requires Survives(s, b, hit, results, q, o)
    ensures !Shows(Apply(s, Delete(b, slot, dst, results)).store.edges, s.branches[b].TimesToQueryGlobal(q), hit, None)
  {
    var s', ws := Apply(s, Delete(b, slot, dst, results)), s.branches[b].TimesToQueryGlobal(q);
    DeleteKeepsInv(s, b, slot, dst, results);
    assert EdgeFits(s.store.edges[o], s.branches);
    OldEdgeAfterDeletion(s, b, slot, dst, results, o);
    SlotIsGlobal(s', hit);
    CreatorWins(s'.store.edges, ws, hit, o);
    AnswerIsUnique(s'.store.edges, ws, hit, Some(s.store.edges[o].dst), None);
  }

  lemma PlainDeletion(s: State, b: BranchName, slot: Slot, dst: VertexId, results: seq<EdgeId>, hit: Slot, n: EdgeId, q: Time)
    requires Inv(s) && Enabled(s, Delete(b, slot, dst, results)) && results != [] && Marked(s, b, slot, dst, results, hit, n) && s.now <= q
    requires forall o :: !Survives(s, b, hit, results, q, o)
    ensures Shows(Apply(s, Delete(b, slot, dst, results)).store.edges, s.branches[b].TimesToQueryGlobal(q), hit, None)
            <==> forall o :: Ties(s, b, hit, Closed(s, b, slot, results), q, o) ==> s.store.edges[o].status == Deleted
  {
    var after, ws := Apply(s, Delete(b, slot, dst, results)).store.edges, s.branches[b].TimesToQueryGlobal(q);
    assert Visible(after[n], ws[|ws| - 1]);
    forall o | Candidate(after, ws, hit, o)
      ensures !Beats(after[o], after[n])
      ensures Beats(after[n], after[o]) || after[o].status == Deleted || Ties(s, b, hit, Closed(s, b, slot, results), q, o)
      ensures o in s.store.edges ==> after[o].status == s.store.edges[o].status
    {
      AfterDeletion(s, b, slot, dst, results, hit, q, n, o);
    }
    forall o | Ties(s, b, hit, Closed(s, b, slot, results), q, o) ensures Top(after, ws, hit, o) && after[o].status == s.store.edges[o].status {
      TieAfterDeletion(s, b, slot, dst, results, hit, q, o);
      EqualsAreTop(after, ws, hit, n, o);
    }
  }

  lemma TieAfterDeletion(s: State, b: BranchName, slot: Slot, dst: VertexId, results: seq<EdgeId>, hit: Slot, q: Time, o: EdgeId)
    requires Inv(s) && Enabled(s, Delete(b, slot, dst, results)) && results != [] && hit.agnostic == slot.agnostic
    requires Ties(s, b, hit, Closed(s, b, slot, results), q, o)
    ensures var after := Apply(s, Delete(b, slot, dst, results)).store.edges;
            && Candidate(after, s.branches[b].TimesToQueryGlobal(q), hit, o) && after[o].status == s.store.edges[o].status
            && after[o].level == WriteBranch(slot, s.branches[b]).1 && after[o].since == s.now
  {
    OldEdgeAfterDeletion(s, b, slot, dst, results, o);
    assert EdgeFits(s.store.edges[o], s.branches);
  }

  lemma AfterDeletion(s: State, b: BranchName, slot: Slot, dst: VertexId, results: seq<EdgeId>, hit: Slot, q: Time, n: EdgeId, o: EdgeId)
    requires Inv(s) && Enabled(s, Delete(b, slot, dst, results)) && results != [] && Marked(s, b, slot, dst, results, hit, n)
    requires !Survives(s, b, hit, results, q, o)
    requires Candidate(Apply(s, Delete(b, slot, dst, results)).store.edges, s.branches[b].TimesToQueryGlobal(q), hit, o)
    ensures var after := Apply(s, Delete(b, slot, dst, results)).store.edges;
            && !Beats(after[o], after[n]) && (o in s.store.edges ==> after[o].status == s.store.edges[o].status)
            && (Beats(after[n], after[o]) || after[o].status == Deleted || Ties(s, b, hit, Closed(s, b, slot, results), q, o))
  {
    var after := Apply(s, Delete(b, slot, dst, results)).store.edges;
    if o in s.store.edges {
      OldEdgeAfterDeletion(s, b, slot, dst, results, o);
      assert EdgeFits(s.store.edges[o], s.branches);
      NewestOwnEdgeWins(s, b, hit, after[n], s.branches[b].TimesToQueryGlobal(q), after[o]);
    } else {
      MarkersAreFresh(s, b, slot, dst, results, o);
      DeleteKeepsInv(s, b, slot, dst, results);
    }
  }

  // ---------- Reading through the cut ----------

  /** Snapshot isolation: whatever happens after an isolated branch was cut, the origin edges that its filter selects,
      for any query time, stay the same. */
  lemma SnapshotIsolation(s: State, ops: seq<Op>, b: BranchInfo, at: Time)
    requires Inv(s) && Runs(s, ops) && b.isIsolated && !b.isDefault && b.branchedFrom < s.now && !Rebases(ops, b.origin)
    ensures SamePast(s.store.edges, Run(s, ops).store.edges, b.origin, b.OriginTime(at))
  {
    PastReadsAreStable(s, ops, b.origin, b.OriginTime(at));
  }

  /** The step adds an edge on the branch that has started by this time. */
  ghost predicate AddsBy(s: State, op: Op, branch: BranchName, t: Time)
    requires Enabled(s, op)
  {
    exists id :: AddedBy(s.store.edges, Apply(s, op).store.edges, branch, t, id)
  }

  /** The bound is inclusive: a step leaves what an isolated branch selects of its origin as it is exactly when the cut lies
      before now, or the step adds no origin edge that has started by the time of the cut. */
  lemma CutIsExact(s: State, op: Op, b: BranchInfo, at: Time)
    requires Inv(s) && Enabled(s, op) && Safe(s, op) && b.isIsolated && !b.isDefault && b.branchedFrom <= s.now && b.origin !in Rewritten(op)
    ensures SamePast(s.store.edges, Apply(s, op).store.edges, b.origin, b.OriginTime(at))
            <==> b.OriginTime(at) < s.now || !AddsBy(s, op, b.origin, b.OriginTime(at))
  {
    Step(s, op);
    PastOfAGentleStep(s.store.edges, Apply(s, op).store.edges, s.now, Rewritten(op), b.origin, b.OriginTime(at));
  }

  /** In particular, an update on the origin at the very time of the cut is still seen by the branch. */
  lemma WriteAtTheCutIsSeen(s: State, b: BranchInfo, slot: Slot, dst: VertexId, current: Option<EdgeId>, at: Time)
    requires Inv(s) && b.isIsolated && b.branchedFrom == s.now <= at && !slot.agnostic
    requires Enabled(s, Update(MAIN_BRANCH, slot, dst, current))
    ensures !SamePast(s.store.edges, Apply(s, Update(MAIN_BRANCH, slot, dst, current)).store.edges, MAIN_BRANCH, b.OriginTime(at))
  {
    var after := Apply(s, Update(MAIN_BRANCH, slot, dst, current)).store.edges;
    assert VisibleOn(after, MAIN_BRANCH, b.OriginTime(at), s.store.next);
    assert !VisibleOn(s.store.edges, MAIN_BRANCH, b.OriginTime(at), s.store.next);
  }

  /** The operation names this branch, or writes to the global branch. */
  predicate Concerns(op: Op, branch: BranchName) {
    match op
    case Advance(_) => false
    case Fork(name, _) => name == branch
    case Create(b, slot, _) => b == branch
    case Update(b, slot, _, _) => b == branch
    case Delete(b, _, _, _) => b == branch
    case RebaseOnto(b) => b == branch
    case MergeInto(b, _, _, _, _) => b == branch
  }

  predicate OnBranch(edges: Edges, branch: BranchName, id: EdgeId) {
    id in edges && edges[id].branch == branch
  }

  /** The edges of the branch are the same, one by one. */
  ghost predicate SameOn(before: Edges, after: Edges, branch: BranchName) {
    && (forall id :: OnBranch(before, branch, id) <==> OnBranch(after, branch, id))
    && (forall id :: OnBranch(before, branch, id) ==> after[id] == before[id])
  }

  lemma OtherBranchesUntouched(s: State, op: Op, branch: BranchName)
    requires Inv(s) && Enabled(s, op) && !Concerns(op, branch) && !Permanent(branch)
    ensures SameOn(s.store.edges, Apply(s, op).store.edges, branch)
    ensures branch in s.branches <==> branch in Apply(s, op).branches
    ensures branch in s.branches ==> Apply(s, op).branches[branch] == s.branches[branch]
  {
    match op {
      case Delete(b, slot, dst, results) => DeleteStaysOnBranch(s, b, slot, dst, results, branch);
      case MergeInto(b, diff, resolution, clock, finished) =>
        MergeStaysOnBranches(s, b, s.MergeRequest(diff, resolution, clock), branch);
      case Update(b, slot, dst, current) => WriteStaysOnBranch(s.store, slot, dst, s.branches[b], s.now, current, branch);
      case _ =>
    }
  }

  lemma WriteStaysOnBranch(s: Store, slot: Slot, dst: VertexId, info: BranchInfo, at: Time, current: Option<EdgeId>, branch: BranchName)
    requires s.Valid() && branch != info.name && branch != GLOBAL_BRANCH && (current.Some? ==> current.value in s.edges)
    ensures SameOn(s.edges, WriteValue(s, slot, dst, info, at, current).edges, branch)
  {
  }

  lemma DeleteStaysOnBranch(s: State, b: BranchName, slot: Slot, dst: VertexId, results: seq<EdgeId>, branch: BranchName)
    requires Inv(s) && Enabled(s, Delete(b, slot, dst, results)) && branch != b && !Permanent(branch)
    ensures SameOn(s.store.edges, Apply(s, Delete(b, slot, dst, results)).store.edges, branch)
  {
  }

  lemma MergeStaysOnBranches(s: State, b: BranchName, request: Request, branch: BranchName)
    requires Inv(s) && Requested(s, b, request) && branch != b && !Permanent(branch)
    ensures SameOn(s.store.edges, request.Result(s.store).edges, branch)
  {
    var after := request.Result(s.store).edges;
    forall id | id in after
      ensures OnBranch(s.store.edges, branch, id) <==> OnBranch(after, branch, id)
      ensures OnBranch(s.store.edges, branch, id) ==> after[id] == s.store.edges[id]
    {
      if id in s.store.edges {
        MergedEdge(s.store, s.branches[b], request, id);
        if id in request.Closes(|request.diff|) {
          var k := ClosesOldEdges(s.store, s.branches[b], request, id);
        }
      } else {
        MergeAddsFresh(s, b, request, id);
      }
    }
    MergedEdges(s.store, s.branches[b], request);
  }

  /** While others work, an isolated branch reads every branch-aware slot as it did right after the cut, at any query time. */
  lemma {:induction false} IsolatedReadsAreStable(s: State, ops: seq<Op>, b: BranchName, slot: Slot, at: Time, v: Option<VertexId>)
    requires Inv(s) && Runs(s, ops) && b in s.branches && b != MAIN_BRANCH && !slot.agnostic
    requires s.branches[b].isIsolated && s.branches[b].branchedFrom < s.now
    requires forall i :: 0 <= i < |ops| ==> !Concerns(ops[i], b)
    ensures b in Run(s, ops).branches && Run(s, ops).branches[b] == s.branches[b]
    ensures var ws := s.branches[b].TimesToQueryGlobal(at);
            Shows(s.store.edges, ws, slot, v) <==> Shows(Run(s, ops).store.edges, ws, slot, v)
    decreases |ops|
  {
    if ops != [] {
      var s' := Apply(s, ops[0]);
      Step(s, ops[0]);
      OtherBranchesUntouched(s, ops[0], b);
      IsolatedReadsAreStable(s', ops[1..], b, slot, at, v);
      IsolatedStep(s, ops[0], b, slot, at, v);
    }
  }

  lemma IsolatedStep(s: State, op: Op, b: BranchName, slot: Slot, at: Time, v: Option<VertexId>)
    requires Inv(s) && Enabled(s, op) && Safe(s, op) && b in s.branches && b != MAIN_BRANCH && !slot.agnostic
    requires s.branches[b].isIsolated && s.branches[b].branchedFrom < s.now && !Concerns(op, b)
    ensures var ws := s.branches[b].TimesToQueryGlobal(at);
            Shows(s.store.edges, ws, slot, v) <==> Shows(Apply(s, op).store.edges, ws, slot, v)
  {
    var info, before, after := s.branches[b], s.store.edges, Apply(s, op).store.edges;
    var ws, w := info.TimesToQueryGlobal(at), info.OriginTime(at);
    Step(s, op);
    OtherBranchesUntouched(s, op, b);
    assert Runs(Apply(s, op), []);
    assert Run(s, [op]) == Apply(s, op) && Runs(s, [op]) by {
      assert [op][1..] == [];
    }
    SnapshotIsolation(s, [op], info, at);
    assert ws[0] == Window({GLOBAL_BRANCH, MAIN_BRANCH}, w) && ws[1] == Window({GLOBAL_BRANCH, b}, at);
    forall id
      ensures Candidate(before, ws, slot, id) <==> Candidate(after, ws, slot, id)
      ensures Candidate(before, ws, slot, id) ==> after[id] == before[id].(until := after[id].until)
    {
      SelectedByTwo(s, before, b, slot, at, id);
      SelectedByTwo(Apply(s, op), after, b, slot, at, id);
      assert VisibleOn(before, MAIN_BRANCH, w, id) <==> VisibleOn(after, MAIN_BRANCH, w, id);
      assert OnBranch(before, b, id) <==> OnBranch(after, b, id);
    }
    SameCandidatesSameAnswer(before, ws, after, ws, slot, v);
  }

  lemma SelectedByTwo(s: State, edges: Edges, b: BranchName, slot: Slot, at: Time, id: EdgeId)
    requires Inv(s) && edges == s.store.edges && b in s.branches && b != MAIN_BRANCH && !slot.agnostic
    ensures Candidate(edges, s.branches[b].TimesToQueryGlobal(at), slot, id) <==>
            id in edges && edges[id].slot == slot
            && (VisibleOn(edges, MAIN_BRANCH, s.branches[b].OriginTime(at), id) || VisibleOn(edges, b, at, id))
  {
    var ws := s.branches[b].TimesToQueryGlobal(at);
    assert ws == [Window({GLOBAL_BRANCH, MAIN_BRANCH}, s.branches[b].OriginTime(at)), Window({GLOBAL_BRANCH, b}, at)];
    if id in edges {
      assert EdgeFits(edges[id], s.branches);
      assert Selected(edges[id], ws) <==> Visible(edges[id], ws[0]) || Visible(edges[id], ws[1]);
    }
  }

  // ---------- Reading without isolation ----------

  /** A read without isolation sees a branch-aware slot as the default branch does, if the branch has no edge of its own there. */
  lemma OpenReadFollowsOrigin(s: State, ops: seq<Op>, b: BranchName, slot: Slot, q: Time, isolated: bool, v: Option<VertexId>)
    requires Inv(s) && Runs(s, ops) && b in Run(s, ops).branches && b != MAIN_BRANCH && !slot.agnostic
    requires !isolated || !Run(s, ops).branches[b].isIsolated
    requires forall id :: OnBranch(Run(s, ops).store.edges, b, id) ==> Run(s, ops).store.edges[id].slot != slot
    ensures Shows(Run(s, ops).store.edges, Run(s, ops).branches[b].TimesToQueryGlobal(q, isolated), slot, v)
            <==> Shows(Run(s, ops).store.edges, MAIN.TimesToQueryGlobal(q), slot, v)
  {
    InvariantOverRuns(s, ops);
    OpenReadIsTheOrigins(Run(s, ops), b, slot, q, isolated, v);
  }

  lemma OpenReadIsTheOrigins(s: State, b: BranchName, slot: Slot, q: Time, isolated: bool, v: Option<VertexId>)
    requires Inv(s) && b in s.branches && b != MAIN_BRANCH && !slot.agnostic && (!isolated || !s.branches[b].isIsolated)
    requires forall id :: OnBranch(s.store.edges, b, id) ==> s.store.edges[id].slot != slot
    ensures Shows(s.store.edges, s.branches[b].TimesToQueryGlobal(q, isolated), slot, v) <==> Shows(s.store.edges, MAIN.TimesToQueryGlobal(q), slot, v)
  {
    var edges, ws, open := s.store.edges, MAIN.TimesToQueryGlobal(q), s.branches[b].TimesToQueryGlobal(q, isolated);
    forall id ensures Candidate(edges, open, slot, id) <==> Candidate(edges, ws, slot, id) {
      if id in edges && edges[id].slot == slot {
        assert EdgeFits(edges[id], s.branches) && !OnBranch(edges, b, id);
        SeenThroughWindows(s.branches[b], q, isolated, edges[id]);
        SeenThroughWindows(MAIN, q, true, edges[id]);
      }
    }
    SameCandidatesSameAnswer(edges, open, edges, ws, slot, v);
  }

  lemma NoShadowOutsideGlobal(s: State, b: BranchName, slot: Slot, q: Time, id: EdgeId)
    requires Inv(s) && b in s.branches && !slot.agnostic
    ensures !Shadows(s, b, slot, q, id)
  {
    if id in s.store.edges {
      assert EdgeFits(s.store.edges[id], s.branches);
    }
  }

  /** So it sees every later write of the default branch, whenever the branch was cut, just as the default branch itself does. */
  lemma LaterWriteIsSeenOpenly(s: State, b: BranchName, slot: Slot, dst: VertexId, current: Option<EdgeId>, q: Time)
    requires Inv(s) && b in s.branches && b != MAIN_BRANCH && !slot.agnostic && s.now <= q
    requires forall id :: OnBranch(s.store.edges, b, id) ==> s.store.edges[id].slot != slot
    requires Enabled(s, Update(MAIN_BRANCH, slot, dst, current)) && Safe(s, Update(MAIN_BRANCH, slot, dst, current))
    ensures Shows(Apply(s, Update(MAIN_BRANCH, slot, dst, current)).store.edges, s.branches[b].TimesToQueryGlobal(q, false), slot, Some(dst))
            <==> forall id :: Ties(s, MAIN_BRANCH, slot, Ids(current), q, id) ==> Outcome(s.store.edges[id]) == Some(dst)
  {
    var op := Update(MAIN_BRANCH, slot, dst, current);
    SafeStep(s, op);
    OtherBranchesUntouched(s, op, b);
    forall id ensures !Shadows(s, MAIN_BRANCH, slot, q, id) {
      NoShadowOutsideGlobal(s, MAIN_BRANCH, slot, q, id);
    }
    WriteIsRead(s, MAIN_BRANCH, slot, dst, current, q);
    forall id | OnBranch(Apply(s, op).store.edges, b, id) ensures Apply(s, op).store.edges[id].slot != slot {
      assert OnBranch(s.store.edges, b, id);
    }
    OpenReadIsTheOrigins(Apply(s, op), b, slot, q, false, Some(dst));
  }

  // ---------- Reading the global branch ----------

  /** The edge is seen through the cut at time w although it has ended before the query time, and nothing beats it: a user branch
      created it, or it was opened and closed at the very time of the cut and nothing of the slot has started since. */
  ghost predicate Lingers(edges: Edges, slot: Slot, w: Time, at: Time, id: EdgeId) {
    && id in edges && edges[id].slot == slot && Alive(edges[id], w) && !Alive(edges[id], at)
    && (edges[id].level > DEFAULT_LEVEL || (edges[id].since == w && edges[id].until == Some(w) && NothingSince(edges, slot, w, at)))
  }

  ghost predicate NothingSince(edges: Edges, slot: Slot, w: Time, at: Time) {
    forall o :: o in edges && edges[o].slot == slot && (Alive(edges[o], w) || Alive(edges[o], at)) ==>
      edges[o].level <= DEFAULT_LEVEL && edges[o].since <= w
  }

  lemma GlobalCandidates(s: State, b: BranchName, slot: Slot, at: Time)
    requires Inv(s) && b in s.branches && b != MAIN_BRANCH && slot.agnostic
    ensures var edges, w := s.store.edges, s.branches[b].OriginTime(at);
            && w <= at
            && (forall id :: Candidate(edges, [Window({GLOBAL_BRANCH}, at)], slot, id) <==> id in edges && edges[id].slot == slot && Alive(edges[id], at))
            && (forall id :: Candidate(edges, s.branches[b].TimesToQueryGlobal(at), slot, id) <==>
                  id in edges && edges[id].slot == slot && (Alive(edges[id], at) || Alive(edges[id], w)))
            && (forall id :: id in edges && edges[id].slot == slot && edges[id].level > DEFAULT_LEVEL ==> Creator(edges, id))
  {
    var edges, w := s.store.edges, s.branches[b].OriginTime(at);
    var ws, now := s.branches[b].TimesToQueryGlobal(at), [Window({GLOBAL_BRANCH}, at)];
    assert ws == [Window({GLOBAL_BRANCH, MAIN_BRANCH}, w), Window({GLOBAL_BRANCH, b}, at)];
    forall id | id in edges && edges[id].slot == slot
      ensures Selected(edges[id], ws) <==> Alive(edges[id], at) || Alive(edges[id], w)
      ensures Selected(edges[id], now) <==> Alive(edges[id], at)
      ensures edges[id].level > DEFAULT_LEVEL ==> Creator(edges, id)
    {
      assert EdgeFits(edges[id], s.branches);
      assert Selected(edges[id], ws) <==> Visible(edges[id], ws[0]) || Visible(edges[id], ws[1]);
      assert Selected(edges[id], now) <==> Visible(edges[id], now[0]);
    }
  }

  /** The ended edges among the best that the branch sees are the lingering ones. */
  lemma LingeringIsTop(s: State, b: BranchName, slot: Slot, at: Time, id: EdgeId)
    requires Inv(s) && b in s.branches && b != MAIN_BRANCH && slot.agnostic
    ensures Lingers(s.store.edges, slot, s.branches[b].OriginTime(at), at, id) <==>
            Top(s.store.edges, s.branches[b].TimesToQueryGlobal(at), slot, id) && !Alive(s.store.edges[id], at)
  {
    var edges, w, ws := s.store.edges, s.branches[b].OriginTime(at), s.branches[b].TimesToQueryGlobal(at);
    GlobalCandidates(s, b, slot, at);
    if Lingers(edges, slot, w, at, id) {
      forall o: EdgeId | Candidate(edges, ws, slot, o) ensures !Beats(edges[o], edges[id]) {
        if edges[o].level > DEFAULT_LEVEL {
          assert Creator(edges, o);
        }
      }
    } else if Top(edges, ws, slot, id) && !Alive(edges[id], at) {
      assert EdgeFits(edges[id], s.branches) && Succeeded(edges, edges[id], at);
      var n :| n in edges && edges[n].slot == slot && edges[n].branch == GLOBAL_BRANCH && edges[id].until.value <= edges[n].since && Alive(edges[n], at);
      assert Candidate(edges, ws, slot, n) && !Beats(edges[n], edges[id]) && EdgeFits(edges[n], s.branches);
      forall o | o in edges && edges[o].slot == slot && (Alive(edges[o], w) || Alive(edges[o], at))
        ensures edges[o].level <= DEFAULT_LEVEL && edges[o].since <= w
      {
        assert Candidate(edges, ws, slot, o) && !Beats(edges[o], edges[id]);
      }
    }
  }

  /** Global edges are read through two windows. Where the global branch reads as v at the query time, the branch does too
      exactly when every edge that lingers at the cut has the value v. */
  lemma GlobalReadIsExact(s: State, b: BranchName, slot: Slot, at: Time, v: Option<VertexId>)
    requires Inv(s) && b in s.branches && b != MAIN_BRANCH && slot.agnostic
    requires Shows(s.store.edges, [Window({GLOBAL_BRANCH}, at)], slot, v)
    ensures Shows(s.store.edges, s.branches[b].TimesToQueryGlobal(at), slot, v) <==>
            forall id :: Lingers(s.store.edges, slot, s.branches[b].OriginTime(at), at, id) ==> Outcome(s.store.edges[id]) == v
  {
    var edges, w, ws, now := s.store.edges, s.branches[b].OriginTime(at), s.branches[b].TimesToQueryGlobal(at), [Window({GLOBAL_BRANCH}, at)];
    GlobalCandidates(s, b, slot, at);
    forall id ensures Lingers(edges, slot, w, at, id) <==> Top(edges, ws, slot, id) && !Alive(edges[id], at) {
      LingeringIsTop(s, b, slot, at, id);
    }
    if forall id :: Lingers(edges, slot, w, at, id) ==> Outcome(edges[id]) == v {
      forall id | Top(edges, ws, slot, id) ensures Outcome(edges[id]) == v {
        if Alive(edges[id], at) {
          assert Top(edges, now, slot, id);
        }
      }
      if v.Some? {
        var id :| Top(edges, now, slot, id);
        var best := TopExists(edges, ws, slot, id);
      }
    }
  }

  /** Unless something lingers at the cut, the branch reads the slot exactly as the global branch does at the query time. */
  lemma GlobalReadIsCurrent(s: State, b: BranchName, slot: Slot, at: Time, v: Option<VertexId>)
    requires Inv(s) && b in s.branches && b != MAIN_BRANCH && slot.agnostic
    requires forall id :: !Lingers(s.store.edges, slot, s.branches[b].OriginTime(at), at, id)
    ensures Shows(s.store.edges, s.branches[b].TimesToQueryGlobal(at), slot, v)
            <==> Shows(s.store.edges, [Window({GLOBAL_BRANCH}, at)], slot, v)
  {
    var edges, ws, now := s.store.edges, s.branches[b].TimesToQueryGlobal(at), [Window({GLOBAL_BRANCH}, at)];
    GlobalCandidates(s, b, slot, at);
    forall id
      ensures Top(edges, ws, slot, id) <==> Top(edges, now, slot, id)
    {
      LingeringIsTop(s, b, slot, at, id);
      if Top(edges, now, slot, id) {
        var best := TopExists(edges, ws, slot, id);
        LingeringIsTop(s, b, slot, at, best);
        assert Candidate(edges, now, slot, best) && !Beats(edges[best], edges[id]) && !Beats(edges[id], edges[best]);
        forall o | Candidate(edges, ws, slot, o) ensures !Beats(edges[o], edges[id]) {
          assert !Beats(edges[o], edges[best]);
        }
      }
    }
  }

  // ---------- A stale value ----------

  /** The operations after which a branch reads a stale value: a user branch creates an agnostic value, an isolated branch is
      cut, and the default branch updates the value. */
  function StaleRun(a: BranchName, b: BranchName, slot: Slot, first: VertexId, second: VertexId, id: EdgeId, cut: Time, updated: Time): seq<Op> {
    [Create(a, slot, first), Advance(cut), Fork(b, true), Advance(updated), Update(MAIN_BRANCH, slot, second, Some(id))]
  }

  lemma RunsOn(s: State, op: Op, rest: seq<Op>)
    requires Enabled(s, op) && Safe(s, op) && Runs(Apply(s, op), rest)
    ensures Runs(s, [op] + rest) && Run(s, [op] + rest) == Run(Apply(s, op), rest)
  {
    assert ([op] + rest)[1..] == rest;
  }

  /** The state before the update of the stale run. */
  function BeforeUpdate(s: State, b: BranchName, slot: Slot, first: VertexId, cut: Time, updated: Time): State {
    State(AddEdge(s.store, Edge(slot, first, GLOBAL_BRANCH, USER_LEVEL, s.now, None, Active, None)),
          s.branches[b := BranchInfo(b, MAIN_BRANCH, cut, USER_LEVEL, false, true)], updated)
  }

  lemma UpToTheUpdate(s: State, a: BranchName, b: BranchName, slot: Slot, first: VertexId, cut: Time, updated: Time, last: Op)
    requires BranchesFit(s) && slot.agnostic && (forall id :: id in s.store.edges ==> s.store.edges[id].slot != slot)
    requires a in s.branches && a != MAIN_BRANCH && b !in s.branches && b != GLOBAL_BRANCH && s.now < cut < updated
    requires var s4 := BeforeUpdate(s, b, slot, first, cut, updated); Enabled(s4, last) && Safe(s4, last)
    ensures var ops := [Create(a, slot, first), Advance(cut), Fork(b, true), Advance(updated), last];
            Runs(s, ops) && Run(s, ops) == Apply(BeforeUpdate(s, b, slot, first, cut, updated), last)
  {
    var o1, o2, o3, o4 := Create(a, slot, first), Advance(cut), Fork(b, true), Advance(updated);
    var s1 := Apply(s, o1);
    var s2 := s1.(now := cut);
    var s3 := Apply(s2, o3);
    assert Apply(s1, o2) == s2 && Apply(s3, o4) == BeforeUpdate(s, b, slot, first, cut, updated);
    var none: seq<Op> := [];
    assert Runs(Apply(Apply(s3, o4), last), none);
    RunsOn(Apply(s3, o4), last, none);
    RunsOn(s3, o4, [last] + none);
    RunsOn(s2, o3, [o4] + ([last] + none));
    RunsOn(s1, o2, [o3] + ([o4] + ([last] + none)));
    RunsOn(s, o1, [o2] + ([o3] + ([o4] + ([last] + none))));
    assert [o1, o2, o3, o4, last] == [o1] + ([o2] + ([o3] + ([o4] + ([last] + none))));
  }

  lemma UpdateOfTheFirst(s: State, b: BranchName, slot: Slot, first: VertexId, second: VertexId, cut: Time, updated: Time)
    requires s.store.Valid() && BranchesFit(s) && slot.agnostic && (forall id :: id in s.store.edges ==> s.store.edges[id].slot != slot)
    requires b !in s.branches && s.now < cut < updated
    ensures var s4, op := BeforeUpdate(s, b, slot, first, cut, updated), Update(MAIN_BRANCH, slot, second, Some(s.store.next));
            && Enabled(s4, op) && Safe(s4, op)
            && var f := Apply(s4, op);
               && f.branches == s4.branches && f.now == updated && f.store.next == s.store.next + 2
               && s.store.next in f.store.edges && s.store.next + 1 in f.store.edges
               && f.store.edges[s.store.next] == Edge(slot, first, GLOBAL_BRANCH, USER_LEVEL, s.now, Some(updated), Active, None)
               && f.store.edges[s.store.next + 1] == Edge(slot, second, GLOBAL_BRANCH, DEFAULT_LEVEL, updated, None, Active, None)
               && forall id :: id in f.store.edges && f.store.edges[id].slot == slot ==> id == s.store.next || id == s.store.next + 1
  {
    var s4, id := BeforeUpdate(s, b, slot, first, cut, updated), s.store.next;
    assert s4.View(MAIN_BRANCH) == [Window({GLOBAL_BRANCH, MAIN_BRANCH}, updated)];
    assert Visible(s4.store.edges[id], s4.View(MAIN_BRANCH)[0]);
    assert Chosen(s4.store.edges, s4.View(MAIN_BRANCH), slot, id);
  }

  /** The state after the stale run, worked out. */
  lemma StaleRunRuns(s: State, a: BranchName, b: BranchName, slot: Slot, first: VertexId, second: VertexId, cut: Time, updated: Time)
    requires Inv(s) && slot.agnostic && (forall id :: id in s.store.edges ==> s.store.edges[id].slot != slot)
    requires a in s.branches && a != MAIN_BRANCH && b !in s.branches && b != GLOBAL_BRANCH && s.now < cut < updated
    ensures Runs(s, StaleRun(a, b, slot, first, second, s.store.next, cut, updated))
    ensures var f := Run(s, StaleRun(a, b, slot, first, second, s.store.next, cut, updated)); Inv(f) && StaleState(s, f, b, slot, first, second, cut, updated)
  {
    var last := Update(MAIN_BRANCH, slot, second, Some(s.store.next));
    UpdateOfTheFirst(s, b, slot, first, second, cut, updated);
    UpToTheUpdate(s, a, b, slot, first, cut, updated, last);
    InvariantOverRuns(s, StaleRun(a, b, slot, first, second, s.store.next, cut, updated));
  }

  ghost predicate StaleState(s: State, f: State, b: BranchName, slot: Slot, first: VertexId, second: VertexId, cut: Time, updated: Time) {
    && f.now == updated && b in f.branches && f.branches[b] == BranchInfo(b, MAIN_BRANCH, cut, USER_LEVEL, false, true)
    && s.store.next in f.store.edges && s.store.next + 1 in f.store.edges && f.store.next == s.store.next + 2
    && f.store.edges[s.store.next] == Edge(slot, first, GLOBAL_BRANCH, USER_LEVEL, s.now, Some(updated), Active, None)
    && f.store.edges[s.store.next + 1] == Edge(slot, second, GLOBAL_BRANCH, DEFAULT_LEVEL, updated, None, Active, None)
    && forall id :: id in f.store.edges && f.store.edges[id].slot == slot ==> id == s.store.next || id == s.store.next + 1
  }

  /** From any sound state: an agnostic value created on a user branch goes on being read, at any later time, by an isolated
      branch that is cut before the value is updated, while the global branch reads the new one. */
  lemma AgnosticCreationOnBranchReadsStale(s: State, a: BranchName, b: BranchName, slot: Slot, first: VertexId, second: VertexId, cut: Time, updated: Time, q: Time)
    requires Inv(s) && slot.agnostic && (forall id :: id in s.store.edges ==> s.store.edges[id].slot != slot)
    requires a in s.branches && a != MAIN_BRANCH && b !in s.branches && b != GLOBAL_BRANCH && s.now < cut < updated < q
    ensures var ops := StaleRun(a, b, slot, first, second, s.store.next, cut, updated);
            && Runs(s, ops) && b in Run(s, ops).branches
            && Shows(Run(s, ops).store.edges, Run(s, ops).branches[b].TimesToQueryGlobal(q), slot, Some(first))
            && Shows(Run(s, ops).store.edges, [Window({GLOBAL_BRANCH}, q)], slot, Some(second))
  {
    StaleRunRuns(s, a, b, slot, first, second, cut, updated);
    StaleReads(s, Run(s, StaleRun(a, b, slot, first, second, s.store.next, cut, updated)), b, slot, first, second, cut, updated, q);
  }

  lemma StaleReads(s: State, f: State, b: BranchName, slot: Slot, first: VertexId, second: VertexId, cut: Time, updated: Time, q: Time)
    requires slot.agnostic && s.now < cut < updated < q && b != MAIN_BRANCH
    requires Inv(f) && StaleState(s, f, b, slot, first, second, cut, updated)
    ensures Shows(f.store.edges, f.branches[b].TimesToQueryGlobal(q), slot, Some(first))
    ensures Shows(f.store.edges, [Window({GLOBAL_BRANCH}, q)], slot, Some(second))
  {
    GlobalCandidates(f, b, slot, q);
    SlotIsGlobal(f, slot);
    CreatorWins(f.store.edges, f.branches[b].TimesToQueryGlobal(q), slot, s.store.next);
    Decides(f.store.edges, [Window({GLOBAL_BRANCH}, q)], slot, s.store.next + 1);
  }

  /** After the same run an update on the isolated branch reads the old value as the current one. It is not safe: it leaves two
      live edges open on the global branch, and stretches the old one over times at which it had ended. */
  lemma StaleUpdateBreaksDiscipline(s: State, a: BranchName, b: BranchName, slot: Slot, first: VertexId, second: VertexId, third: VertexId,
                                    cut: Time, updated: Time, late: Time, t: Time)
    requires Inv(s) && slot.agnostic && (forall id :: id in s.store.edges ==> s.store.edges[id].slot != slot)
    requires a in s.branches && a != MAIN_BRANCH && b !in s.branches && b != GLOBAL_BRANCH && s.now < cut < updated < t < late
    ensures var ops := StaleRun(a, b, slot, first, second, s.store.next, cut, updated);
            Runs(s, ops) && Enabled(Run(s, ops), Advance(late))
    ensures var before := Apply(Run(s, StaleRun(a, b, slot, first, second, s.store.next, cut, updated)), Advance(late));
            var op := Update(b, slot, third, Some(s.store.next));
            && Inv(before) && Enabled(before, op) && !Safe(before, op)
            && var after := Apply(before, op).store.edges;
               && !Disciplined(after) && LiveAndOpen(after, slot, s.store.next + 1) && LiveAndOpen(after, slot, s.store.next + 2)
               && VisibleOn(after, GLOBAL_BRANCH, t, s.store.next) && !VisibleOn(before.store.edges, GLOBAL_BRANCH, t, s.store.next)
  {
    var id := s.store.next;
    StaleRunRuns(s, a, b, slot, first, second, cut, updated);
    var f := Run(s, StaleRun(a, b, slot, first, second, id, cut, updated));
    var before := f.(now := late);
    SafeStep(f, Advance(late));
    assert Apply(f, Advance(late)) == before;
    StaleIsRead(s, before, b, slot, first, second, third, cut, updated);
    StaleUpdateIsSeen(s, before, b, slot, first, second, third, cut, updated, t);
  }

  lemma StaleUpdateIsSeen(s: State, before: State, b: BranchName, slot: Slot, first: VertexId, second: VertexId, third: VertexId,
                          cut: Time, updated: Time, t: Time)
    requires slot.agnostic && s.now < cut < updated < t < before.now && b != MAIN_BRANCH
    requires Inv(before) && StaleState(s, before.(now := updated), b, slot, first, second, cut, updated)
    requires Enabled(before, Update(b, slot, third, Some(s.store.next))) && Outlived(before, b, slot, s.store.next)
    requires LiveAndOpen(before.store.edges, slot, s.store.next + 1)
    ensures var op := Update(b, slot, third, Some(s.store.next));
            && !Safe(before, op)
            && var after := Apply(before, op).store.edges;
               && !Disciplined(after) && LiveAndOpen(after, slot, s.store.next + 1) && LiveAndOpen(after, slot, s.store.next + 2)
               && VisibleOn(after, GLOBAL_BRANCH, t, s.store.next) && !VisibleOn(before.store.edges, GLOBAL_BRANCH, t, s.store.next)
  {
    StaleUpdateBreaks(before, b, slot, third, Some(s.store.next), s.store.next);
    StretchedIsSeen(before, b, slot, third, s.store.next, t);
  }

  /** An update through an edge that has ended makes it visible at times at which it was not. */
  lemma StretchedIsSeen(s: State, b: BranchName, slot: Slot, dst: VertexId, id: EdgeId, t: Time)
    requires s.store.Valid() && Enabled(s, Update(b, slot, dst, Some(id))) && slot.agnostic && id in s.store.edges
    requires var e := s.store.edges[id]; e.branch == GLOBAL_BRANCH && e.since <= t && e.until.Some? && e.until.value < t < s.now
    ensures VisibleOn(Apply(s, Update(b, slot, dst, Some(id))).store.edges, GLOBAL_BRANCH, t, id) && !VisibleOn(s.store.edges, GLOBAL_BRANCH, t, id)
  {
  }

  lemma StaleIsRead(s: State, before: State, b: BranchName, slot: Slot, first: VertexId, second: VertexId, third: VertexId, cut: Time, updated: Time)
    requires slot.agnostic && s.now < cut < updated < before.now && b != MAIN_BRANCH
    requires Inv(before) && StaleState(s, before.(now := updated), b, slot, first, second, cut, updated)
    ensures Enabled(before, Update(b, slot, third, Some(s.store.next))) && Outlived(before, b, slot, s.store.next)
    ensures LiveAndOpen(before.store.edges, slot, s.store.next + 1)
  {
    var id, edges, ws := s.store.next, before.store.edges, before.View(b);
    GlobalCandidates(before, b, slot, before.now);
    assert Candidate(edges, ws, slot, id) && Candidate(edges, ws, slot, id + 1);
    assert Beats(edges[id], edges[id + 1]);
    assert Chosen(edges, ws, slot, id);
  }
}
