/** Saving a whole attribute as a run of single updates, and what the branch reads afterwards. */
module AttributeSaves {
  import opened Common
  import opened TemporalGraph
  import opened AttributeWrites
  import opened Merge
  import opened GraphRuns
  import opened GraphReads

  /** The updates that a save stands for: one for each property whose wanted vertex is not what its current edge points at. */
  function UpdatesOf(edges: Edges, b: BranchName, wanted: seq<Wanted>): seq<Op>
    requires forall i :: 0 <= i < |wanted| && wanted[i].current.Some? ==> wanted[i].current.value in edges
  {
    if wanted == [] then []
    else
      var w := wanted[0];
      (if w.dst.Some? && (w.current.None? || edges[w.current.value].dst != w.dst.value) then [Update(b, w.slot, w.dst.value, w.current)] else [])
      + UpdatesOf(edges, b, wanted[1..])
  }

  /** The current edges of the properties are what the branch reads, and it reads no outlived value. */
  ghost predicate CurrentAsRead(s: State, b: BranchName, wanted: seq<Wanted>) {
    && b in s.branches
    && (forall i, j :: 0 <= i < j < |wanted| ==> wanted[i].slot != wanted[j].slot)
    && forall i :: 0 <= i < |wanted| ==>
         ReadsAsCurrent(s.store.edges, s.View(b), wanted[i].slot, wanted[i].current) && !Stale(s, b, wanted[i].slot)
  }

  lemma CurrentIsSeparate(s: State, b: BranchName, wanted: seq<Wanted>)
    requires CurrentAsRead(s, b, wanted)
    ensures Separate(s.store, wanted) && Known(s.store, wanted)
  {
  }

  /** Where the edges of a slot are the same, so is all that a branch reads there. */
  lemma SameSlotSameReads(s: State, t: State, b: BranchName, slot: Slot)
    requires b in s.branches && t.branches == s.branches && t.now == s.now && SameInSlot(s.store.edges, t.store.edges, slot)
    ensures forall ws, id :: Candidate(s.store.edges, ws, slot, id) <==> Candidate(t.store.edges, ws, slot, id)
    ensures Stale(s, b, slot) <==> Stale(t, b, slot)
  {
    forall ws, id ensures Candidate(s.store.edges, ws, slot, id) <==> Candidate(t.store.edges, ws, slot, id) {
      assert InSlot(s.store.edges, slot, id) <==> InSlot(t.store.edges, slot, id);
    }
    forall id ensures Outlived(s, b, slot, id) <==> Outlived(t, b, slot, id) {
      SameOutlived(s, t, b, slot, id);
    }
  }

  lemma SameOutlived(s: State, t: State, b: BranchName, slot: Slot, id: EdgeId)
    requires b in s.branches && t.branches == s.branches && t.now == s.now && SameInSlot(s.store.edges, t.store.edges, slot)
    ensures Outlived(s, b, slot, id) <==> Outlived(t, b, slot, id)
  {
    assert InSlot(s.store.edges, slot, id) <==> InSlot(t.store.edges, slot, id);
    forall o ensures LiveAndOpen(s.store.edges, slot, o) <==> LiveAndOpen(t.store.edges, slot, o) {
      assert InSlot(s.store.edges, slot, o) <==> InSlot(t.store.edges, slot, o);
    }
  }

  lemma SameCurrent(s: State, t: State, b: BranchName, slot: Slot, current: Option<EdgeId>)
    requires b in s.branches && t.branches == s.branches && t.now == s.now && SameInSlot(s.store.edges, t.store.edges, slot)
    ensures ReadsAsCurrent(s.store.edges, s.View(b), slot, current) <==> ReadsAsCurrent(t.store.edges, t.View(b), slot, current)
  {
    var edges, after, ws := s.store.edges, t.store.edges, s.View(b);
    SameSlotSameReads(s, t, b, slot);
    forall id | Candidate(edges, ws, slot, id) ensures after[id] == edges[id] {
      assert InSlot(edges, slot, id);
    }
    forall id ensures Top(edges, ws, slot, id) <==> Top(after, ws, slot, id) {
    }
  }

  /** The state after the first property. */
  ghost function Next(s: State, b: BranchName, wanted: seq<Wanted>): State
    requires wanted != [] && CurrentAsRead(s, b, wanted)
  {
    CurrentIsSeparate(s, b, wanted);
    s.(store := AfterFirst(s.store, wanted, s.branches[b], s.now))
  }

  lemma FirstUpdate(s: State, b: BranchName, wanted: seq<Wanted>)
    requires Inv(s) && wanted != [] && CurrentAsRead(s, b, wanted)
    ensures Inv(Next(s, b, wanted))
    ensures var w := wanted[0];
            w.dst.Some? && (w.current.None? || (w.current.value in s.store.edges && s.store.edges[w.current.value].dst != w.dst.value)) ==>
              var op := Update(b, w.slot, w.dst.value, w.current);
              Enabled(s, op) && Safe(s, op) && Apply(s, op) == Next(s, b, wanted)
  {
    var w := wanted[0];
    CurrentIsSeparate(s, b, wanted);
    if NeedsWrite(s.store, w) {
      UpdateKeepsInv(s, b, w.slot, w.dst.value, w.current);
    }
  }

  lemma RestIsCurrent(s: State, b: BranchName, wanted: seq<Wanted>)
    requires Inv(s) && wanted != [] && CurrentAsRead(s, b, wanted)
    ensures CurrentAsRead(Next(s, b, wanted), b, wanted[1..]) && Known(s.store, wanted[1..])
    ensures UpdatesOf(s.store.edges, b, wanted[1..]) == UpdatesOf(Next(s, b, wanted).store.edges, b, wanted[1..])
  {
    var t := Next(s, b, wanted);
    CurrentIsSeparate(s, b, wanted);
    forall i | 0 <= i < |wanted[1..]|
      ensures ReadsAsCurrent(t.store.edges, t.View(b), wanted[1..][i].slot, wanted[1..][i].current) && !Stale(t, b, wanted[1..][i].slot)
    {
      var w := wanted[i + 1];
      assert wanted[1..][i] == w;
      FirstLeavesOthers(s.store, wanted, s.branches[b], s.now, w.slot);
      SameCurrent(s, t, b, w.slot, w.current);
      SameSlotSameReads(s, t, b, w.slot);
    }
    forall i, j | 0 <= i < j < |wanted[1..]| ensures wanted[1..][i].slot != wanted[1..][j].slot {
      assert wanted[1..][i] == wanted[i + 1] && wanted[1..][j] == wanted[j + 1];
    }
    forall i | 0 <= i < |wanted[1..]| && wanted[1..][i].current.Some?
      ensures wanted[1..][i].current.value in s.store.edges
      ensures wanted[1..][i].current.value in t.store.edges
      ensures t.store.edges[wanted[1..][i].current.value].dst == s.store.edges[wanted[1..][i].current.value].dst
    {
      assert wanted[1..][i] == wanted[i + 1];
    }
    SameUpdates(s.store.edges, t.store.edges, b, wanted[1..]);
  }

  lemma {:induction false} SameUpdates(edges: Edges, after: Edges, b: BranchName, wanted: seq<Wanted>)
    requires forall i :: 0 <= i < |wanted| && wanted[i].current.Some? ==>
               wanted[i].current.value in edges && wanted[i].current.value in after && after[wanted[i].current.value].dst == edges[wanted[i].current.value].dst
    ensures UpdatesOf(edges, b, wanted) == UpdatesOf(after, b, wanted)
  {
    if wanted != [] {
      assert forall i :: 0 <= i < |wanted[1..]| ==> wanted[1..][i] == wanted[i + 1];
      SameUpdates(edges, after, b, wanted[1..]);
    }
  }

  /** A save is a run of safe updates, one for each property that it changes, and leads to the store that the save computes. */
  lemma {:induction false} SaveIsARun(s: State, b: BranchName, wanted: seq<Wanted>)
    requires Inv(s) && CurrentAsRead(s, b, wanted)
    ensures Known(s.store, wanted) && Runs(s, UpdatesOf(s.store.edges, b, wanted))
    ensures Run(s, UpdatesOf(s.store.edges, b, wanted)) == s.(store := UpdateProperties(s.store, wanted, s.branches[b], s.now))
    decreases |wanted|
  {
    CurrentIsSeparate(s, b, wanted);
    if wanted != [] {
      var t, rest := Next(s, b, wanted), UpdatesOf(s.store.edges, b, wanted[1..]);
      FirstUpdate(s, b, wanted);
      RestIsCurrent(s, b, wanted);
      SaveIsARun(t, b, wanted[1..]);
      RestStaysSeparate(s.store, wanted, s.branches[b], s.now);
      if NeedsWrite(s.store, wanted[0]) {
        var op := Update(b, wanted[0].slot, wanted[0].dst.value, wanted[0].current);
        assert ([op] + rest)[1..] == rest && UpdatesOf(s.store.edges, b, wanted) == [op] + rest;
      } else {
        assert UpdatesOf(s.store.edges, b, wanted) == [] + rest == rest;
      }
    }
  }

  /** An ended edge of a user branch that still decides the slot has the wanted value; without one, every edge that started at this
      instant and is still seen does. */
  ghost predicate NothingElseDecides(s: State, b: BranchName, w: Wanted, q: Time)
    requires b in s.branches
  {
    if exists id :: Shadows(s, b, w.slot, q, id) then forall id :: Shadows(s, b, w.slot, q, id) ==> Some(s.store.edges[id].dst) == w.dst
    else forall id :: Ties(s, b, w.slot, Ids(w.current), q, id) ==> Outcome(s.store.edges[id]) == w.dst
  }

  /** What a branch reads after a save: each property that was changed as after a single update, every other slot as before. */
  lemma {:induction false} SavedIsRead(s: State, b: BranchName, wanted: seq<Wanted>, i: nat, q: Time)
    requires Inv(s) && CurrentAsRead(s, b, wanted) && Known(s.store, wanted) && i < |wanted| && s.now <= q
    requires var w := wanted[i]; w.dst.Some? && (w.current.None? || s.store.edges[w.current.value].dst != w.dst.value)
    ensures var w, after := wanted[i], UpdateProperties(s.store, wanted, s.branches[b], s.now).edges;
            Shows(after, s.branches[b].TimesToQueryGlobal(q), w.slot, w.dst)
            <==> NothingElseDecides(s, b, w, q)
    decreases |wanted|
  {
    var t := Next(s, b, wanted);
    CurrentIsSeparate(s, b, wanted);
    FirstUpdate(s, b, wanted);
    RestIsCurrent(s, b, wanted);
    RestStaysSeparate(s.store, wanted, s.branches[b], s.now);
    if i == 0 {
      FirstIsRead(s, b, wanted, q);
    } else {
      assert wanted[1..][i - 1] == wanted[i];
      FirstLeavesOthers(s.store, wanted, s.branches[b], s.now, wanted[i].slot);
      LaterIsTheSame(s, t, b, wanted[i], q);
      SavedIsRead(t, b, wanted[1..], i - 1, q);
    }
  }

  lemma FirstIsRead(s: State, b: BranchName, wanted: seq<Wanted>, q: Time)
    requires Inv(s) && wanted != [] && CurrentAsRead(s, b, wanted) && Known(s.store, wanted) && s.now <= q
    requires var w := wanted[0]; w.dst.Some? && (w.current.None? || (w.current.value in s.store.edges && s.store.edges[w.current.value].dst != w.dst.value))
    ensures var w, after := wanted[0], UpdateProperties(s.store, wanted, s.branches[b], s.now).edges;
            Shows(after, s.branches[b].TimesToQueryGlobal(q), w.slot, w.dst)
            <==> NothingElseDecides(s, b, w, q)
  {
    var w := wanted[0];
    FirstUpdate(s, b, wanted);
    FirstReadStays(s, b, wanted);
    SameSlotShows(Next(s, b, wanted).store.edges, UpdateProperties(s.store, wanted, s.branches[b], s.now).edges, w.slot,
                  s.branches[b].TimesToQueryGlobal(q), w.dst);
    WriteIsRead(s, b, w.slot, w.dst.value, w.current, q);
  }

  lemma FirstReadStays(s: State, b: BranchName, wanted: seq<Wanted>)
    requires Inv(s) && wanted != [] && CurrentAsRead(s, b, wanted) && Known(s.store, wanted)
    ensures var after := UpdateProperties(s.store, wanted, s.branches[b], s.now).edges;
            SameInSlot(Next(s, b, wanted).store.edges, after, wanted[0].slot)
  {
    var t := Next(s, b, wanted);
    CurrentIsSeparate(s, b, wanted);
    RestStaysSeparate(s.store, wanted, s.branches[b], s.now);
    assert forall j :: 0 <= j < |wanted[1..]| ==> wanted[1..][j] == wanted[j + 1];
    OtherSlotsStay(t.store, wanted[1..], s.branches[b], s.now, wanted[0].slot);
  }

  /** A step that leaves the slot alone leaves alone what decides there. */
  lemma LaterIsTheSame(s: State, t: State, b: BranchName, w: Wanted, q: Time)
    requires b in s.branches && t.branches == s.branches && t.now == s.now && SameInSlot(s.store.edges, t.store.edges, w.slot)
    requires w.current.Some? ==> InSlot(s.store.edges, w.slot, w.current.value)
    ensures NothingElseDecides(s, b, w, q) <==> NothingElseDecides(t, b, w, q)
    ensures w.current.Some? ==> t.store.edges[w.current.value] == s.store.edges[w.current.value]
  {
    forall id
      ensures Shadows(s, b, w.slot, q, id) <==> Shadows(t, b, w.slot, q, id)
      ensures Ties(s, b, w.slot, Ids(w.current), q, id) <==> Ties(t, b, w.slot, Ids(w.current), q, id)
      ensures Shadows(s, b, w.slot, q, id) || Ties(s, b, w.slot, Ids(w.current), q, id) || Some(id) == w.current ==>
                id in t.store.edges && id in s.store.edges && t.store.edges[id] == s.store.edges[id]
    {
      assert InSlot(s.store.edges, w.slot, id) <==> InSlot(t.store.edges, w.slot, id);
    }
  }

  /** Every slot that a save does not change is read as before, through any windows. */
  lemma UnsavedIsReadAsBefore(s: State, b: BranchName, wanted: seq<Wanted>, slot: Slot, ws: seq<Window>, v: Option<VertexId>)
    requires Inv(s) && CurrentAsRead(s, b, wanted) && Known(s.store, wanted)
    requires forall i :: 0 <= i < |wanted| && wanted[i].slot == slot ==>
               wanted[i].dst.None? || (wanted[i].current.Some? && s.store.edges[wanted[i].current.value].dst == wanted[i].dst.value)
    ensures Shows(UpdateProperties(s.store, wanted, s.branches[b], s.now).edges, ws, slot, v) <==> Shows(s.store.edges, ws, slot, v)
  {
    CurrentIsSeparate(s, b, wanted);
    UnsavedStays(s.store, wanted, s.branches[b], s.now, slot);
    SameSlotShows(s.store.edges, UpdateProperties(s.store, wanted, s.branches[b], s.now).edges, slot, ws, v);
  }

  lemma UnsavedStays(s: Store, wanted: seq<Wanted>, branch: BranchInfo, at: Time, slot: Slot)
    requires s.Valid() && Separate(s, wanted)
    requires forall i :: 0 <= i < |wanted| && wanted[i].slot == slot ==>
               wanted[i].dst.None? || (wanted[i].current.Some? && s.edges[wanted[i].current.value].dst == wanted[i].dst.value)
    ensures SameInSlot(s.edges, UpdateProperties(s, wanted, branch, at).edges, slot)
  {
    if i :| 0 <= i < |wanted| && wanted[i].slot == slot {
      SavedProperty(s, wanted, branch, at, i);
    } else {
      OtherSlotsStay(s, wanted, branch, at, slot);
    }
  }
}
