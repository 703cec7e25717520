/**
 Writing and deleting the properties of an attribute, and the discipline that live edges obey:
 on one branch, the live edges of a slot follow one another in time and never overlap.
 */
module AttributeWrites {
  import opened Common
  import opened TemporalGraph

  // ---------- The discipline ----------

  predicate Apart(e: Edge, f: Edge) {
    || (e.until.Some? && e.until.value <= f.since)
    || (f.until.Some? && f.until.value <= e.since)
  }

  predicate SameLane(e: Edge, f: Edge) {
    e.status == f.status == Active && e.slot == f.slot && e.branch == f.branch
  }

  predicate WellTimed(e: Edge) {
    e.until.None? || e.since <= e.until.value
  }

  ghost predicate Disciplined(edges: Edges) {
    && (forall id :: id in edges ==> WellTimed(edges[id]))
    && (forall i, j :: i in edges && j in edges && i != j && SameLane(edges[i], edges[j]) ==> Apart(edges[i], edges[j]))
  }

  /** Nothing in the store is dated later than `t`. */
  ghost predicate NotAfter(edges: Edges, t: Time) {
    forall id :: id in edges ==> edges[id].since <= t && (edges[id].until.Some? ==> edges[id].until.value <= t)
  }

  lemma ClosingKeepsDiscipline(s: Store, ids: set<EdgeId>, at: Time)
    requires Disciplined(s.edges) && NotAfter(s.edges, at)
    requires forall id :: id in ids && id in s.edges ==> Alive(s.edges[id], at)
    ensures Disciplined(CloseEdges(s, ids, at).edges) && NotAfter(CloseEdges(s, ids, at).edges, at)
  {
    var c := CloseEdges(s, ids, at).edges;
    forall i, j | i in c && j in c && i != j && SameLane(c[i], c[j])
      ensures Apart(c[i], c[j])
    {
      assert Apart(s.edges[i], s.edges[j]);
    }
  }

  /** No live edge of the branch is open in this slot. */
  ghost predicate LaneClosed(edges: Edges, slot: Slot, branch: BranchName) {
    forall id :: id in edges && edges[id].status == Active && edges[id].slot == slot && edges[id].branch == branch
                 ==> edges[id].until.Some?
  }

  /** A new edge fits exactly when it is a deletion marker or its lane has been closed before. */
  lemma AddingKeepsDiscipline(s: Store, e: Edge)
    requires s.Valid() && NotAfter(s.edges, e.since) && e.until == None
    ensures Disciplined(AddEdge(s, e).edges) <==>
            Disciplined(s.edges) && (e.status == Deleted || LaneClosed(s.edges, e.slot, e.branch))
    ensures NotAfter(AddEdge(s, e).edges, e.since) && AddEdge(s, e).Valid()
  {
    var c := AddEdge(s, e).edges;
    assert c[s.next] == e;
    assert forall id :: id in s.edges ==> id in c && c[id] == s.edges[id] && id != s.next;
    if Disciplined(c) {
      forall i, j | i in s.edges && j in s.edges && i != j && SameLane(s.edges[i], s.edges[j])
        ensures Apart(s.edges[i], s.edges[j])
      {
        assert SameLane(c[i], c[j]);
      }
      forall id | id in s.edges && e.status == s.edges[id].status == Active && s.edges[id].slot == e.slot && s.edges[id].branch == e.branch
        ensures s.edges[id].until.Some?
      {
        assert SameLane(c[id], c[s.next]);
      }
    }
  }

  // ---------- Writing one property ----------

  /** The branch that holds an element: its own branch, or the global branch when the schema says agnostic. */
  function WriteBranch(slot: Slot, branch: BranchInfo): (BranchName, nat) {
    if slot.agnostic then (GLOBAL_BRANCH, DEFAULT_LEVEL) else (branch.name, branch.level)
  }

  function WriteValue(s: Store, slot: Slot, dst: VertexId, branch: BranchInfo, at: Time, current: Option<EdgeId>): Store
    requires current.Some? ==> current.value in s.edges
  {
    var (name, level) := WriteBranch(slot, branch);
    var added := AddEdge(s, Edge(slot, dst, name, level, at, None, Active, None));
    if current.Some? && s.edges[current.value].branch == name then CloseEdges(added, {current.value}, at) else added
  }

  /** One property of the attribute: the vertex it should point at, and the edge the current value was read from. */
  datatype Wanted = Wanted(slot: Slot, dst: Option<VertexId>, current: Option<EdgeId>)

  predicate NeedsWrite(s: Store, w: Wanted)
    requires w.current.Some? ==> w.current.value in s.edges
  {
    w.dst.Some? && (w.current.None? || s.edges[w.current.value].dst != w.dst.value)
  }

  ghost predicate Known(s: Store, wanted: seq<Wanted>) {
    forall i :: 0 <= i < |wanted| && wanted[i].current.Some? ==> wanted[i].current.value in s.edges
  }

  function UpdateProperties(s: Store, wanted: seq<Wanted>, branch: BranchInfo, at: Time): (r: Store)
    requires Known(s, wanted)
    ensures s.Valid() ==> r.Valid() && s.edges.Keys <= r.edges.Keys
    decreases |wanted|
  {
    if wanted == [] then s
    else
      var w := wanted[0];
      assert w.current.Some? ==> w.current.value in s.edges;
      var s' := if NeedsWrite(s, w) then WriteValue(s, w.slot, w.dst.value, branch, at, w.current) else s;
      UpdateProperties(s', wanted[1..], branch, at)
  }

  lemma {:induction false} UpdateSteps(s: Store, done: seq<Wanted>, w: Wanted, branch: BranchInfo, at: Time)
    requires s.Valid() && Known(s, done + [w])
    ensures Known(s, done) && (w.current.Some? ==> w.current.value in s.edges)
    ensures var s' := UpdateProperties(s, done, branch, at);
            UpdateProperties(s, done + [w], branch, at)
            == if NeedsWrite(s', w) then WriteValue(s', w.slot, w.dst.value, branch, at, w.current) else s'
    decreases |done|
  {
    assert (done + [w])[|done|] == w;
    assert forall i :: 0 <= i < |done| ==> (done + [w])[i] == done[i];
    if done == [] {
      assert done + [w] == [w];
    } else {
      var d := done[0];
      assert d.current.Some? ==> d.current.value in s.edges;
      var s' := if NeedsWrite(s, d) then WriteValue(s, d.slot, d.dst.value, branch, at, d.current) else s;
      assert (done + [w])[1..] == done[1..] + [w];
      assert (done + [w])[0] == d;
      UpdateSteps(s', done[1..], w, branch, at);
    }
  }

  /** `BaseAttribute._update`: the value, then the flags, then the node properties. */
  method UpdateAttribute(db: Database, wanted: seq<Wanted>, branch: BranchInfo, at: Time)
    requires db.Contents().Valid() && Known(db.Contents(), wanted)
    modifies db
    ensures db.Contents() == UpdateProperties(old(db.Contents()), wanted, branch, at)
  {
    for i := 0 to |wanted|
      invariant db.Contents().Valid() && old(db.Contents()).edges.Keys <= db.Contents().edges.Keys
      invariant Known(old(db.Contents()), wanted[..i])
      invariant db.Contents() == UpdateProperties(old(db.Contents()), wanted[..i], branch, at)
    {
      var w := wanted[i];
      assert wanted[..i + 1] == wanted[..i] + [w];
      UpdateSteps(old(db.Contents()), wanted[..i], w, branch, at);
      if NeedsWrite(db.Contents(), w) {
        var (name, level) := WriteBranch(w.slot, branch);
        var mine := w.current.Some? && db.edges[w.current.value].branch == name;
        db.AddRelationship(w.slot, w.dst.value, name, level, at, Active);
        if mine {
          db.UpdateRelationshipsTo({w.current.value}, at);
        }
      }
    }
    assert wanted[..|wanted|] == wanted;
  }

  // ---------- What a save changes ----------

  predicate InSlot(edges: Edges, slot: Slot, id: EdgeId) {
    id in edges && edges[id].slot == slot
  }

  /** The edges of the slot are the same, one by one. */
  ghost predicate SameInSlot(before: Edges, after: Edges, slot: Slot) {
    forall id :: (InSlot(before, slot, id) <==> InSlot(after, slot, id)) && (InSlot(before, slot, id) ==> after[id] == before[id])
  }

  lemma SameSlotShows(before: Edges, after: Edges, slot: Slot, ws: seq<Window>, v: Option<VertexId>)
    requires SameInSlot(before, after, slot)
    ensures Shows(before, ws, slot, v) <==> Shows(after, ws, slot, v)
  {
    forall id
      ensures Candidate(before, ws, slot, id) <==> Candidate(after, ws, slot, id)
      ensures Candidate(before, ws, slot, id) ==> after[id] == before[id]
    {
      assert InSlot(before, slot, id) <==> InSlot(after, slot, id);
    }
    SameCandidatesSameAnswer(before, ws, after, ws, slot, v);
  }

  /** The slot gets one new edge, and the edge `old_`, if it is on the same branch, ends when the new one starts. */
  ghost predicate Resaved(before: Edges, after: Edges, e: Edge, old_: Option<EdgeId>) {
    && (exists n :: n !in before && n in after && after[n] == e && forall id :: InSlot(after, e.slot, id) && id !in before ==> id == n)
    && (forall id :: InSlot(before, e.slot, id) ==>
          id in after && after[id] == if old_ == Some(id) && before[id].branch == e.branch then before[id].(until := Some(e.since)) else before[id])
  }

  /** Each property has its own slot, and its current edge is in it. */
  ghost predicate Separate(s: Store, wanted: seq<Wanted>) {
    && (forall i, j :: 0 <= i < j < |wanted| ==> wanted[i].slot != wanted[j].slot)
    && (forall i :: 0 <= i < |wanted| && wanted[i].current.Some? ==> InSlot(s.edges, wanted[i].slot, wanted[i].current.value))
  }

  /** The store after the first property. */
  function AfterFirst(s: Store, wanted: seq<Wanted>, branch: BranchInfo, at: Time): Store
    requires wanted != [] && (wanted[0].current.Some? ==> wanted[0].current.value in s.edges)
  {
    if NeedsWrite(s, wanted[0]) then WriteValue(s, wanted[0].slot, wanted[0].dst.value, branch, at, wanted[0].current) else s
  }

  /** A save changes nothing of an edge but its end. */
  lemma {:induction false} EdgesOnlyEnd(s: Store, wanted: seq<Wanted>, branch: BranchInfo, at: Time)
    requires s.Valid() && Known(s, wanted)
    ensures var after := UpdateProperties(s, wanted, branch, at).edges;
            forall id :: id in s.edges ==> id in after && after[id] == s.edges[id].(until := after[id].until)
    decreases |wanted|
  {
    if wanted != [] {
      FirstOnlyEnds(s, wanted, branch, at);
      EdgesOnlyEnd(AfterFirst(s, wanted, branch, at), wanted[1..], branch, at);
    }
  }

  lemma FirstOnlyEnds(s: Store, wanted: seq<Wanted>, branch: BranchInfo, at: Time)
    requires s.Valid() && wanted != [] && Known(s, wanted)
    ensures var s' := AfterFirst(s, wanted, branch, at);
            && s'.Valid() && Known(s', wanted[1..]) && UpdateProperties(s, wanted, branch, at) == UpdateProperties(s', wanted[1..], branch, at)
            && forall id :: id in s.edges ==> id in s'.edges && s'.edges[id] == s.edges[id].(until := s'.edges[id].until)
  {
    assert forall i :: 0 <= i < |wanted[1..]| ==> wanted[1..][i] == wanted[i + 1];
  }

  lemma FirstLeavesOthers(s: Store, wanted: seq<Wanted>, branch: BranchInfo, at: Time, slot: Slot)
    requires s.Valid() && wanted != [] && Separate(s, wanted) && wanted[0].slot != slot
    ensures var s' := AfterFirst(s, wanted, branch, at); s'.Valid() && s.edges.Keys <= s'.edges.Keys && SameInSlot(s.edges, s'.edges, slot)
  {
  }

  lemma RestStaysSeparate(s: Store, wanted: seq<Wanted>, branch: BranchInfo, at: Time)
    requires s.Valid() && wanted != [] && Separate(s, wanted)
    ensures var s' := AfterFirst(s, wanted, branch, at);
            && s'.Valid() && s.edges.Keys <= s'.edges.Keys && Separate(s', wanted[1..])
            && UpdateProperties(s, wanted, branch, at) == UpdateProperties(s', wanted[1..], branch, at)
  {
    var s' := AfterFirst(s, wanted, branch, at);
    forall i | 0 <= i < |wanted[1..]| && wanted[1..][i].current.Some? ensures InSlot(s'.edges, wanted[1..][i].slot, wanted[1..][i].current.value) {
      assert wanted[1..][i] == wanted[i + 1];
      FirstLeavesOthers(s, wanted, branch, at, wanted[i + 1].slot);
    }
  }

  /** A save leaves every slot alone that it does not want to write. */
  lemma {:induction false} OtherSlotsStay(s: Store, wanted: seq<Wanted>, branch: BranchInfo, at: Time, slot: Slot)
    requires s.Valid() && Separate(s, wanted) && forall i :: 0 <= i < |wanted| ==> wanted[i].slot != slot
    ensures var after := UpdateProperties(s, wanted, branch, at); after.Valid() && s.edges.Keys <= after.edges.Keys && SameInSlot(s.edges, after.edges, slot)
    decreases |wanted|
  {
    if wanted != [] {
      RestStaysSeparate(s, wanted, branch, at);
      FirstLeavesOthers(s, wanted, branch, at, slot);
      OtherSlotsStay(AfterFirst(s, wanted, branch, at), wanted[1..], branch, at, slot);
    }
  }

  /** A property whose wanted vertex is not what its current edge points at gets one new open live edge to that vertex, and its old edge,
      if it is on the branch that takes the write, ends; every other property keeps its edges. */
  lemma {:induction false} SavedProperty(s: Store, wanted: seq<Wanted>, branch: BranchInfo, at: Time, i: nat)
    requires s.Valid() && Separate(s, wanted) && i < |wanted|
    ensures var w, after := wanted[i], UpdateProperties(s, wanted, branch, at).edges;
            if w.dst.Some? && (w.current.None? || s.edges[w.current.value].dst != w.dst.value) then
              Resaved(s.edges, after,
                        if w.slot.agnostic then Edge(w.slot, w.dst.value, GLOBAL_BRANCH, DEFAULT_LEVEL, at, None, Active, None)
                        else Edge(w.slot, w.dst.value, branch.name, branch.level, at, None, Active, None),
                        w.current)
            else SameInSlot(s.edges, after, w.slot)
    decreases |wanted|
  {
    var s' := AfterFirst(s, wanted, branch, at);
    RestStaysSeparate(s, wanted, branch, at);
    if i == 0 {
      assert forall j :: 0 <= j < |wanted[1..]| ==> wanted[1..][j] == wanted[j + 1];
      OtherSlotsStay(s', wanted[1..], branch, at, wanted[0].slot);
      FirstIsWritten(s, wanted, branch, at, UpdateProperties(s', wanted[1..], branch, at).edges);
    } else {
      assert wanted[1..][i - 1] == wanted[i];
      FirstLeavesOthers(s, wanted, branch, at, wanted[i].slot);
      assert wanted[i].current.Some? ==> InSlot(s.edges, wanted[i].slot, wanted[i].current.value);
      SavedProperty(s', wanted[1..], branch, at, i - 1);
      EdgesOnlyEnd(s', wanted[1..], branch, at);
      SavedLater(s, s', wanted[i], branch, at, UpdateProperties(s', wanted[1..], branch, at).edges);
    }
  }

  lemma FirstIsWritten(s: Store, wanted: seq<Wanted>, branch: BranchInfo, at: Time, after: Edges)
    requires s.Valid() && wanted != [] && Separate(s, wanted)
    requires SameInSlot(AfterFirst(s, wanted, branch, at).edges, after, wanted[0].slot)
    ensures var w := wanted[0];
            if w.dst.Some? && (w.current.None? || s.edges[w.current.value].dst != w.dst.value) then
              Resaved(s.edges, after,
                        if w.slot.agnostic then Edge(w.slot, w.dst.value, GLOBAL_BRANCH, DEFAULT_LEVEL, at, None, Active, None)
                        else Edge(w.slot, w.dst.value, branch.name, branch.level, at, None, Active, None),
                        w.current)
            else SameInSlot(s.edges, after, w.slot)
  {
    var w, c, n := wanted[0], AfterFirst(s, wanted, branch, at).edges, s.next;
    if w.dst.Some? && (w.current.None? || s.edges[w.current.value].dst != w.dst.value) {
      assert InSlot(c, w.slot, n) && n !in s.edges;
      assert forall id :: InSlot(c, w.slot, id) && id !in s.edges ==> id == n;
      assert forall id :: InSlot(s.edges, w.slot, id) ==> InSlot(c, w.slot, id);
    }
  }

  /** What is written after a step that left the slot alone. */
  lemma SavedLater(s: Store, s': Store, w: Wanted, branch: BranchInfo, at: Time, after: Edges)
    requires SameInSlot(s.edges, s'.edges, w.slot) && s.edges.Keys <= s'.edges.Keys && (w.current.Some? ==> InSlot(s.edges, w.slot, w.current.value))
    requires forall id :: id in s'.edges ==> id in after && after[id].slot == s'.edges[id].slot
    ensures w.current.Some? ==> s'.edges[w.current.value] == s.edges[w.current.value]
    ensures SameInSlot(s'.edges, after, w.slot) ==> SameInSlot(s.edges, after, w.slot)
    ensures forall e: Edge :: e.slot == w.slot && Resaved(s'.edges, after, e, w.current) ==> Resaved(s.edges, after, e, w.current)
  {
    forall e: Edge | e.slot == w.slot && Resaved(s'.edges, after, e, w.current) ensures Resaved(s.edges, after, e, w.current) {
      var n :| n !in s'.edges && n in after && after[n] == e && forall id :: InSlot(after, e.slot, id) && id !in s'.edges ==> id == n;
      forall id | InSlot(after, e.slot, id) && id !in s.edges ensures id == n {
        assert !InSlot(s'.edges, e.slot, id);
      }
      assert forall id :: InSlot(s.edges, e.slot, id) ==> InSlot(s'.edges, e.slot, id);
    }
  }

  /** Saving what the current edges say changes nothing. */
  lemma {:induction false} SavingTheSameChangesNothing(s: Store, wanted: seq<Wanted>, branch: BranchInfo, at: Time)
    requires forall i :: 0 <= i < |wanted| ==>
               && (wanted[i].current.Some? ==> wanted[i].current.value in s.edges)
               && (wanted[i].dst.Some? ==> wanted[i].current.Some? && s.edges[wanted[i].current.value].dst == wanted[i].dst.value)
    ensures UpdateProperties(s, wanted, branch, at) == s
    decreases |wanted|
  {
    if wanted != [] {
      assert forall i :: 0 <= i < |wanted[1..]| ==> wanted[1..][i] == wanted[i + 1];
      SavingTheSameChangesNothing(s, wanted[1..], branch, at);
    }
  }

  predicate OutOfTheWay(current: Edge, at: Time, e: Edge) {
    (e.until.Some? && e.until.value <= current.since) || at <= e.since
  }

  /** The other live edges of the lane ended before `current` started, or start now. */
  ghost predicate NothingInTheWay(edges: Edges, current: EdgeId, at: Time)
    requires current in edges
  {
    forall id :: id in edges && id != current && SameLane(edges[id], edges[current]) ==> OutOfTheWay(edges[current], at, edges[id])
  }

  /** `id` is a live edge of this lane other than the one a write replaces. */
  predicate Competitor(edges: Edges, slot: Slot, branch: BranchName, current: Option<EdgeId>, id: EdgeId) {
    id in edges && edges[id].status == Active && edges[id].slot == slot && edges[id].branch == branch && current != Some(id)
  }

  /** Every live edge of the lane but the replaced one is closed, and a replaced edge of the same branch is the lane's latest. */
  ghost predicate ReplacesTheLatest(edges: Edges, slot: Slot, branch: BranchName, current: Option<EdgeId>, at: Time) {
    && (forall id :: Competitor(edges, slot, branch, current, id) ==> edges[id].until.Some?)
    && (current.Some? && current.value in edges && edges[current.value].branch == branch ==>
          NothingInTheWay(edges, current.value, at))
  }

  /** Stretching edges of different lanes up to now keeps the discipline exactly when nothing live is in their way. */
  lemma StretchingKeepsDiscipline(s: Store, ids: set<EdgeId>, at: Time)
    requires Disciplined(s.edges) && NotAfter(s.edges, at) && ids <= s.edges.Keys
    requires forall i, j :: i in ids && j in ids && i != j ==> !SameLane(s.edges[i], s.edges[j])
    ensures NotAfter(CloseEdges(s, ids, at).edges, at)
    ensures Disciplined(CloseEdges(s, ids, at).edges) <==> forall id :: id in ids ==> NothingInTheWay(s.edges, id, at)
  {
    var c := CloseEdges(s, ids, at).edges;
    forall id, current | id in s.edges && current in ids && id != current && SameLane(s.edges[id], s.edges[current])
      ensures SameLane(c[id], c[current])
      ensures Apart(c[id], c[current]) <==> OutOfTheWay(s.edges[current], at, s.edges[id])
    {
      assert Apart(s.edges[id], s.edges[current]);
      assert id !in ids;
    }
    if forall id :: id in ids ==> NothingInTheWay(s.edges, id, at) {
      forall i, j | i in c && j in c && i != j && SameLane(c[i], c[j])
        ensures Apart(c[i], c[j])
      {
        assert SameLane(s.edges[i], s.edges[j]) && SameLane(s.edges[j], s.edges[i]);
        assert Apart(s.edges[i], s.edges[j]);
      }
    }
  }

  /** A write keeps the discipline exactly when the edge it replaces is the latest one of its lane. */
  lemma WriteKeepsDiscipline(s: Store, slot: Slot, dst: VertexId, branch: BranchInfo, at: Time, current: Option<EdgeId>)
    requires s.Valid() && Disciplined(s.edges) && NotAfter(s.edges, at)
    requires current.Some? ==> current.value in s.edges && s.edges[current.value].slot == slot && s.edges[current.value].status == Active
    ensures Disciplined(WriteValue(s, slot, dst, branch, at, current).edges)
            <==> ReplacesTheLatest(s.edges, slot, WriteBranch(slot, branch).0, current, at)
    ensures NotAfter(WriteValue(s, slot, dst, branch, at, current).edges, at)
    ensures WriteValue(s, slot, dst, branch, at, current).Valid()
  {
    var (name, level) := WriteBranch(slot, branch);
    var e := Edge(slot, dst, name, level, at, None, Active, None);
    if current.Some? && s.edges[current.value].branch == name {
      var closed := CloseEdges(s, {current.value}, at);
      assert WriteValue(s, slot, dst, branch, at, current) == AddEdge(closed, e);
      StretchingKeepsDiscipline(s, {current.value}, at);
      AddingKeepsDiscipline(closed, e);
      LaneAfterClosing(s, closed, slot, name, current.value, at);
    } else {
      AddingKeepsDiscipline(s, e);
      assert forall id :: Competitor(s.edges, slot, name, None, id) ==> Competitor(s.edges, slot, name, current, id);
    }
  }

  lemma LaneAfterClosing(s: Store, closed: Store, slot: Slot, name: BranchName, current: EdgeId, at: Time)
    requires current in s.edges && closed == CloseEdges(s, {current}, at)
    ensures LaneClosed(closed.edges, slot, name) <==> forall id :: Competitor(s.edges, slot, name, Some(current), id) ==> s.edges[id].until.Some?
  {
    assert forall id :: id in s.edges ==> closed.edges[id] == if id == current then s.edges[id].(until := Some(at)) else s.edges[id];
  }

  // ---------- Deleting an attribute ----------

  function DeletionMarkers(s: Store, results: seq<EdgeId>, branch: (BranchName, nat), at: Time): (r: Store)
    requires forall i :: 0 <= i < |results| ==> results[i] in s.edges
    ensures s.Valid() ==> r.Valid()
    ensures s.Valid() ==> forall id :: id in s.edges ==> id in r.edges && r.edges[id] == s.edges[id]
    ensures s.Valid() ==> forall id :: id in r.edges && id !in s.edges ==>
                            r.edges[id].status == Deleted && r.edges[id].since == at && r.edges[id].until == None
                            && r.edges[id].branch == branch.0 && r.edges[id].level == branch.1
    decreases |results|
  {
    if results == [] then s
    else
      var s' := DeletionMarkers(s, results[..|results| - 1], branch, at);
      var last := s.edges[results[|results| - 1]];
      AddEdge(s', Edge(last.slot, last.dst, branch.0, branch.1, at, None, Deleted, None))
  }

  /** The results that live on the branch which takes the deletion. */
  ghost function Mine(s: Store, results: seq<EdgeId>, branch: BranchName): set<EdgeId> {
    set id | id in results && id in s.edges && s.edges[id].branch == branch
  }

  ghost function DeleteProperties(s: Store, attribute: Edge, results: seq<EdgeId>, at: Time): Store
    requires forall i :: 0 <= i < |results| ==> results[i] in s.edges
  {
    if results == [] then s
    else AddEdge(CloseEdges(DeletionMarkers(s, results, (attribute.branch, attribute.level), at), Mine(s, results, attribute.branch), at), attribute)
  }

  /** `BaseAttribute.delete`; `results` are the property edges that the branch sees. */
  method DeleteAttribute(db: Database, slot: Slot, dst: VertexId, results: seq<EdgeId>, branch: BranchInfo, at: Time) returns (deleted: bool)
    requires db.Contents().Valid() && forall i :: 0 <= i < |results| ==> results[i] in db.edges
    modifies db
    ensures deleted <==> results != []
    ensures db.Contents() == DeleteProperties(old(db.Contents()),
                               Edge(slot, dst, WriteBranch(slot, branch).0, WriteBranch(slot, branch).1, at, None, Deleted, None), results, at)
  {
    if results == [] {
      return false;
    }
    var (name, level) := WriteBranch(slot, branch);
    var relIdsToUpdate: set<EdgeId> := {};
    ghost var s := db.Contents();
    for i := 0 to |results|
      invariant db.Contents() == DeletionMarkers(s, results[..i], (name, level), at)
      invariant relIdsToUpdate == Mine(s, results[..i], name)
    {
      var r := db.edges[results[i]];
      assert results[..i + 1] == results[..i] + [results[i]];
      assert results[..i + 1][..i] == results[..i];
      MineStep(s, results[..i], results[i], name);
      db.AddRelationship(r.slot, r.dst, name, level, at, Deleted);
      if r.branch == name {
        relIdsToUpdate := relIdsToUpdate + {results[i]};
      }
    }
    assert results[..|results|] == results;
    db.UpdateRelationshipsTo(relIdsToUpdate, at);
    db.AddRelationship(slot, dst, name, level, at, Deleted);
    return true;
  }

  /** The marker that deletes an edge: a deleted edge in its slot, on the branch that takes the deletion. */
  function DeletionOf(e: Edge, attribute: Edge): Edge {
    Edge(e.slot, e.dst, attribute.branch, attribute.level, attribute.since, None, Deleted, None)
  }

  /** A deletion adds one marker for each result, in its slot, and then the edge for the attribute, and nothing else; it ends the results
      that are on the branch that takes it, and no other edge. */
  lemma DeletedGraph(s: Store, attribute: Edge, results: seq<EdgeId>, at: Time)
    requires s.Valid() && (forall i :: 0 <= i < |results| ==> results[i] in s.edges) && attribute.since == at
    ensures var after := DeleteProperties(s, attribute, results, at);
            && (results == [] ==> after == s)
            && (results != [] ==> after.next == s.next + |results| + 1 && Listed(s, attribute, results, after.edges) && AddedLast(s, attribute, results, after.edges))
            && (forall id :: id in s.edges ==>
                  id in after.edges
                  && after.edges[id] == if id in results && s.edges[id].branch == attribute.branch then s.edges[id].(until := Some(at)) else s.edges[id])
            && (forall id :: id in after.edges && id !in s.edges ==> s.next <= id < after.next)
  {
    MarkersInOrder(s, results, attribute, at);
    if results != [] {
      var m, mine := DeletionMarkers(s, results, (attribute.branch, attribute.level), at), Mine(s, results, attribute.branch);
      ClosingKeepsMarkers(s, m, mine, at, results, attribute);
    }
  }

  /** A new edge is in the slot of a result or of the attribute. */
  lemma NewEdgeIsMarker(s: Store, attribute: Edge, results: seq<EdgeId>, at: Time, id: EdgeId)
    requires s.Valid() && (forall i :: 0 <= i < |results| ==> results[i] in s.edges) && attribute.since == at
    requires id in DeleteProperties(s, attribute, results, at).edges && id !in s.edges
    ensures var e := DeleteProperties(s, attribute, results, at).edges[id];
            e == attribute || exists r :: r in results && e == DeletionOf(s.edges[r], attribute)
  {
    DeletedGraph(s, attribute, results, at);
    NewIsListed(s, attribute, results, DeleteProperties(s, attribute, results, at), id);
  }

  lemma NewIsListed(s: Store, attribute: Edge, results: seq<EdgeId>, after: Store, id: EdgeId)
    requires (forall i :: 0 <= i < |results| ==> results[i] in s.edges) && s.next <= id < after.next == s.next + |results| + 1
    requires Listed(s, attribute, results, after.edges) && AddedLast(s, attribute, results, after.edges)
    ensures id in after.edges && (after.edges[id] == attribute || exists r :: r in results && after.edges[id] == DeletionOf(s.edges[r], attribute))
  {
    var i := id - s.next;
    if i < |results| {
      assert results[i] in results;
    }
  }

  /** All other slots keep their edges, and get none. */
  lemma DeletionStaysInItsSlots(s: Store, attribute: Edge, results: seq<EdgeId>, at: Time, other: Slot)
    requires s.Valid() && (forall i :: 0 <= i < |results| ==> results[i] in s.edges) && attribute.since == at
    requires other != attribute.slot && forall id :: id in results ==> s.edges[id].slot != other
    ensures SameInSlot(s.edges, DeleteProperties(s, attribute, results, at).edges, other)
  {
    var after := DeleteProperties(s, attribute, results, at).edges;
    DeletedGraph(s, attribute, results, at);
    forall id: EdgeId | id in after && id !in s.edges ensures after[id].slot != other {
      NewEdgeIsMarker(s, attribute, results, at, id);
    }
  }

  /** The markers follow one another in the order of the results. */
  ghost predicate Listed(s: Store, attribute: Edge, results: seq<EdgeId>, after: Edges) {
    forall i :: 0 <= i < |results| && results[i] in s.edges ==> s.next + i in after && after[s.next + i] == DeletionOf(s.edges[results[i]], attribute)
  }

  predicate AddedLast(s: Store, attribute: Edge, results: seq<EdgeId>, after: Edges) {
    s.next + |results| in after && after[s.next + |results|] == attribute
  }

  lemma ClosingKeepsMarkers(s: Store, m: Store, mine: set<EdgeId>, at: Time, results: seq<EdgeId>, attribute: Edge)
    requires s.Valid() && mine <= s.edges.Keys && Listed(s, attribute, results, m.edges) && m.next == s.next + |results|
    ensures Listed(s, attribute, results, AddEdge(CloseEdges(m, mine, at), attribute).edges)
    ensures AddedLast(s, attribute, results, AddEdge(CloseEdges(m, mine, at), attribute).edges)
  {
  }

  lemma {:induction false} MarkersInOrder(s: Store, results: seq<EdgeId>, attribute: Edge, at: Time)
    requires s.Valid() && (forall i :: 0 <= i < |results| ==> results[i] in s.edges) && attribute.since == at
    ensures var m := DeletionMarkers(s, results, (attribute.branch, attribute.level), at);
            m.next == s.next + |results| && Listed(s, attribute, results, m.edges) && forall id :: id in m.edges && id !in s.edges ==> s.next <= id < m.next
    decreases |results|
  {
    if results != [] {
      var init, n := results[..|results| - 1], |results| - 1;
      var m := DeletionMarkers(s, init, (attribute.branch, attribute.level), at);
      MarkersInOrder(s, init, attribute, at);
      OneMoreListed(s, attribute, init, results[n], m);
      assert init + [results[n]] == results;
    }
  }

  lemma OneMoreListed(s: Store, attribute: Edge, results: seq<EdgeId>, id: EdgeId, m: Store)
    requires Listed(s, attribute, results, m.edges) && m.next == s.next + |results| && id in s.edges
    ensures Listed(s, attribute, results + [id], AddEdge(m, DeletionOf(s.edges[id], attribute)).edges)
  {
  }

  lemma MineStep(s: Store, results: seq<EdgeId>, id: EdgeId, branch: BranchName)
    requires id in s.edges
    ensures Mine(s, results + [id], branch) == Mine(s, results, branch) + (if s.edges[id].branch == branch then {id} else {})
  {
  }

  /** After `e` has been closed at `at`, and `o` too if `both`, the two still follow one another. */
  predicate MakesWay(e: Edge, o: Edge, at: Time, both: bool) {
    at <= o.since || at <= e.since || (!both && o.until.Some? && o.until.value <= e.since)
  }

  /** Closing any edges now keeps the discipline exactly when each other live edge of their lanes makes way. */
  lemma ClosingTogetherKeepsDiscipline(s: Store, ids: set<EdgeId>, at: Time)
    requires Disciplined(s.edges) && NotAfter(s.edges, at)
    ensures NotAfter(CloseEdges(s, ids, at).edges, at)
    ensures Disciplined(CloseEdges(s, ids, at).edges) <==>
            forall i, o :: i in ids && i in s.edges && o in s.edges && o != i && SameLane(s.edges[i], s.edges[o]) ==>
              MakesWay(s.edges[i], s.edges[o], at, o in ids)
  {
    var c := CloseEdges(s, ids, at).edges;
    forall i, o | i in ids && i in s.edges && o in s.edges && o != i && SameLane(s.edges[i], s.edges[o])
      ensures SameLane(c[i], c[o]) && SameLane(c[o], c[i])
      ensures Apart(c[i], c[o]) <==> MakesWay(s.edges[i], s.edges[o], at, o in ids)
      ensures Apart(c[o], c[i]) <==> Apart(c[i], c[o])
    {
      assert Apart(s.edges[i], s.edges[o]);
    }
    if forall i, o :: i in ids && i in s.edges && o in s.edges && o != i && SameLane(s.edges[i], s.edges[o]) ==>
         MakesWay(s.edges[i], s.edges[o], at, o in ids)
    {
      forall i, j | i in c && j in c && i != j && SameLane(c[i], c[j]) ensures Apart(c[i], c[j]) {
        assert SameLane(s.edges[i], s.edges[j]) && SameLane(s.edges[j], s.edges[i]);
        assert Apart(s.edges[i], s.edges[j]);
      }
    }
  }

  /** Deleting leaves no live edge of the results open on the branch, and keeps the discipline exactly when the other live
      edges of their lanes make way for the closed ones; in particular when all the results are alive now. */
  lemma DeleteKeepsDiscipline(s: Store, attribute: Edge, results: seq<EdgeId>, at: Time)
    requires s.Valid() && Disciplined(s.edges) && NotAfter(s.edges, at)
    requires forall i :: 0 <= i < |results| ==> results[i] in s.edges
    requires results != [] && attribute.status == Deleted && attribute.since == at && attribute.until == None
    ensures var c, mine := DeleteProperties(s, attribute, results, at).edges, Mine(s, results, attribute.branch);
            && NotAfter(c, at)
            && (Disciplined(c) <==>
                  forall i, o :: i in mine && o in s.edges && o != i && SameLane(s.edges[i], s.edges[o]) ==>
                    MakesWay(s.edges[i], s.edges[o], at, o in mine))
            && ((forall id :: id in mine ==> Alive(s.edges[id], at)) ==> Disciplined(c))
            && forall id :: id in c && c[id].status == Active && c[id].until.None? ==> id in s.edges && id !in mine
  {
    var m, mine := DeletionMarkers(s, results, (attribute.branch, attribute.level), at), Mine(s, results, attribute.branch);
    MarkersKeepLanes(s, results, (attribute.branch, attribute.level), at);
    ClosingTogetherKeepsDiscipline(m, mine, at);
    AddingKeepsDiscipline(CloseEdges(m, mine, at), attribute);
    SameLanes(s, m, mine, at);
    if forall id :: id in mine ==> Alive(s.edges[id], at) {
      ClosingKeepsDiscipline(m, mine, at);
    }
    OpenAfterDeletion(s, m, mine, at, attribute);
  }

  lemma OpenAfterDeletion(s: Store, m: Store, mine: set<EdgeId>, at: Time, attribute: Edge)
    requires attribute.status == Deleted && forall id :: id in m.edges && m.edges[id].status == Active ==> id in s.edges
    ensures var c := AddEdge(CloseEdges(m, mine, at), attribute).edges;
            forall id :: id in c && c[id].status == Active && c[id].until.None? ==> id in s.edges && id !in mine
  {
  }

  /** Deletion markers are not live, so they change nothing about the lanes. */
  lemma MarkersKeepLanes(s: Store, results: seq<EdgeId>, branch: (BranchName, nat), at: Time)
    requires s.Valid() && Disciplined(s.edges) && NotAfter(s.edges, at)
    requires forall i :: 0 <= i < |results| ==> results[i] in s.edges
    ensures var m := DeletionMarkers(s, results, branch, at);
            m.Valid() && Disciplined(m.edges) && NotAfter(m.edges, at) && forall id :: id in m.edges && m.edges[id].status == Active ==> id in s.edges
  {
    var m := DeletionMarkers(s, results, branch, at);
    forall i, j | i in m.edges && j in m.edges && i != j && SameLane(m.edges[i], m.edges[j])
      ensures Apart(m.edges[i], m.edges[j])
    {
      assert i in s.edges && j in s.edges;
    }
  }

  lemma SameLanes(s: Store, m: Store, mine: set<EdgeId>, at: Time)
    requires mine <= s.edges.Keys
    requires forall id :: id in s.edges ==> id in m.edges && m.edges[id] == s.edges[id]
    requires forall id :: id in m.edges && m.edges[id].status == Active ==> id in s.edges
    ensures (forall i, o :: i in mine && i in m.edges && o in m.edges && o != i && SameLane(m.edges[i], m.edges[o]) ==>
               MakesWay(m.edges[i], m.edges[o], at, o in mine))
       <==> (forall i, o :: i in mine && o in s.edges && o != i && SameLane(s.edges[i], s.edges[o]) ==>
               MakesWay(s.edges[i], s.edges[o], at, o in mine))
  {
    if forall i, o :: i in mine && i in m.edges && o in m.edges && o != i && SameLane(m.edges[i], m.edges[o]) ==>
         MakesWay(m.edges[i], m.edges[o], at, o in mine)
    {
      forall i, o | i in mine && o in s.edges && o != i && SameLane(s.edges[i], s.edges[o])
        ensures MakesWay(s.edges[i], s.edges[o], at, o in mine)
      {
        assert SameLane(m.edges[i], m.edges[o]);
      }
    }
  }
}
