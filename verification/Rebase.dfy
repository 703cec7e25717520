/** Rebasing a branch: every edge of the branch is either restarted at the rebase time or removed. */
module Rebase {
  import opened Common
  import opened TemporalGraph
  import opened AttributeWrites

  class Registry {
    var branches: map<BranchName, BranchInfo>

    constructor ()
      ensures branches == map[]
    {
      branches := map[];
    }
  }

  class Branch {
    const name: BranchName
    const origin: BranchName
    const level: nat
    const isDefault: bool
    const isIsolated: bool
    var branchedFrom: Time

    constructor (info: BranchInfo)
      ensures Info() == info
    {
      name, origin, level := info.name, info.origin, info.level;
      isDefault, isIsolated := info.isDefault, info.isIsolated;
      branchedFrom := info.branchedFrom;
    }

    function Info(): BranchInfo
      reads this
    {
      BranchInfo(name, origin, branchedFrom, level, isDefault, isIsolated)
    }

    /** Reads all edges of the branch, in whatever order the query returns them, and sorts them into two lists. */
    method RebaseGraph(db: Database, at: Time) returns (relsToUpdate: set<EdgeId>, relsToDelete: set<EdgeId>)
      modifies db
      ensures relsToUpdate !! relsToDelete
      ensures relsToUpdate + relsToDelete == set id | id in old(db.edges) && old(db.edges)[id].branch == name
      ensures forall id :: id in relsToUpdate ==> Kept(old(db.edges)[id], at)
      ensures db.Contents() == RebaseStore(old(db.Contents()), name, at)
    {
      relsToUpdate, relsToDelete := {}, {};
      var results := set id | id in db.edges && db.edges[id].branch == name;
      ghost var all := results;
      while results != {}
        invariant results <= all && results !! relsToUpdate && results !! relsToDelete && relsToUpdate !! relsToDelete
        invariant results + relsToUpdate + relsToDelete == all
        invariant forall id :: id in relsToUpdate ==> Kept(db.edges[id], at)
        invariant forall id :: id in relsToDelete ==> !Kept(db.edges[id], at)
        invariant unchanged(db)
        decreases results
      {
        var id :| id in results;
        results := results - {id};
        var r := db.edges[id];
        if r.conflict == Some("drop") {
          relsToDelete := relsToDelete + {id};
        } else if r.until.None? && r.since <= at {
          relsToUpdate := relsToUpdate + {id};
        } else if r.until.None? && r.since > at {
          relsToDelete := relsToDelete + {id};
        } else if r.until.value < at {
          relsToDelete := relsToDelete + {id};
        } else {
          relsToUpdate := relsToUpdate + {id};
        }
      }
      var updated := map id | id in db.edges :: if id in relsToUpdate then db.edges[id].(since := at, conflict := None) else db.edges[id];
      db.edges := updated - relsToDelete;
    }

    method Rebase(db: Database, registry: Registry, at: Time)
      modifies this, db, registry
      ensures db.Contents() == RebaseStore(old(db.Contents()), name, at)
      ensures Info() == old(Info()).(branchedFrom := at)
      ensures registry.branches == old(registry.branches)[name := Info()]
    {
      var _, _ := RebaseGraph(db, at);
      branchedFrom := at;
      registry.branches := registry.branches[name := Info()];
    }
  }

  predicate Dropped(e: Edge) {
    e.conflict == Some("drop")
  }

  predicate Kept(e: Edge, at: Time) {
    !Dropped(e) && if e.until.None? then e.since <= at else at <= e.until.value
  }

  function RebaseStore(s: Store, branch: BranchName, at: Time): Store {
    s.(edges := map id | id in s.edges && (s.edges[id].branch == branch ==> Kept(s.edges[id], at)) ::
         if s.edges[id].branch == branch then s.edges[id].(since := at, conflict := None) else s.edges[id])
  }

  /** The edge belongs to the branch and is visible on it at this time. */
  predicate VisibleOn(edges: Edges, branch: BranchName, t: Time, id: EdgeId) {
    id in edges && edges[id].branch == branch && Alive(edges[id], t)
  }

  /** A closed edge that starts after the rebase time, and is nevertheless restarted at it. */
  predicate PulledBack(e: Edge, at: Time) {
    !Dropped(e) && e.until.Some? && at <= e.until.value && at < e.since
  }

  /** An open edge that starts after t1, which a rebase at t1 removes and a rebase at t2 keeps. */
  predicate LostBetween(e: Edge, t1: Time, t2: Time) {
    !Dropped(e) && e.until.None? && t1 < e.since <= t2
  }

  /** Apart from conflict drops, a rebase shows at its own instant exactly the branch edges visible there before,
      unless a closed edge of the branch starts in the future; survivors start at that instant; other branches are untouched. */
  lemma RebaseKeepsVisible(s: Store, branch: BranchName, at: Time)
    ensures var r := RebaseStore(s, branch, at).edges;
            (forall id :: VisibleOn(r, branch, at, id) <==> VisibleOn(s.edges, branch, at, id) && s.edges[id].conflict != Some("drop"))
            <==> (forall id :: id in s.edges && s.edges[id].branch == branch ==> !PulledBack(s.edges[id], at))
    ensures var r := RebaseStore(s, branch, at).edges;
            forall id :: id in r ==>
              && id in s.edges && r[id] == (if s.edges[id].branch == branch then s.edges[id].(since := at, conflict := None) else s.edges[id])
              && (s.edges[id].branch == branch ==> Alive(r[id], at))
    ensures forall id :: id in s.edges && s.edges[id].branch != branch ==> id in RebaseStore(s, branch, at).edges
  {
    var r := RebaseStore(s, branch, at).edges;
    forall id | id in s.edges && s.edges[id].branch == branch
      ensures VisibleOn(r, branch, at, id) <==> Kept(s.edges[id], at)
    {
    }
    if id :| id in s.edges && s.edges[id].branch == branch && PulledBack(s.edges[id], at) {
      assert VisibleOn(r, branch, at, id) && !VisibleOn(s.edges, branch, at, id);
    }
  }

  lemma RebaseIsIdempotent(s: Store, branch: BranchName, at: Time)
    ensures RebaseStore(RebaseStore(s, branch, at), branch, at) == RebaseStore(s, branch, at)
  {
    var r := RebaseStore(s, branch, at).edges;
    assert forall id :: id in r && r[id].branch == branch ==> Kept(r[id], at);
  }

  /** Rebasing twice amounts to the later rebase exactly when no open edge of the branch starts between the two. */
  lemma RebasesCompose(s: Store, branch: BranchName, t1: Time, t2: Time)
    requires t1 <= t2
    ensures RebaseStore(RebaseStore(s, branch, t1), branch, t2) == RebaseStore(s, branch, t2)
            <==> forall id :: id in s.edges && s.edges[id].branch == branch ==> !LostBetween(s.edges[id], t1, t2)
  {
    var r1 := RebaseStore(s, branch, t1).edges;
    var r12 := RebaseStore(RebaseStore(s, branch, t1), branch, t2).edges;
    var r2 := RebaseStore(s, branch, t2).edges;
    forall id | id in s.edges
      ensures id in r12 ==> id in r2 && r12[id] == r2[id]
      ensures id in r2 && id !in r12 <==> s.edges[id].branch == branch && LostBetween(s.edges[id], t1, t2)
    {
    }
    if r12.Keys == r2.Keys {
      assert r12 == r2;
    } else {
      var id :| id in r2 && id !in r12;
    }
  }

  lemma RebaseKeepsDiscipline(s: Store, branch: BranchName, at: Time)
    requires s.Valid() && Disciplined(s.edges) && NotAfter(s.edges, at)
    ensures var r := RebaseStore(s, branch, at); r.Valid() && Disciplined(r.edges) && NotAfter(r.edges, at)
  {
    var r := RebaseStore(s, branch, at).edges;
    forall i, j | i in r && j in r && i != j && SameLane(r[i], r[j])
      ensures Apart(r[i], r[j])
    {
      assert Apart(s.edges[i], s.edges[j]);
    }
  }
}
