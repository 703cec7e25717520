/** Tracked runs: a run records what it saved in a group and deletes what the group held before and the run did not save again. */
module TrackedGroups {
  import opened Common

  type Id = string
  type GroupName = string

  datatype Group = Group(members: set<Id>, children: set<Id>) {
    function Ids(): set<Id> {
      members + children
    }
  }

  datatype ServerState = ServerState(live: set<Id>, groups: map<GroupName, Group>)

  /** The server: the objects that exist, and the stored groups. Every peer has a type name, so every deletion goes through. */
  class Server {
    var live: set<Id>
    var groups: map<GroupName, Group>

    constructor ()
      ensures State() == ServerState({}, map[])
    {
      live, groups := {}, map[];
    }

    function State(): ServerState
      reads this
    {
      ServerState(live, groups)
    }
  }

  datatype Mode = Default | Tracking

  /** The context of one run. */
  class GroupContext {
    const server: Server
    const mode: Mode
    const clientUpdates: bool
    var relatedNodeIds: seq<Id>
    var relatedGroupIds: seq<Id>
    var unusedMemberIds: set<Id>
    var unusedChildIds: set<Id>
    var previousMembers: set<Id>
    var previousChildren: set<Id>
    var deleteUnusedNodes: bool

    constructor (server: Server, mode: Mode, clientUpdates: bool, deleteUnusedNodes: bool)
      ensures this.server == server && this.mode == mode && this.clientUpdates == clientUpdates && this.deleteUnusedNodes == deleteUnusedNodes
      ensures relatedNodeIds == [] && relatedGroupIds == []
      ensures previousMembers == previousChildren == unusedMemberIds == unusedChildIds == {}
    {
      this.server, this.mode, this.clientUpdates, this.deleteUnusedNodes := server, mode, clientUpdates, deleteUnusedNodes;
      relatedNodeIds, relatedGroupIds := [], [];
      unusedMemberIds, unusedChildIds, previousMembers, previousChildren := {}, {}, {}, {};
    }

    predicate Records(updateGroupContext: Option<bool>)
    {
      updateGroupContext != Some(false) && (mode == Tracking || clientUpdates || updateGroupContext == Some(true))
    }

    method AddRelatedNodes(ids: seq<Id>, updateGroupContext: Option<bool>)
      modifies this`relatedNodeIds
      ensures relatedNodeIds == old(relatedNodeIds)
                + if updateGroupContext != Some(false) && (mode == Tracking || clientUpdates || updateGroupContext == Some(true)) then ids else []
    {
      if Records(updateGroupContext) {
        relatedNodeIds := relatedNodeIds + ids;
      }
    }

    method AddRelatedGroups(ids: seq<Id>, updateGroupContext: Option<bool>)
      modifies this`relatedGroupIds
      ensures relatedGroupIds == old(relatedGroupIds)
                + if updateGroupContext != Some(false) && (mode == Tracking || clientUpdates || updateGroupContext == Some(true)) then ids else []
    {
      if Records(updateGroupContext) {
        relatedGroupIds := relatedGroupIds + ids;
      }
    }

    /** Deletes the previous members and children that are unused. */
    method DeleteUnused()
      requires unusedMemberIds <= previousMembers && unusedChildIds <= previousChildren
      modifies server
      ensures server.State() == old(server.State()).(live := old(server.live) - unusedMemberIds - unusedChildIds)
    {
      var members := previousMembers;
      while members != {}
        invariant members <= previousMembers && server.groups == old(server.groups)
        invariant server.live == old(server.live) - (unusedMemberIds - members)
        decreases members
      {
        var member :| member in members;
        members := members - {member};
        if member in unusedMemberIds {
          server.live := server.live - {member};
        }
      }
      var children := previousChildren;
      while children != {}
        invariant children <= previousChildren && server.groups == old(server.groups)
        invariant server.live == old(server.live) - unusedMemberIds - (unusedChildIds - children)
        decreases children
      {
        var child :| child in children;
        children := children - {child};
        if child in unusedChildIds {
          server.live := server.live - {child};
        }
      }
    }

    /** `update_group`: stores what the run used, and removes what it left unused. */
    method UpdateGroup(name: GroupName)
      modifies this, server
      ensures server.State() == Update(old(server.State()), name, Saved(old(relatedNodeIds), old(relatedGroupIds)), old(deleteUnusedNodes))
      ensures relatedNodeIds == old(relatedNodeIds) && relatedGroupIds == old(relatedGroupIds)
      ensures old(relatedNodeIds) == [] && old(relatedGroupIds) == [] ==> server.live == old(server.live) && server.groups == old(server.groups)
      ensures old(relatedNodeIds) != [] || old(relatedGroupIds) != [] ==>
                && name in server.groups && server.groups - {name} == old(server.groups) - {name}
                && server.groups[name] == Group(set id | id in old(relatedNodeIds), set id | id in old(relatedGroupIds))
      ensures forall id :: id in server.live <==>
                id in old(server.live)
                && !(old(deleteUnusedNodes) && (old(relatedNodeIds) != [] || old(relatedGroupIds) != []) && name in old(server.groups)
                     && ((id in old(server.groups)[name].members && id !in old(relatedNodeIds))
                         || (id in old(server.groups)[name].children && id !in old(relatedGroupIds))))
    {
      var children := set id | id in relatedGroupIds;
      var members := set id | id in relatedNodeIds;
      assert relatedNodeIds != [] ==> relatedNodeIds[0] in members;
      assert relatedGroupIds != [] ==> relatedGroupIds[0] in children;
      if children == {} && members == {} {
        return;
      }
      var existing: Option<Group> := None;
      if deleteUnusedNodes && name in server.groups {
        existing := Some(server.groups[name]);
        previousMembers := existing.value.members;
        previousChildren := existing.value.children;
      }
      server.groups := server.groups[name := Group(members, children)];
      if existing.None? {
        return;
      }
      unusedMemberIds := existing.value.members - members;
      unusedChildIds := existing.value.children - children;
      if !deleteUnusedNodes {
        return;
      }
      DeleteUnused();
    }
  }

  function Saved(nodes: seq<Id>, groups: seq<Id>): Group {
    Group(set id | id in nodes, set id | id in groups)
  }

  function Update(s: ServerState, name: GroupName, saved: Group, deleteUnused: bool): ServerState {
    if saved.Ids() == {} then s
    else
      var stored := s.groups[name := saved];
      if deleteUnused && name in s.groups then
        ServerState(s.live - (s.groups[name].members - saved.members) - (s.groups[name].children - saved.children), stored)
      else s.(groups := stored)
  }

  // ---------- Whole runs ----------

  /** A tracked run saves its objects, and updates the group when it exits cleanly. */
  function TrackedRun(s: ServerState, name: GroupName, saved: Group): ServerState {
    Update(s.(live := s.live + saved.Ids()), name, saved, true)
  }

  function TrackedRuns(s: ServerState, name: GroupName, runs: seq<Group>): ServerState {
    if runs == [] then s else TrackedRun(TrackedRuns(s, name, runs[..|runs| - 1]), name, runs[|runs| - 1])
  }

  /** Everything that some run of the group has saved. */
  function EverSaved(runs: seq<Group>): set<Id> {
    if runs == [] then {} else EverSaved(runs[..|runs| - 1]) + runs[|runs| - 1].Ids()
  }

  /** What the last run that saved anything has saved. */
  function LastSaved(runs: seq<Group>): Group {
    if runs == [] then Group({}, {})
    else if runs[|runs| - 1].Ids() != {} then runs[|runs| - 1]
    else LastSaved(runs[..|runs| - 1])
  }

  function Stored(s: ServerState, name: GroupName): Group {
    if name in s.groups then s.groups[name] else Group({}, {})
  }

  /** A run deletes nothing it saved itself exactly when it does not save, as a node, what the group held as a child only it
      dropped, or the other way round. */
  lemma RunKeepsItsOwn(s: ServerState, name: GroupName, saved: Group)
    ensures saved.Ids() <= TrackedRun(s, name, saved).live <==>
            saved.members !! (Stored(s, name).children - saved.children) && saved.children !! (Stored(s, name).members - saved.members)
  {
    var held := Stored(s, name);
    if saved.Ids() != {} && name in s.groups {
      assert TrackedRun(s, name, saved).live == s.live + saved.Ids() - (held.members - saved.members) - (held.children - saved.children);
    }
  }

  /** No id is saved as a node in one run and as a group in another. */
  ghost predicate NodesAreNotGroups(runs: seq<Group>) {
    forall i, j :: 0 <= i < |runs| && 0 <= j < |runs| ==> runs[i].members !! runs[j].children
  }

  lemma {:induction false} LastIsSome(runs: seq<Group>)
    ensures LastSaved(runs) == Group({}, {}) || exists i :: 0 <= i < |runs| && runs[i] == LastSaved(runs)
  {
    if runs != [] {
      var init := runs[..|runs| - 1];
      LastIsSome(init);
      if i :| 0 <= i < |init| && init[i] == LastSaved(init) {
        assert runs[i] == init[i];
      }
    }
  }

  /** After any sequence of tracked runs of one group, the live objects that runs of it ever saved are those of the last run
      that saved anything, and the group lists exactly them. */
  lemma {:induction false} LiveIsLastSaved(s: ServerState, name: GroupName, runs: seq<Group>)
    requires name !in s.groups && NodesAreNotGroups(runs)
    ensures var s' := TrackedRuns(s, name, runs);
            && s'.live * EverSaved(runs) == LastSaved(runs).Ids()
            && Stored(s', name) == LastSaved(runs)
            && s.live - EverSaved(runs) <= s'.live
  {
    if runs != [] {
      var init, saved := runs[..|runs| - 1], runs[|runs| - 1];
      assert forall i :: 0 <= i < |init| ==> init[i] == runs[i];
      LiveIsLastSaved(s, name, init);
      LastIsSome(init);
      var before := TrackedRuns(s, name, init);
      var held := Stored(before, name);
      assert held.members !! saved.children && held.children !! saved.members;
      if saved.Ids() == {} {
        assert TrackedRuns(s, name, runs).live == before.live;
      } else {
        var live := TrackedRuns(s, name, runs).live;
        assert live == before.live + saved.Ids() - (held.members - saved.members) - (held.children - saved.children);
        assert held.Ids() == before.live * EverSaved(init);
      }
    }
  }
}
