# Infrahub: a verified model of its branching graph and of the algorithms around it

Infrahub stores its data in a graph in which every edge belongs to a branch and is valid for an interval of time. A user
works on a branch, reads the default branch through it as of the time the branch was cut, and later rebases the branch or
merges it. This project models that machinery in Dafny, together with the pure and imperative algorithms that it leans on:
the merge of schemas, the layered dependency sort, the lock protocol, the GraphQL printer, the reduction of update payloads,
the menu, profiles, tracked groups and the identifiers.

`dafny verify dfyconfig.toml` checks everything. Each file holds one module.

| file | what it models |
|---|---|
| `TemporalGraph.dfy` | edges, windows, visibility, how competing edges are resolved, the two primitive database updates |
| `BranchFilter.dfy` | the query filters of a branch as token texts, and a reader that gives them their meaning |
| `AttributeWrites.dfy` | updating and deleting an attribute, and the discipline of intervals that writes keep |
| `Rebase.dfy`, `Merge.dfy` | rebasing a branch; the conflict gate and the replay of a diff on the default branch |
| `GraphRuns.dfy`, `GraphReads.dfy`, `AttributeSaves.dfy` | all these operations as steps of one state machine, what every safe step and run keeps, what a branch reads in the course of a run, and the save of a whole attribute as such a run |
| `SchemaUpdate.dfy`, `SchemaAssociativity.dfy` | the recursive, keyed merge of schema models |
| `DeepMerge.dfy` | the conflict-detecting union of nested dictionaries behind the three-way schema diff |
| `TopologicalSort.dfy` | cycle search that empties its own input, and the layered sort |
| `Locks.dfy` | lock registry, multi-locks and the set-if-absent lock, for any number of processes and tasks |
| `GraphQLPrinter.dfy`, `GraphQLReader.dfy`, `GraphQLSafety.dfy`, `GraphQLRoundTrip.dfy`, `GraphQLLayout.dfy` | the printer, a reader for what it prints, which data can be read back, the round trip and the layout |
| `StripUnmodified.dfy`, `Menu.dfy`, `Profiles.dfy`, `TrackedGroups.dfy`, `Encodings.dfy` | the smaller algorithms |
| `Common.dfy`, `StableSort.dfy` | result types, string order, a stable sort with its properties |

## How the model reads the source

* Timestamps are integers. Both ends of an edge's interval are included, as in the filters: at the very instant of a write
  the old and the new edge are visible together.
* The graph is a map from edge ids to edges. Edges in the same *slot* (the same attribute, property or relation of the same
  owner) compete: the higher branch level wins, then the later start. `Shows` says that all best edges agree.
* A diff is a list of changed elements with the ids of their edges; computing it is not part of this model. A well-formed
  diff names, for each touched slot, a newest open edge of the source branch and, where there is one, an edge of the default
  branch. Older edges that a deletion left open beside its markers may stand in the slot as well.
* A deletion selects its results through the branch that takes it: for agnostic elements that is the global branch, whose window on
  its own origin lies at its creation, before all data.
* Where the source goes through a set, the order is free: the update of a schema model is a relation between its arguments and each
  result that some order gives (`SchemaUpdate.May`), and what is proved holds for every one of them.
* Code that changes state is a class or a method with a loop, and its contract ties the new state to a function of the old
  one. What the source promises is proved about those functions.

## Where the code does less than its description

Each of these comes with the exact condition under which the code meets the description, or with the failing case.

* *An agnostic value created on a user branch goes stale, and then breaks its lane.* The edge of such a value is on the global
  branch and keeps the level of the user branch, so it beats every later value. An isolated branch that is cut before the value
  is updated reads the old value for ever (`GraphReads.AgnosticCreationOnBranchReadsStale`), and an update on it takes the old
  edge for the current one: two live edges stay open, and a past read changes (`GraphReads.StaleUpdateBreaksDiscipline`).
  `GraphRuns.Step` says for every operation, in every state that satisfies the invariant, when it keeps it; for an update that is
  exactly when the branch does not see an ended edge with a user level. Even without that, an isolated branch may not read its
  own write or deletion, and any branch may not if something else was written to the slot at the same instant;
  `GraphReads.WriteIsRead` and `GraphReads.DeletionIsRead` say exactly when it does.
* *Global edges are read through the cut as well.* `GraphReads.GlobalReadIsExact` says exactly when an ended edge disturbs the
  read: if a user branch created it, or if it was opened and closed at the very time of the cut and nothing started since.
* *Removed relationship properties come back.* `merge_graph` computes a status for them and does not pass it on
  (`backend/infrahub/core/merge.py:413-430`). `Merge.MergeThenAgree`: a replayed element reads alike on both branches if and only if it is not such a removal.
* *A conflict resolved against the branch is replayed all the same* if the element is an added or removed attribute property, or
  belongs to a kind for which the resolution is not looked at: `Merge.RejectedConflict`.
* *A conflict resolved for the branch can leave two open edges.* The origin id of an element may name an edge that the
  default branch has closed since; what it opened in its place stays open beside the merged value
  (`Merge.NewerValueStaysOpen`). `Merge.MergeKeepsDiscipline` says exactly when the result is in order.
* *Added nodes appear late.* Nodes are added through a query that takes the current time and not the merge time:
  `Merge.AddedNodeAppearsLate`.
* *Rebase pulls closed edges back in time* if they start in the future (`Rebase.RebaseKeepsVisible`), and a rebase in between
  loses open edges that start between the two times (`Rebase.RebasesCompose`).
* *Isolation is not strict at the cut.* What the origin adds at the very time of the cut is seen: `GraphReads.CutIsExact`.
* *Schema updates with removals are not idempotent* when a removal matched by id carries a name that another item answers to
  the second time, or when a present item repeats an id: `SchemaUpdate.UpdateTwice`, with the smallest case of the first kind in
  `SchemaUpdate.SecondMergeRemovesAnother`.
* *A tracked run can delete what it saved* if it saves as a node what the group held as a child: `TrackedGroups.RunKeepsItsOwn`.
* *The GraphQL printer writes text that is no GraphQL* for a dictionary that holds nothing to print (only filters, say), and for
  a fragment with an alias, with filters or without a block: `GraphQLRoundTrip.QueryRoundTrip`. Texts are not escaped: one with
  quotes, backslashes, line ends or other characters that GraphQL does not take as they are is not read back
  (`GraphQLRoundTrip.TextRoundTrip`). A None inside an input is printed as the word `None` and not as `null`; no input that
  holds one is read back (`GraphQLRoundTrip.InputRoundTrip`).

## Model

| member | source | states |
|---|---|---|
| TemporalGraph.Database.AddRelationship | backend/infrahub/core/utils.py:19-51 | a new open edge under a fresh id, all other edges as before |
| TemporalGraph.Database.UpdateRelationshipsTo | backend/infrahub/core/utils.py:63-85 | exactly the listed edges get the new end, whatever end they had; an empty list changes nothing |
| TemporalGraph.TopExists | backend/infrahub/core/branch.py:181-202 | a slot with any visible edge has a best one, so every read is answered |
| TemporalGraph.AnswerIsUnique | backend/infrahub/core/branch.py:181-202 | a slot reads as at most one value through any windows |
| TemporalGraph.SeenThroughWindows | backend/infrahub/core/branch.py:181-202 | which edges a branch sees: its own and global ones at the query time, and those of its origin as of the cut if the branch and the read are isolated and the cut lies before, and at the query time otherwise |
| BranchFilter.GetQueryFilterRelationships | backend/infrahub/core/branch.py:244-279 | the loops over labels and windows build the specified texts and pass the windows as parameters, in both modes |
| BranchFilter.GetQueryFilterPath | backend/infrahub/core/branch.py:281-316 | the path filter and its parameters, branch-agnostic or over the windows of the branch |
| BranchFilter.BracketedMeansSelected | backend/infrahub/core/branch.py:266-277 | the bracketed clauses of a label, followed by anything, read as one factor that is true exactly of edges visible through some window |
| BranchFilter.FilterPreservesMeaning | backend/infrahub/core/branch.py:244-279 | joined with AND and read with AND binding tighter than OR, the parenthesised filters are true exactly when every labelled edge is visible by the interval definition |
| BranchFilter.EachFilterAlone | backend/infrahub/core/branch.py:263-277 | in the default mode each label has two filters, and each of them, read alone, is true exactly when the edge is visible |
| BranchFilter.PathFilterPreservesMeaning | backend/infrahub/core/branch.py:281-316 | the path filter is true of an edge exactly when the edge is the branch's own or global and alive at that time, or of the origin or global and alive at the cut or at that time, as isolation says; in agnostic mode, when it is alive at that time on any branch |
| AttributeWrites.UpdateAttribute | backend/infrahub/core/attribute.py:385-428 | value, flags and properties are written one after the other where they differ; an old edge is closed only if it is on the branch that takes the write; what the save computes is said by the next three rows |
| AttributeWrites.SavedProperty | backend/infrahub/core/attribute.py:385-428 | a property whose wanted vertex is not what its current edge points at gets one new open live edge to that vertex, and the old one, if on the same branch, ends; any other property keeps its edges |
| AttributeWrites.OtherSlotsStay | backend/infrahub/core/attribute.py:385-428 | every slot that is not wanted keeps its edges, and gets none |
| AttributeWrites.SavingTheSameChangesNothing | backend/infrahub/core/attribute.py:385-428 | saving what the current edges say changes nothing |
| AttributeWrites.WriteKeepsDiscipline | backend/infrahub/core/attribute.py:387-396 | a write keeps at most one open live edge per slot and branch with non-overlapping intervals if and only if the replaced edge is the latest of its lane |
| AttributeWrites.StretchingKeepsDiscipline | backend/infrahub/core/utils.py:63-85 | closing a set of edges now keeps the discipline if and only if no later live edge of their lanes is in the way |
| AttributeWrites.AddingKeepsDiscipline | backend/infrahub/core/utils.py:19-51 | an added edge fits if and only if it is a deletion marker or its lane is closed |
| AttributeWrites.DeleteAttribute | backend/infrahub/core/attribute.py:298-348 | one deletion marker per visible property edge and one for the attribute; own edges closed; nothing happens without results |
| AttributeWrites.DeletedGraph | backend/infrahub/core/attribute.py:311-346 | the graph after a deletion: one marker per result in its slot, then the deleted edge of the attribute, nothing else is added; exactly the own results end |
| AttributeWrites.ClosingTogetherKeepsDiscipline | backend/infrahub/core/utils.py:63-85 | closing any edges at once keeps the discipline if and only if each other live edge of their lanes makes way |
| AttributeWrites.DeleteKeepsDiscipline | backend/infrahub/core/attribute.py:311-346 | a deletion leaves no live edge of the results open on the branch, and keeps the discipline if and only if the other live edges of their lanes make way; in particular when all results are alive now |
| Rebase.Branch.RebaseGraph | backend/infrahub/core/branch.py:456-495 | every edge of the branch, and no other, lands in exactly one of the two lists; the graph afterwards |
| Rebase.Branch.Rebase | backend/infrahub/core/branch.py:436-454 | the graph is rebased, the branch restarts at the given time, the registry holds the updated branch |
| Rebase.RebaseKeepsVisible | backend/infrahub/core/branch.py:464-489 | at the rebase instant the branch shows exactly what it showed, minus conflict drops, if and only if no closed edge starts in the future; survivors start there, lose their conflict mark and are otherwise the same; edges of other branches are untouched |
| Rebase.RebaseIsIdempotent | backend/infrahub/core/branch.py:456-495 | rebasing twice at one time is rebasing once |
| Rebase.RebasesCompose | backend/infrahub/core/branch.py:476-482 | rebasing at t1 and then at t2 is rebasing at t2 if and only if no open edge of the branch starts in between |
| Rebase.RebaseKeepsDiscipline | backend/infrahub/core/branch.py:456-495 | a rebase keeps lanes free of overlap |
| Merge.MergeBranch | backend/infrahub/core/merge.py:233-266 | the merge goes through exactly when every conflict has a resolution, the branches differ and the diff is complete; otherwise the error names exactly the unresolved conflicts, and the gate leaves everything unchanged |
| Merge.MergeGraph | backend/infrahub/core/merge.py:268-439 | the replay: which edges are written and closed, when the branch is restarted, and what an incomplete relationship leaves behind |
| Merge.SucceedsWithoutGaps | backend/infrahub/core/merge.py:391-399 | a merge fails exactly when a relationship that is to be replayed lacks its edge |
| Merge.EndsByKind | backend/infrahub/core/merge.py:295-433 | per kind, action and resolution: whether the reported edge of the branch and the edge of the default branch that the element names end at the merge time, or stay as they are |
| Merge.ReplayedSlot | backend/infrahub/core/merge.py:295-433 | in the slot of a replayed element exactly one edge is added, with the value, status, level and time that its kind and action call for; the named edges end, all others stay |
| Merge.RestartsForAReplay | backend/infrahub/core/merge.py:432-439 | the branch is restarted exactly when some element is replayed |
| Merge.SourceShowedChange | backend/infrahub/core/merge.py:280-295 | before the merge the branch showed, in each touched slot, what the diff reports, whatever older edges and markers stand open beside the reported one |
| Merge.MainShowsReplay | backend/infrahub/core/merge.py:295-430 | from the merge time on - for added nodes from the current time on - the default branch shows the value of each replayed element, or nothing for a removal, at every time |
| Merge.MergeThenAgree | backend/infrahub/core/merge.py:268-439 | for every element that stands for an edge: if it is replayed, the default branch shows from then on, at every time, what the source branch showed, if and only if it is not the removal of a relationship property; if it is left out, the two agree if and only if they did before |
| Merge.MainKeepsTheRest | backend/infrahub/core/merge.py:295-430 | slots for which nothing is replayed read on the default branch as before, at every time |
| Merge.RejectedConflict | backend/infrahub/core/merge.py:335-398 | a conflict resolved against the branch leaves the default branch's value in place if and only if the element is not of a kind and action that is replayed whatever the resolution says |
| Merge.SourceFollowsMain | backend/infrahub/core/merge.py:432-439 | after the merge the source branch reads each slot as the default branch does, unless it still holds an open edge of its own there; then it goes on showing a newest one |
| Merge.SourceFollowsTouched | backend/infrahub/core/merge.py:432-439 | in the slot of a replayed element the restarted branch reads what the default branch reads, at every later time, if the reported edge was its only open one there; in that of an element left out it goes on showing its change |
| Merge.AddedNodeAppearsLate | backend/infrahub/core/merge.py:296-300 | a default branch that never had the node shows it exactly from the current time on, not from the merge time on |
| Merge.NewerValueStaysOpen | backend/infrahub/core/merge.py:348-362 | a value the default branch opened after the edge that the diff names was closed stays open beside the merged value |
| Merge.MergeKeepsDiscipline | backend/infrahub/core/merge.py:295-433 | a merge keeps the discipline if and only if each replay closes every open rival of its slot and stretches no closed edge over a later one |
| GraphRuns.StartIsSound | backend/infrahub/core/branch.py:27-50 | the state with nothing but the default branch satisfies the invariant |
| GraphRuns.Step | backend/infrahub/core/merge.py:268-439 | every step - creation, write, deletion, fork, rebase, merge, passing time - keeps the invariant and only ages the edges it is not entitled to rewrite if and only if it is safe: an update reads no outlived edge, a merge closes only edges that are alive, and replayed elements fit the default branch |
| GraphRuns.NewestCanBeMerged | backend/infrahub/core/merge.py:268-295 | in every sound state, whatever was done on a branch, a newest open edge of a slot can be reported and merged; a deletion's marker beside the deleted edge is one |
| GraphRuns.StaleUpdateBreaks | backend/infrahub/core/attribute.py:385-396 | an update through an outlived edge takes that edge for the current one, gives it a new end, and leaves any other live edge open beside its own |
| GraphRuns.InvariantOverRuns | backend/infrahub/core/attribute.py:350-428 | after every run of safe steps lanes have at most one open edge, intervals do not overlap, and lanes of the default and global branch have no gap |
| GraphRuns.ReadPicksTheLatest | backend/infrahub/core/attribute.py:373-396 | unless the branch sees an outlived edge, the edge that an update reads as current is the one whose replacement keeps the discipline, and is alive |
| GraphRuns.OneValuePerBranch | backend/infrahub/core/attribute.py:387-396 | after every safe run, at a time that is no write instant, a branch shows at most one live edge per slot |
| GraphRuns.PastReadsAreStable | backend/infrahub/core/attribute.py:350-428 | no sequence of later safe operations changes a past read of a branch that is not rebased |
| GraphReads.WriteIsRead | backend/infrahub/core/attribute.py:387-396 | from a safe update on, at any time, the branch reads the new value if and only if the ended edge of a user branch that still decides the slot has that value, or, where there is none, every edge that started at the same instant and is still seen has it |
| AttributeSaves.SaveIsARun | backend/infrahub/core/attribute.py:385-428 | if its current edges are what the branch reads and none is outlived, a save is a run of safe updates for exactly the changed properties |
| AttributeSaves.SavedIsRead | backend/infrahub/core/attribute.py:385-428 | after the save of a whole attribute the branch reads each changed property under the exact condition of a single update |
| AttributeSaves.UnsavedIsReadAsBefore | backend/infrahub/core/attribute.py:385-428 | every slot that a save does not change reads as before, through any windows |
| GraphReads.DeletionIsRead | backend/infrahub/core/attribute.py:311-346 | from a deletion on, at any time, the branch reads nothing in the slots of the results if and only if no edge of a user branch survives there for it, and every edge that started at the same instant and is still seen is a deletion |
| GraphReads.AttributeDeletionIsRead | backend/infrahub/core/attribute.py:337-346 | from a deletion on, at any time, the branch does not read the attribute on its node any more, under the same exact condition in the attribute's own slot |
| GraphReads.DeletionLeavesTheRest | backend/infrahub/core/attribute.py:311-346 | every slot but those of the results and the attribute reads as before, through any windows |
| GraphReads.SnapshotIsolation | backend/infrahub/core/branch.py:181-202 | whatever safe steps happen after the cut, the origin edges an isolated branch selects stay the same for any query time |
| GraphReads.CutIsExact | backend/infrahub/core/branch.py:195-197 | any safe step leaves the origin edges that an isolated branch selects as they are if and only if the cut lies before now or the step adds no origin edge by then |
| GraphReads.WriteAtTheCutIsSeen | backend/infrahub/core/branch.py:195-197 | in particular an update on the origin at the time of the cut is selected |
| GraphReads.IsolatedReadsAreStable | backend/infrahub/core/branch.py:181-202 | while others work, an isolated branch reads every branch-aware slot as it did after the cut |
| GraphReads.OpenReadFollowsOrigin | backend/infrahub/core/branch.py:193-202 | after every run, a read without isolation sees a branch-aware slot in which the branch has no edge of its own as the default branch does, at every time |
| GraphReads.LaterWriteIsSeenOpenly | backend/infrahub/core/validators/uniqueness/query.py:30 | a write on the default branch is seen by a read without isolation exactly as the default branch sees it, whenever the branch was cut |
| GraphReads.LingeringIsTop | backend/infrahub/core/branch.py:199-202 | the ended global edges that a branch still puts first are exactly those that a user branch created, and those opened and closed at the cut with nothing since |
| GraphReads.GlobalReadIsExact | backend/infrahub/core/branch.py:199-202 | where the global branch reads as v at the query time, the two windows of a branch read as v if and only if every lingering edge has the value v |
| GraphReads.GlobalReadIsCurrent | backend/infrahub/core/branch.py:199-202 | if nothing lingers, the two windows read exactly as the global branch does at the query time |
| GraphReads.AgnosticCreationOnBranchReadsStale | backend/infrahub/core/attribute.py:547-559 | from any sound state: creation on a user branch, cut, update on the default branch - and the isolated branch reads the old value for ever, the global branch the new one |
| GraphReads.StaleUpdateBreaksDiscipline | backend/infrahub/core/attribute.py:385-396 | after that run an update on the isolated branch is possible but not safe: two live global edges stay open, and the old one is seen at times at which it had ended |
| DeepMerge.DeepMergeDict | python_sdk/infrahub_sdk/utils.py:128-144 | returns the union, or the path of a real conflict |
| DeepMerge.MergeIsLeastUpperBound | python_sdk/infrahub_sdk/utils.py:128-144 | succeeds exactly when some tree contains both operands, and returns the least one |
| DeepMerge.CompatibleMeansAgreement | python_sdk/infrahub_sdk/utils.py:132-143 | the merge is possible exactly when the trees agree on every shared path |
| DeepMerge.MergeIsIdempotent | python_sdk/infrahub_sdk/utils.py:128-144 | merging a tree with itself gives the tree |
| DeepMerge.MergeIsCommutative | backend/infrahub/core/models.py:75-77 | the sum of two schema diffs, failures included, does not depend on their order |
| DeepMerge.MergeIsAssociative | python_sdk/infrahub_sdk/utils.py:128-144 | three trees merge alike in either grouping, failures included |
| SchemaUpdate.UpdateModel | backend/infrahub/core/models.py:473-503 | the loop over the fields fails exactly when some list at some depth cannot be merged, and otherwise gives one of the possible updates |
| SchemaUpdate.UpdateListHashableModel | backend/infrahub/core/models.py:425-471 | the merge fails exactly on ambiguous keys, at any depth; otherwise unmatched local items, then added ones, then one updated item for each present pair, in the order of a set |
| SchemaUpdate.PartnersMeet | backend/infrahub/core/models.py:413-448 | two items are merged exactly if they have one id, or one name while neither's id is in both lists |
| SchemaUpdate.MergedOrder | backend/infrahub/core/models.py:454-469 | unmatched local items come first and added ones next, each in the order of their list, and the merged ones last |
| SchemaUpdate.MergedList | backend/infrahub/core/models.py:454-469 | every possible result holds exactly: unmatched local items as they are, unmatched other items that are not marked absent, and matched items updated with a present partner; its keys are distinct |
| SchemaUpdate.UpdateCarriesOther | backend/infrahub/core/models.py:473-503 | the update wins: where field kinds agree, every possible result says everything the other model says, at every depth, and keeps what the other does not mention |
| SchemaUpdate.MergeTwice | backend/infrahub/core/models.py:425-471 | merging the same list into a result again changes nothing but order, in whatever order, if and only if no present item repeats an id, its removals let go of no name another item answers to, and each merged pair takes its update again |
| SchemaUpdate.RepeatedIdIsAmbiguous | backend/infrahub/core/models.py:449-455 | with a present item whose id is repeated the second merge fails |
| SchemaUpdate.UpdateTwice | backend/infrahub/core/models.py:473-509 | at every depth: whatever orders the two updates choose, applying the same update again changes nothing but order if and only if each list it changes is overwritten by its own - at most one local item, absorbed by the last of present items - or repeats no id of a present item and removes quietly |
| SchemaUpdate.SecondMergeRemovesAnother | backend/infrahub/core/models.py:430-469 | a removal by id whose first merge can only leave the bystander, and whose second merge can only remove it |
| SchemaAssociativity.KeysAreNames | backend/infrahub/core/models.py:413-423 | where ids and names point at the same items, items are matched exactly by name, and no merge is ambiguous |
| SchemaAssociativity.UpdateKeyed | backend/infrahub/core/models.py:473-509 | such an update succeeds, and every possible result keeps ids and names in agreement and is the update of trees without list order |
| SchemaAssociativity.UpdateIsAssociative | backend/infrahub/core/models.py:473-509 | without removals and with ids and names in agreement, three updates succeed in either grouping, and all their possible results are equal up to the order of lists at every depth |
| TopologicalSort.CycleFinder.Visit | python_sdk/infrahub_sdk/topological_sort.py:55-68 | the search only shrinks the shared dictionary, reports real cycles only, and finishes keys in an order that respects every dependency but those that close a reported cycle |
| TopologicalSort.GetCycles | python_sdk/infrahub_sdk/topological_sort.py:42-52 | each report is a closed walk with distinct inner nodes, without the dependencies that close the reported cycles the graph has no cycle, and something is reported exactly when it has one |
| TopologicalSort.TopologicalSort | python_sdk/infrahub_sdk/topological_sort.py:19-39 | succeeds exactly on acyclic input, with the layers of all keys and mentioned dependencies; otherwise reports real cycles, and every cycle of the input goes through a dependency that closes one of them |
| TopologicalSort.LayersAreDepths | python_sdk/infrahub_sdk/topological_sort.py:19-39 | a node's layer is the length of its longest dependency chain, and layers do not overlap |
| TopologicalSort.LayersMeanAcyclic | python_sdk/infrahub_sdk/topological_sort.py:19-39 | a graph that can be layered has no cycle |
| TopologicalSort.OrderMeansAcyclic | python_sdk/infrahub_sdk/topological_sort.py:55-68 | the order in which a clean search finishes the keys excludes every cycle |
| Locks.LockRegistry.Get | backend/infrahub/lock.py:212-218 | one lock object per name and process; a known name keeps its lock |
| Locks.SharedExactly | backend/infrahub/lock.py:128-136 | two tasks get one lock exactly if they ask for the same name in one process, or, connected, for the same name that is not local |
| Locks.ListsAscend | backend/infrahub/lock.py:229-233 | both lists name their locks, without repetition, in one and the same order |
| Locks.NatsLock.TryAcquire | backend/infrahub/lock.py:91-100 | an attempt writes the key only if it is absent, and succeeds exactly then |
| Locks.NatsLock.Release | backend/infrahub/lock.py:102-103 | the key is deleted whatever token it holds |
| Locks.StepKeepsExclusion | backend/infrahub/lock.py:63-69 | every step of every task keeps each key set exactly while one task holds the lock |
| Locks.SomeoneCanStep | backend/infrahub/lock.py:229-233 | while some task is unfinished some task can go on: both lock lists follow one order |
| Locks.StepDoesWork | backend/infrahub/lock.py:63-69 | every successful step brings the end one step closer |
| Locks.EveryRunCanFinish | backend/infrahub/lock.py:63-103 | from every reachable state of any number of processes and tasks, exclusion holds and either all have finished with all locks free, or some task can step; all have finished once the steps are used up |
| Locks.GuardedSections | backend/infrahub/lock.py:229-233 | in every state reached from an idle one at most one task of a process holds its whole list, and, connected, at most one task of all processes that took a multi-lock |
| Locks.LocalLockIsLocal | backend/infrahub/lock.py:220-233 | a task is never kept from the local lock by tasks of other processes |
| Locks.IdleRunCanFinish | backend/infrahub/lock.py:63-103 | the same from a state in which nothing has begun, in which the invariant holds |
| GraphQLPrinter.RenderQueryBlock | python_sdk/infrahub_sdk/graphql.py:41-72 | the loop and its recursion give the lines of the query block |
| GraphQLPrinter.RenderInputBlock | python_sdk/infrahub_sdk/graphql.py:75-101 | the nested loops give the lines of the input block |
| GraphQLRoundTrip.TextRoundTrip | python_sdk/infrahub_sdk/graphql.py:13-17 | a text is read back as itself if and only if it is a variable or all its characters are ones that GraphQL takes as they are: no quote, backslash, line end or control character but a tab |
| GraphQLRoundTrip.ConvertLexes | python_sdk/infrahub_sdk/graphql.py:13-24 | the text of a value gives its tokens in every context that does not prolong a word |
| GraphQLRoundTrip.SelectionsAreStrict | python_sdk/infrahub_sdk/graphql.py:41-72 | the reader takes only selection sets that the GraphQL grammar has: none empty, fragments with a block and without alias and arguments |
| GraphQLSafety.MeantByKeys | python_sdk/infrahub_sdk/graphql.py:45-72 | what an entry stands for: a field for each key but the two keywords, with the alias and the arguments stored under them, and a block unless it holds an alias alone |
| GraphQLRoundTrip.QueryRoundTrip | python_sdk/infrahub_sdk/graphql.py:41-72 | the rendered query block, tokenised and parsed, is the selection set that the dictionary stands for - fields, aliases, arguments, fragments, nesting and order - if and only if names are names, values are safe, each printed dictionary has something to print and fragments are plain blocks; if only the last two fail it is no GraphQL |
| GraphQLRoundTrip.InputRoundTrip | python_sdk/infrahub_sdk/graphql.py:75-101 | the rendered input block, tokenised and parsed, is the input data itself if and only if keys are names, texts are safe and nothing inside is None |
| GraphQLLayout.BlocksAreLaidOut | python_sdk/infrahub_sdk/graphql.py:41-101 | brackets never close below zero, end balanced, and each line is indented by its depth |
| StripUnmodified.StripItem | python_sdk/infrahub_sdk/node.py:855-886 | one item loses its unmodified properties and the variables only they use; the effect of the whole update stays |
| StripUnmodified.Strip | python_sdk/infrahub_sdk/node.py:888-928 | the stripped update makes the same node of the original data, refers to no removed variable and sends no variable whose entry is gone, holds nothing unmodified but ids, keeps the id of every item that has anything left to send, and touches no other item |
| StripUnmodified.IdGoesLast | python_sdk/infrahub_sdk/node.py:865-868 | an unmodified id goes exactly when the item has nothing else to send |
| StripUnmodified.OwnerCountsAsItsId | python_sdk/infrahub_sdk/node.py:860-863 | the object of a source or an owner counts as its id, and no other object does |
| StripUnmodified.StripKeyKeepsReferences | python_sdk/infrahub_sdk/node.py:855-886 | with fresh names, removing an entry with its variable leaves no other entry dangling |
| StripUnmodified.StripKeyKeepsEffectAt | python_sdk/infrahub_sdk/node.py:855-886 | every property of every item ends with the same value |
| Menu.BuildBuckets | backend/infrahub/api/menu.py:91-104 | each included model lands in one bucket, in schema order |
| Menu.AddToMenu | backend/infrahub/api/menu.py:38-47 | terminates on every schema; children sorted behind one leading "All" entry with the parent's path |
| Menu.GetObjects | backend/infrahub/api/menu.py:91-114 | fails exactly when no included model is placed at the top; otherwise the sorted, assembled tree |
| Menu.ModelIsInItsPlace | backend/infrahub/api/menu.py:91-114 | every included model whose placements lead up to the top stands where they say, with its own title, path and icon: as a link, or, if others are placed under it, as a folder with that link as first entry |
| Menu.ChainIsUnique | backend/infrahub/api/menu.py:91-104 | a model has at most one placement chain from the top |
| Menu.ChainIsShort | backend/infrahub/api/menu.py:38-47 | no chain repeats a model, even with cyclic placements |
| Menu.EachModelOnce | backend/infrahub/api/menu.py:38-114 | a model occurs exactly once in the menu if its chain reaches the top, and not at all otherwise |
| Profiles.ProfileAttributeIndex.ApplyProfiles | backend/infrahub/core/manager.py:65-107 | every record of a default attribute gets the chosen value, flags and source; all others stay; an unreadable priority changes nothing |
| Profiles.LeastProfileWins | backend/infrahub/core/manager.py:75-105 | the value is that of a least (priority, uuid) profile that offers one, never the NULL marker; none exactly when no profile has another value |
| Profiles.FirstProfileWins | backend/infrahub/core/manager.py:75-105 | the chosen profile is the one with the lowest number, then the smallest uuid, then the first in the list; profiles without a number come last, in the order of the list |
| Profiles.ChoiceIgnoresOrder | backend/infrahub/core/manager.py:81 | with distinct sort keys the order of the profiles does not matter |
| Profiles.OverlayIsIdempotent | backend/infrahub/core/manager.py:86-106 | applying profiles again changes nothing, and only default attributes ever change |
| TrackedGroups.GroupContext.AddRelatedNodes | python_sdk/infrahub_sdk/query_groups.py:113-124 | ids are recorded in order when the mode or a flag asks for it, and otherwise not |
| TrackedGroups.GroupContext.UpdateGroup | python_sdk/infrahub_sdk/query_groups.py:139-181 | the group holds what was recorded, and what it dropped is deleted; an empty run changes nothing |
| TrackedGroups.RunKeepsItsOwn | python_sdk/infrahub_sdk/query_groups.py:102-111 | a run deletes nothing it saved if and only if it does not save as a node what the group drops as a child, or the reverse |
| TrackedGroups.LiveIsLastSaved | python_sdk/infrahub_sdk/query_groups.py:139-181 | over any sequence of runs the live tracked objects are those of the last run that saved anything |
| Encodings.Encode | python_sdk/infrahub_sdk/utils.py:25-66 | the loop writes the digits of any integer, with sign, in base 36 or 16 |
| Encodings.DecodeUndoesEncode | python_sdk/infrahub_sdk/utils.py:25-66 | decoding an encoded integer gives the integer |
| Encodings.DigitsAreListed | python_sdk/infrahub_sdk/utils.py:32-56 | digits are written in the two alphabets of the source |
| Encodings.UuidtGroups | python_sdk/infrahub_sdk/uuidt.py:47-55 | the first three groups of an identifier read back as the timestamp, the next two as host and namespace, the rest is the random tail |
| Encodings.UuidtsSortByTime | python_sdk/infrahub_sdk/uuidt.py:47-55 | for timestamps of sixteen hexadecimal digits, identifiers compare as the timestamps do, whatever host, namespace and random parts |

## Left out

- Cypher, the graph database, the cache server, message bus, HTTP and git: the graph is a map of edges, the cache a map with set-if-absent.
- Computing a diff and its conflicts: the diff is an input, and theorems about merges ask for a well-formed one.
- Reads resolve competing edges by level and latest start; the several database nodes that can hold one value are not distinguished.
- `get_query_filter_relationships_range`, `get_query_filter_relationships_diff`, `get_query_filter_range` and `get_branches_and_times_for_range`: their conditions are not the exact interval definition.
- BranchFilter.FilterPreservesMeaning: speaks about the parenthesised mode alone; in the default mode the joined text is not the conjunction, and only each filter by itself has its meaning (`BranchFilter.EachFilterAlone`).
- AttributeWrites.UpdateAttribute: does not model validation, `is_default` and `from_graphql`; the current edges are an input read by the query.
- GraphRuns.InvariantOverRuns: speaks about runs of safe steps; what the unsafe ones break is the other half of `GraphRuns.Step`.
- Merge.MergeGraph: the loops over nodes, attributes, properties and relationships visit one list of elements in their order; repository merges and schema changes are left out.
- Rebase.Branch.RebaseGraph: does not remove nodes that a deletion leaves without edges.
- DeepMerge.DeepMergeDict: returns a new tree; the source changes its first argument in place, also when it fails half-way.
- SchemaUpdate.UpdateModel: models are values, so updates in place and aliasing between the two models are not captured; a failure leaves no partial result.
- SchemaUpdate.UpdateListHashableModel: ids and sort keys are told apart, where the source would confuse an id with an equal one-element sort key.
- Field types other than texts, lists of texts and lists of models, the hashing and `diff` of models, and the validation of schema diffs (`process_diff`).
- Locks.EveryRunCanFinish: does not model a task that is cancelled while it acquires, lock metrics, the pause between attempts, waiting for a lock without taking it, and locks other than the local one and the two multi-locks.
- GraphQLPrinter.RenderQueryBlock: aliases that are neither texts nor nothing and filters that are neither dictionaries nor nothing are not covered, nor are floats and dictionaries inside lists of lists; operation headers and variable declarations are left out.
- StripUnmodified.Strip: the relationships part of the stripping, and how original data is brought into its normal form.
- Menu.AddToMenu: menu items are values; kinds are assumed not to be empty or "base".
- Profiles.ProfileAttributeIndex.ApplyProfiles: asks for a separate record per attribute.
- TrackedGroups.LiveIsLastSaved: asks for node ids and group ids to be disjoint and for every peer to have a type name.
- Encodings.UuidtsSortByTime: timestamps outside sixteen hexadecimal digits, where random filling decides the order.
- Authentication, configuration, pagination, caches, command line and user interface.
