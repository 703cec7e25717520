/** Named locks, locks taken together, and the protocol that any number of processes and tasks follow with them. */
module Locks {
  import opened Common

  type Process = nat
  type TaskId = nat
  type Token = nat

  /** A lock as it exists at run time: local locks exist once per process, global ones once in the shared cache. */
  datatype Lock = Local(process: Process, name: string) | Global(name: string)

  const LOCAL_SCHEMA_LOCK := "local.schema"
  const GLOBAL_INIT_LOCK := "global.init"
  const GLOBAL_SCHEMA_LOCK := "global.schema"
  const GLOBAL_GRAPH_LOCK := "global.graph"

  /** Without a connection to the shared cache every lock is local; with one, the name decides. */
  function Resolve(process: Process, connected: bool, name: string): Lock {
    if !connected || "local." <= name then Local(process, name) else Global(name)
  }

  /** Two tasks get the same lock exactly if they ask for the same name in one process, or for the same name that is not local, with
      a connection. */
  lemma SharedExactly(p: Process, q: Process, connected: bool, name: string, other: string)
    ensures Resolve(p, connected, name) == Resolve(q, connected, other) <==>
            name == other && (p == q || (connected && !("local." <= name)))
  {
  }

  /** The registry of one process. */
  class LockRegistry {
    const process: Process
    const connected: bool
    var locks: map<string, Lock>

    constructor (process: Process, connected: bool)
      ensures this.process == process && this.connected == connected && locks == map[] && Valid()
    {
      this.process, this.connected, locks := process, connected, map[];
    }

    ghost predicate Valid()
      reads this
    {
      forall name :: name in locks ==> locks[name] == Resolve(process, connected, name)
    }

    /** One object per name: a name that is known keeps its lock. */
    method Get(name: string) returns (lock: Lock)
      requires Valid()
      modifies this
      ensures Valid() && lock == Resolve(process, connected, name)
      ensures name in locks && locks[name] == lock && locks - {name} == old(locks) - {name}
      ensures name in old(locks) ==> locks == old(locks)
    {
      if name !in locks {
        locks := locks[name := Resolve(process, connected, name)];
      }
      lock := locks[name];
    }

    method LocalSchemaLock() returns (lock: Lock)
      requires Valid()
      modifies this
      ensures Valid() && lock == Resolve(process, connected, LOCAL_SCHEMA_LOCK)
    {
      lock := Get(LOCAL_SCHEMA_LOCK);
    }

    method GlobalSchemaLock() returns (names: seq<string>)
      ensures names == SchemaLocks()
    {
      names := [LOCAL_SCHEMA_LOCK, GLOBAL_SCHEMA_LOCK];
    }

    method GlobalGraphLock() returns (names: seq<string>)
      ensures names == GraphLocks()
    {
      names := [LOCAL_SCHEMA_LOCK, GLOBAL_GRAPH_LOCK, GLOBAL_SCHEMA_LOCK];
    }
  }

  /** What a task takes that refreshes the schema of its own process. */
  function LocalLocks(): seq<string> {
    [LOCAL_SCHEMA_LOCK]
  }

  function SchemaLocks(): seq<string> {
    [LOCAL_SCHEMA_LOCK, GLOBAL_SCHEMA_LOCK]
  }

  function GraphLocks(): seq<string> {
    [LOCAL_SCHEMA_LOCK, GLOBAL_GRAPH_LOCK, GLOBAL_SCHEMA_LOCK]
  }

  // ---------- The protocol ----------

  /** Acquiring: holds the first `held` locks of the list. Releasing: still holds the first `held`, gives back the last one next. */
  datatype Phase = Acquiring(held: nat) | Releasing(held: nat)

  datatype Task = Task(process: Process, names: seq<string>, phase: Phase) {
    predicate WellFormed() {
      (names == LocalLocks() || names == SchemaLocks() || names == GraphLocks()) && phase.held <= |names|
    }

    predicate Finished() {
      phase == Releasing(0)
    }

    function Remaining(): nat
      requires WellFormed()
    {
      if phase.Acquiring? then 2 * |names| - phase.held + 1 else phase.held
    }
  }

  /** The taken locks, each with the token written by whoever took it. */
  type Taken = map<Lock, Token>

  /** `cache.set(key, value, not_exists=True)` */
  function SetIfAbsent(taken: Taken, lock: Lock, token: Token): (Taken, bool) {
    if lock in taken then (taken, false) else (taken[lock := token], true)
  }

  /** The shared cache, and the lock that is kept in it. */
  class Cache {
    var taken: Taken

    method Set(lock: Lock, token: Token, notExists: bool) returns (done: bool)
      modifies this
      ensures notExists ==> (taken, done) == SetIfAbsent(old(taken), lock, token)
      ensures !notExists ==> done && taken == old(taken)[lock := token]
    {
      done := !notExists || lock !in taken;
      if done {
        taken := taken[lock := token];
      }
    }

    method Delete(lock: Lock)
      modifies this
      ensures taken == old(taken) - {lock}
    {
      taken := taken - {lock};
    }
  }

  class NatsLock {
    const lock: Lock
    const cache: Cache
    var token: Option<Token>

    constructor (lock: Lock, cache: Cache)
      ensures this.lock == lock && this.cache == cache && token == None
    {
      this.lock, this.cache, token := lock, cache, None;
    }

    /** One round of the acquisition loop; between rounds the task sleeps. */
    method TryAcquire(fresh_: Token) returns (done: bool)
      modifies this, cache
      ensures (cache.taken, done) == SetIfAbsent(old(cache.taken), lock, fresh_)
      ensures token == if done then Some(fresh_) else old(token)
    {
      done := cache.Set(lock, fresh_, true);
      if done {
        token := Some(fresh_);
      }
    }

    /** Deletes the key without looking at the token. */
    method Release()
      modifies cache
      ensures cache.taken == old(cache.taken) - {lock}
    {
      cache.Delete(lock);
    }
  }

  datatype State = State(connected: bool, tasks: map<TaskId, Task>, taken: Taken) {
    function LockAt(t: TaskId, i: nat): Lock
      requires t in tasks && i < |tasks[t].names|
    {
      Resolve(tasks[t].process, connected, tasks[t].names[i])
    }
  }

  /** One step of a task: an attempt to take its next lock, the end of its critical section, or giving back its last lock.
      Giving back deletes the key, whoever wrote it. */
  function Step(s: State, t: TaskId, token: Token): State
    requires t in s.tasks && s.tasks[t].WellFormed() && !s.tasks[t].Finished()
  {
    var task := s.tasks[t];
    var held := task.phase.held;
    match task.phase
    case Acquiring(_) =>
      if held == |task.names| then s.(tasks := s.tasks[t := task.(phase := Releasing(held))])
      else
        var (taken, done) := SetIfAbsent(s.taken, s.LockAt(t, held), token);
        if done then State(s.connected, s.tasks[t := task.(phase := Acquiring(held + 1))], taken) else s
    case Releasing(_) =>
      s.(tasks := s.tasks[t := task.(phase := Releasing(held - 1))], taken := s.taken - {s.LockAt(t, held - 1)})
  }

  predicate CanStep(s: State, t: TaskId)
    requires t in s.tasks && s.tasks[t].WellFormed()
  {
    !s.tasks[t].Finished()
    && (s.tasks[t].phase.Acquiring? && s.tasks[t].phase.held < |s.tasks[t].names| ==> s.LockAt(t, s.tasks[t].phase.held) !in s.taken)
  }

  predicate Holds(s: State, t: TaskId, lock: Lock) {
    t in s.tasks && s.tasks[t].WellFormed() && exists i | 0 <= i < s.tasks[t].phase.held :: s.LockAt(t, i) == lock
  }

  /** A lock is taken exactly when one task holds it. */
  ghost predicate Exclusive(s: State) {
    && (forall t :: t in s.tasks ==> s.tasks[t].WellFormed())
    && (forall lock :: lock in s.taken <==> exists t :: Holds(s, t, lock))
    && (forall lock, t, u :: Holds(s, t, lock) && Holds(s, u, lock) ==> t == u)
  }

  ghost predicate Idle(s: State) {
    s.taken == map[] && forall t :: t in s.tasks ==> s.tasks[t].WellFormed() && s.tasks[t].phase == Acquiring(0)
  }

  /** Both lists name their locks in one order. */
  function Rank(name: string): nat {
    if name == LOCAL_SCHEMA_LOCK then 0 else if name == GLOBAL_GRAPH_LOCK then 1 else 2
  }

  lemma ListsAscend(task: Task, i: nat, j: nat)
    requires task.WellFormed() && i < j < |task.names|
    ensures Rank(task.names[i]) < Rank(task.names[j]) <= 2 && task.names[i] != task.names[j]
  {
    assert LOCAL_SCHEMA_LOCK[0] != GLOBAL_SCHEMA_LOCK[0] && GLOBAL_GRAPH_LOCK[7] != GLOBAL_SCHEMA_LOCK[7] && LOCAL_SCHEMA_LOCK[0] != GLOBAL_GRAPH_LOCK[0];
  }

  lemma SameLockSameName(s: State, t: TaskId, i: nat, u: TaskId, j: nat)
    requires t in s.tasks && u in s.tasks && i < |s.tasks[t].names| && j < |s.tasks[u].names|
    requires s.LockAt(t, i) == s.LockAt(u, j)
    ensures s.tasks[t].names[i] == s.tasks[u].names[j]
  {
  }

  /** What a task holds after it has stepped. */
  lemma HoldsAfter(s: State, t: TaskId, token: Token, u: TaskId, lock: Lock)
    requires (forall x :: x in s.tasks ==> s.tasks[x].WellFormed()) && t in s.tasks && CanStep(s, t)
    ensures var task := s.tasks[t];
            Holds(Step(s, t, token), u, lock) <==>
            (if u == t && task.phase.Acquiring? && task.phase.held < |task.names| && lock == s.LockAt(t, task.phase.held) then true
             else if u == t && task.phase.Releasing? && lock == s.LockAt(t, task.phase.held - 1) then false
             else Holds(s, u, lock))
  {
    if u == t {
      OwnHoldsAfter(s, t, token, lock);
    } else if u in s.tasks {
      var s' := Step(s, t, token);
      forall i | 0 <= i < |s.tasks[u].names| ensures s'.LockAt(u, i) == s.LockAt(u, i) {}
    }
  }

  lemma OwnHoldsAfter(s: State, t: TaskId, token: Token, lock: Lock)
    requires t in s.tasks && s.tasks[t].WellFormed() && CanStep(s, t)
    ensures var task := s.tasks[t];
            Holds(Step(s, t, token), t, lock) <==>
            (if task.phase.Acquiring? && task.phase.held < |task.names| && lock == s.LockAt(t, task.phase.held) then true
             else if task.phase.Releasing? && lock == s.LockAt(t, task.phase.held - 1) then false
             else Holds(s, t, lock))
  {
    var s', task := Step(s, t, token), s.tasks[t];
    forall i | 0 <= i < |task.names| ensures s'.LockAt(t, i) == s.LockAt(t, i) {}
    if task.phase.Releasing? {
      forall i | 0 <= i < task.phase.held - 1 ensures s.LockAt(t, i) != s.LockAt(t, task.phase.held - 1) {
        ListsAscend(task, i, task.phase.held - 1);
      }
    }
    assert Holds(s', t, lock) <==> exists i | 0 <= i < s'.tasks[t].phase.held :: s.LockAt(t, i) == lock;
  }

  lemma TakingKeepsExclusion(s: State, s': State, t: TaskId, lock: Lock)
    requires Exclusive(s) && lock !in s.taken && s'.taken.Keys == s.taken.Keys + {lock}
    requires forall u :: u in s'.tasks ==> s'.tasks[u].WellFormed()
    requires forall u, l :: Holds(s', u, l) <==> (u == t && l == lock) || Holds(s, u, l)
    ensures Exclusive(s')
  {
    assert Holds(s', t, lock);
    forall l ensures l in s'.taken <==> exists u :: Holds(s', u, l) {
      if l in s.taken {
        var u :| Holds(s, u, l);
        assert Holds(s', u, l);
      }
    }
  }

  lemma GivingBackKeepsExclusion(s: State, s': State, t: TaskId, lock: Lock)
    requires Exclusive(s) && Holds(s, t, lock) && s'.taken.Keys == s.taken.Keys - {lock}
    requires forall u :: u in s'.tasks ==> s'.tasks[u].WellFormed()
    requires forall u, l :: Holds(s', u, l) <==> !(u == t && l == lock) && Holds(s, u, l)
    ensures Exclusive(s')
  {
    forall l ensures l in s'.taken <==> exists u :: Holds(s', u, l) {
      if l in s'.taken {
        var u :| Holds(s, u, l);
        assert Holds(s', u, l);
      }
    }
  }

  lemma IdlingKeepsExclusion(s: State, s': State)
    requires Exclusive(s) && s'.taken == s.taken
    requires forall u :: u in s'.tasks ==> s'.tasks[u].WellFormed()
    requires forall u, l :: Holds(s', u, l) <==> Holds(s, u, l)
    ensures Exclusive(s')
  {
    forall l ensures l in s'.taken <==> exists u :: Holds(s', u, l) {
      if l in s'.taken {
        var u :| Holds(s, u, l);
        assert Holds(s', u, l);
      }
    }
  }

  lemma ReleaseKeepsExclusion(s: State, t: TaskId, token: Token)
    requires Exclusive(s) && t in s.tasks && CanStep(s, t) && s.tasks[t].phase.Releasing?
    ensures Exclusive(Step(s, t, token))
  {
    var s', lock := Step(s, t, token), s.LockAt(t, s.tasks[t].phase.held - 1);
    assert Holds(s, t, lock);
    forall u, l ensures Holds(s', u, l) <==> !(u == t && l == lock) && Holds(s, u, l) {
      HoldsAfter(s, t, token, u, l);
    }
    GivingBackKeepsExclusion(s, s', t, lock);
  }

  lemma AcquireKeepsExclusion(s: State, t: TaskId, token: Token)
    requires Exclusive(s) && t in s.tasks && CanStep(s, t) && s.tasks[t].phase.Acquiring?
    ensures Exclusive(Step(s, t, token))
  {
    var s', task := Step(s, t, token), s.tasks[t];
    if task.phase.held < |task.names| {
      var lock := s.LockAt(t, task.phase.held);
      forall u, l ensures Holds(s', u, l) <==> (u == t && l == lock) || Holds(s, u, l) {
        HoldsAfter(s, t, token, u, l);
      }
      TakingKeepsExclusion(s, s', t, lock);
    } else {
      forall u, l ensures Holds(s', u, l) <==> Holds(s, u, l) {
        HoldsAfter(s, t, token, u, l);
      }
      IdlingKeepsExclusion(s, s');
    }
  }

  /** Every step keeps mutual exclusion, and the key of a lock is set exactly while the lock has its one holder. */
  lemma StepKeepsExclusion(s: State, t: TaskId, token: Token)
    requires Exclusive(s) && t in s.tasks && !s.tasks[t].Finished()
    ensures Exclusive(Step(s, t, token))
  {
    if CanStep(s, t) {
      if s.tasks[t].phase.Releasing? {
        ReleaseKeepsExclusion(s, t, token);
      } else {
        AcquireKeepsExclusion(s, t, token);
      }
    }
  }

  /** Whoever waits is waiting, in the end, for a task that can go on: the chain of holders climbs the order of the locks. */
  lemma {:induction false} SomeoneCanStep(s: State, t: TaskId) returns (u: TaskId)
    requires Exclusive(s) && t in s.tasks && !s.tasks[t].Finished()
    ensures u in s.tasks && s.tasks[u].WellFormed() && CanStep(s, u)
    decreases 3 - (if s.tasks[t].phase.held < |s.tasks[t].names| then Rank(s.tasks[t].names[s.tasks[t].phase.held]) else 3)
  {
    if CanStep(s, t) {
      u := t;
    } else {
      var held := s.tasks[t].phase.held;
      var lock := s.LockAt(t, held);
      var h :| Holds(s, h, lock);
      var i :| 0 <= i < s.tasks[h].phase.held && s.LockAt(h, i) == lock;
      SameLockSameName(s, t, held, h, i);
      if CanStep(s, h) {
        u := h;
      } else {
        ListsAscend(s.tasks[h], i, s.tasks[h].phase.held);
        u := SomeoneCanStep(s, h);
      }
    }
  }

  // ---------- Whole runs ----------

  /** A run: which task moves, and the token it would write. Attempts that fail are not part of it. */
  ghost predicate Runs(s: State, run: seq<(TaskId, Token)>)
    decreases |run|
  {
    run == [] ||
    (run[0].0 in s.tasks && s.tasks[run[0].0].WellFormed() && CanStep(s, run[0].0) && Runs(Step(s, run[0].0, run[0].1), run[1..]))
  }

  ghost function Run(s: State, run: seq<(TaskId, Token)>): State
    requires Runs(s, run)
    decreases |run|
  {
    if run == [] then s else Run(Step(s, run[0].0, run[0].1), run[1..])
  }

  ghost function Work(s: State, ts: set<TaskId>): nat
    requires forall t :: t in ts ==> t in s.tasks && s.tasks[t].WellFormed()
  {
    if ts == {} then 0 else
    var t :| t in ts;
    s.tasks[t].Remaining() + Work(s, ts - {t})
  }

  lemma {:induction false} WorkSplits(s: State, ts: set<TaskId>, t: TaskId)
    requires t in ts && forall t :: t in ts ==> t in s.tasks && s.tasks[t].WellFormed()
    ensures Work(s, ts) == s.tasks[t].Remaining() + Work(s, ts - {t})
  {
    var u :| u in ts && Work(s, ts) == s.tasks[u].Remaining() + Work(s, ts - {u});
    if u != t {
      WorkSplits(s, ts - {u}, t);
      WorkSplits(s, ts - {t}, u);
      assert ts - {u} - {t} == ts - {t} - {u};
    }
  }

  lemma {:induction false} WorkElsewhere(s: State, s': State, ts: set<TaskId>)
    requires forall t :: t in ts ==> t in s.tasks && s.tasks[t].WellFormed() && t in s'.tasks && s'.tasks[t] == s.tasks[t]
    ensures Work(s, ts) == Work(s', ts)
  {
    if ts != {} {
      var t :| t in ts;
      WorkSplits(s, ts, t);
      WorkSplits(s', ts, t);
      WorkElsewhere(s, s', ts - {t});
    }
  }

  lemma StepDoesWork(s: State, t: TaskId, token: Token)
    requires Exclusive(s) && t in s.tasks && CanStep(s, t)
    ensures Step(s, t, token).tasks.Keys == s.tasks.Keys && Exclusive(Step(s, t, token))
    ensures Work(Step(s, t, token), s.tasks.Keys) == Work(s, s.tasks.Keys) - 1
  {
    var s' := Step(s, t, token);
    StepKeepsExclusion(s, t, token);
    assert s'.tasks.Keys == s.tasks.Keys;
    WorkSplits(s, s.tasks.Keys, t);
    WorkSplits(s', s.tasks.Keys, t);
    WorkElsewhere(s, s', s.tasks.Keys - {t});
  }

  lemma {:induction false} NoWorkLeft(s: State, ts: set<TaskId>, t: TaskId)
    requires t in ts && forall t :: t in ts ==> t in s.tasks && s.tasks[t].WellFormed()
    ensures Work(s, ts) == 0 ==> s.tasks[t].Finished()
  {
    WorkSplits(s, ts, t);
  }

  /** From an idle start, every reachable state keeps mutual exclusion, and either all tasks have finished with every lock free,
      or some task can step; every run that goes on to the end takes the same number of steps. */
  lemma {:induction false} EveryRunCanFinish(s: State, run: seq<(TaskId, Token)>)
    requires Exclusive(s) && Runs(s, run)
    ensures var s' := Run(s, run);
            && Exclusive(s') && s'.tasks.Keys == s.tasks.Keys
            && |run| + Work(s', s.tasks.Keys) == Work(s, s.tasks.Keys)
            && (|run| == Work(s, s.tasks.Keys) ==> forall t :: t in s'.tasks ==> s'.tasks[t].Finished())
            && ((forall t :: t in s'.tasks ==> s'.tasks[t].Finished()) ==> s'.taken == map[])
            && ((exists t :: t in s'.tasks && !s'.tasks[t].Finished()) ==> exists u :: u in s'.tasks && CanStep(s', u))
    decreases |run|
  {
    if run == [] {
      forall t | t in s.tasks && Work(s, s.tasks.Keys) == 0 ensures s.tasks[t].Finished() {
        NoWorkLeft(s, s.tasks.Keys, t);
      }
      if t :| t in s.tasks && !s.tasks[t].Finished() {
        var u := SomeoneCanStep(s, t);
      } else {
        forall lock ensures lock !in s.taken {
          assert forall t :: !Holds(s, t, lock);
        }
      }
    } else {
      StepDoesWork(s, run[0].0, run[0].1);
      EveryRunCanFinish(Step(s, run[0].0, run[0].1), run[1..]);
    }
  }

  lemma IdleIsExclusive(s: State)
    requires Idle(s)
    ensures Exclusive(s)
  {
  }

  /** From a state in which no task has begun and nothing is locked, a lock is taken exactly while one task holds it, some task can
      go on until all have finished, and then all locks are free. */
  lemma IdleRunCanFinish(s: State, run: seq<(TaskId, Token)>)
    requires Idle(s) && Runs(s, run)
    ensures var s' := Run(s, run);
            && Exclusive(s') && s'.tasks.Keys == s.tasks.Keys
            && ((forall t :: t in s'.tasks ==> s'.tasks[t].Finished()) ==> s'.taken == map[])
            && ((exists t :: t in s'.tasks && !s'.tasks[t].Finished()) ==> exists u :: u in s'.tasks && CanStep(s', u))
  {
    IdleIsExclusive(s);
    EveryRunCanFinish(s, run);
  }

  // ---------- The guarded sections ----------

  /** The task holds its whole list. */
  predicate Inside(s: State, t: TaskId) {
    t in s.tasks && s.tasks[t].phase.held == |s.tasks[t].names|
  }

  lemma {:induction false} RunKeepsWho(s: State, run: seq<(TaskId, Token)>)
    requires Runs(s, run)
    ensures var s' := Run(s, run);
            && s'.connected == s.connected && s'.tasks.Keys == s.tasks.Keys
            && forall t :: t in s.tasks ==> s'.tasks[t].process == s.tasks[t].process && s'.tasks[t].names == s.tasks[t].names
    decreases |run|
  {
    if run != [] {
      RunKeepsWho(Step(s, run[0].0, run[0].1), run[1..]);
    }
  }

  lemma GlobalNames()
    ensures !("local." <= GLOBAL_SCHEMA_LOCK) && "local." <= LOCAL_SCHEMA_LOCK
  {
    assert "local."[0] != GLOBAL_SCHEMA_LOCK[0];
  }

  /** In every state that is reached from an idle one, no two tasks of one process are inside together, and with a connection no two tasks
      of any processes that took a multi-lock. */
  lemma GuardedSections(s: State, run: seq<(TaskId, Token)>, t: TaskId, u: TaskId)
    requires Idle(s) && Runs(s, run) && Inside(Run(s, run), t) && Inside(Run(s, run), u)
    ensures t in s.tasks && u in s.tasks
    ensures s.tasks[t].process == s.tasks[u].process ==> t == u
    ensures s.connected && s.tasks[t].names != LocalLocks() && s.tasks[u].names != LocalLocks() ==> t == u
  {
    var s' := Run(s, run);
    RunKeepsWho(s, run);
    IdleRunCanFinish(s, run);
    GlobalNames();
    if s.tasks[t].process == s.tasks[u].process {
      assert Holds(s', t, s'.LockAt(t, 0)) && Holds(s', u, s'.LockAt(u, 0));
    }
    if s.connected && s.tasks[t].names != LocalLocks() && s.tasks[u].names != LocalLocks() {
      var i, j := |s.tasks[t].names| - 1, |s.tasks[u].names| - 1;
      assert s'.LockAt(t, i) == Global(GLOBAL_SCHEMA_LOCK) == s'.LockAt(u, j);
      assert Holds(s', t, s'.LockAt(t, i)) && Holds(s', u, s'.LockAt(u, j));
    }
  }

  /** The local lock keeps nobody out in other processes: a task can take it if no task of its own process holds anything. */
  lemma LocalLockIsLocal(s: State, t: TaskId)
    requires Exclusive(s) && t in s.tasks && s.tasks[t].phase == Acquiring(0)
    requires forall u :: u in s.tasks && s.tasks[u].process == s.tasks[t].process ==> s.tasks[u].phase.held == 0
    ensures CanStep(s, t)
  {
    var lock := s.LockAt(t, 0);
    GlobalNames();
    assert forall u :: !Holds(s, u, lock);
  }
}
