/**
 The guest's registry of running stdin commands, the exclusive flag it shares with legacy commands,
 and cancellation.

 Tasks run on a multi-threaded executor, so the unit of interleaving is one atomic operation: taking
 or leaving the registry lock, one load or compare-and-swap of the flag, one stage of dropping a
 registration.  A schedule is any sequence of such operations by any tasks; an operation that is not
 enabled does nothing.
 */
module StdinRegistry {
  import opened Wrappers

  type StdinId = string
  type TaskId = nat
  type ExecId = nat

  /** How far one execution has come; from `Stopped` on only cleanup is left. */
  datatype Phase = Registered | Running | Stopped | Marked | Removed | Released | Dropped | Exited

  function Rank(p: Phase): nat {
    match p
    case Registered => 0
    case Running => 1
    case Stopped => 2
    case Marked => 3
    case Removed => 4
    case Released => 5
    case Dropped => 6
    case Exited => 7
  }

  datatype Exec = Exec(id: StdinId, exclusive: bool, phase: Phase,
                       cancelled: bool, inputClosed: bool, stdinOpen: bool, done: bool)
  {
    predicate Before(p: Phase) { Rank(phase) < Rank(p) }
  }

  datatype Refusal = Conflict | ExclusiveBusy

  datatype Task =
    // `start`, inside the registry lock
    | StartContains(id: StdinId, exclusive: bool)
    | StartLoad(id: StdinId, exclusive: bool)
    | StartCas(id: StdinId)
    | StartInsert(id: StdinId, exclusive: bool)
    // its results
    | Refused(why: Refusal)
    | Started(exec: ExecId)
    // a legacy command
    | LegacyLoad(exclusive: bool)
    | LegacyCas
    | LegacyRunning(exclusive: bool)
    | LegacyRefused
    | LegacyEnded
    // `cancel`
    | CancelCheck(exec: ExecId)
    | CancelFlag(exec: ExecId)
    | CancelWait(exec: ExecId, first: bool)
    | CancelReturned(target: Option<ExecId>, cancelled: bool)
  {
    predicate InLock() { StartContains? || StartLoad? || StartCas? || StartInsert? }

    predicate Cancelling() { CancelCheck? || CancelFlag? || CancelWait? }
  }

  datatype State = State(
    lock: Option<TaskId>,
    entries: map<StdinId, ExecId>,
    busy: bool,
    execs: map<ExecId, Exec>,
    tasks: map<TaskId, Task>)
  {
    predicate At(t: TaskId, k: Task) { t in tasks && tasks[t] == k }

    function Goto(t: TaskId, k: Task): State { this.(tasks := tasks[t := k]) }

    function Put(e: ExecId, x: Exec): State { this.(execs := execs[e := x]) }
  }

  const INITIAL := State(None, map[], false, map[], map[])

  datatype Action =
    | StartEnter(t: TaskId, id: StdinId, exclusive: bool)
    | StartStep(t: TaskId, newExec: ExecId)
    | LegacyBegin(t: TaskId, exclusive: bool)
    | LegacyStep(t: TaskId)
    | Spawn(e: ExecId, started: bool)
    | CloseInput(e: ExecId)
    | Stop(e: ExecId)
    | Cleanup(e: ExecId)
    | CancelBegin(t: TaskId, id: StdinId)
    | CancelStep(t: TaskId)
    | CancelAllFlag(e: ExecId)

  // ---------------------------------------------------------------------------------------------
  // Starting
  // ---------------------------------------------------------------------------------------------

  function EnterStart(s: State, t: TaskId, id: StdinId, exclusive: bool): State {
    if s.lock.None? && t !in s.tasks then s.Goto(t, StartContains(id, exclusive)).(lock := Some(t)) else s
  }

  /** Where a starter goes next: the id check, the flag's load, the compare-and-swap, the insertion. */
  function StartNext(s: State, k: Task, newExec: ExecId): Task {
    match k
    case StartContains(id, exclusive) => if id in s.entries then Refused(Conflict) else StartLoad(id, exclusive)
    case StartLoad(id, exclusive) =>
      if s.busy then Refused(ExclusiveBusy) else if exclusive then StartCas(id) else StartInsert(id, false)
    case StartCas(id) => if s.busy then Refused(ExclusiveBusy) else StartInsert(id, true)
    case StartInsert(_, _) => Started(newExec)
    case _ => k
  }

  function StepStart(s: State, t: TaskId, newExec: ExecId): State {
    if t in s.tasks && s.tasks[t].InLock() && newExec !in s.execs then
      var k := s.tasks[t];
      var k' := StartNext(s, k, newExec);
      var s' := s.Goto(t, k').(lock := if k'.InLock() then s.lock else None, busy := s.busy || k.StartCas?);
      if k.StartInsert? then
        s'.(entries := s.entries[k.id := newExec])
        .Put(newExec, Exec(k.id, k.exclusive, Registered, false, false, false, false))
      else s'
    else s
  }

  // ---------------------------------------------------------------------------------------------
  // Legacy commands share only the flag
  // ---------------------------------------------------------------------------------------------

  function BeginLegacy(s: State, t: TaskId, exclusive: bool): State {
    if t in s.tasks then s else s.Goto(t, LegacyLoad(exclusive))
  }

  function LegacyNext(busy: bool, k: Task): Task {
    match k
    case LegacyLoad(exclusive) =>
      if busy then LegacyRefused else if exclusive then LegacyCas else LegacyRunning(false)
    case LegacyCas => if busy then LegacyRefused else LegacyRunning(true)
    case LegacyRunning(_) => LegacyEnded
    case _ => k
  }

  function StepLegacy(s: State, t: TaskId): State {
    if t in s.tasks then
      var k := s.tasks[t];
      s.Goto(t, LegacyNext(s.busy, k)).(busy := (s.busy || k.LegacyCas?) && k != LegacyRunning(true))
    else s
  }

  // ---------------------------------------------------------------------------------------------
  // One execution: running, stopping, and the stages of dropping its registration
  // ---------------------------------------------------------------------------------------------

  function DoSpawn(s: State, e: ExecId, started: bool): State {
    if e in s.execs && s.execs[e].phase.Registered? then
      var x := s.execs[e];
      s.Put(e, if started && !x.cancelled then x.(phase := Running, stdinOpen := true) else x.(phase := Stopped))
    else s
  }

  /** The writer finished (end of input, broken pipe, error) or the child exited. */
  function DoCloseInput(s: State, e: ExecId): State {
    if e in s.execs && s.execs[e].phase.Running? then
      s.Put(e, s.execs[e].(inputClosed := true, stdinOpen := false))
    else s
  }

  /** The driving future is dropped and the process group killed and reaped. */
  function DoStop(s: State, e: ExecId): State {
    if e in s.execs && s.execs[e].phase.Running? then
      s.Put(e, s.execs[e].(phase := Stopped, stdinOpen := false))
    else s
  }

  /** The registration's stages in order: close input, leave the registry, give up the flag, report done. */
  function CleanupNext(x: Exec): (y: Exec)
    ensures y.id == x.id && y.exclusive == x.exclusive && y.cancelled == x.cancelled && y.stdinOpen == x.stdinOpen
    ensures y.inputClosed <==> x.inputClosed || x.phase.Stopped?
    ensures y.done <==> x.done || x.phase.Released?
    ensures Rank(y.phase) == if Rank(Stopped) <= Rank(x.phase) < Rank(Exited) then Rank(x.phase) + 1 else Rank(x.phase)
    ensures y.Before(Removed) <==> x.Before(Removed) && !x.phase.Marked?
    ensures y.Before(Released) <==> x.Before(Released) && !x.phase.Removed?
  {
    match x.phase
    case Stopped => x.(phase := Marked, inputClosed := true)
    case Marked => x.(phase := Removed)
    case Removed => x.(phase := Released)
    case Released => x.(phase := Dropped, done := true)
    case Dropped => x.(phase := Exited)
    case _ => x
  }

  /** The entry is removed under the lock, and only if it is this registration's own. */
  function DoCleanup(s: State, e: ExecId): State {
    if e in s.execs && !(s.execs[e].phase.Marked? && s.lock.Some?) then
      var x := s.execs[e];
      var mine := x.phase.Marked? && x.id in s.entries && s.entries[x.id] == e;
      s.Put(e, CleanupNext(x))
      .(entries := if mine then s.entries - {x.id} else s.entries,
        busy := s.busy && !(x.phase.Removed? && x.exclusive))
    else s
  }

  // ---------------------------------------------------------------------------------------------
  // Cancelling
  // ---------------------------------------------------------------------------------------------

  function BeginCancel(s: State, t: TaskId, id: StdinId): State {
    if s.lock.Some? || t in s.tasks then s
    else s.Goto(t, if id in s.entries then CancelCheck(s.entries[id]) else CancelReturned(None, false))
  }

  function CancelNext(x: Exec, k: Task): (k': Task)
    ensures k'.InLock() ==> k.InLock()
  {
    match k
    case CancelCheck(e) => if x.done then CancelReturned(Some(e), false) else CancelFlag(e)
    case CancelFlag(e) => CancelWait(e, !x.cancelled)
    case CancelWait(e, first) => if x.done then CancelReturned(Some(e), first) else k
    case _ => k
  }

  function StepCancel(s: State, t: TaskId): State {
    if t in s.tasks && s.tasks[t].Cancelling() && s.tasks[t].exec in s.execs then
      var k := s.tasks[t];
      var x := s.execs[k.exec];
      s.Goto(t, CancelNext(x, k)).Put(k.exec, x.(cancelled := x.cancelled || k.CancelFlag?))
    else s
  }

  function FlagAll(s: State, e: ExecId): State {
    if e in s.execs then s.Put(e, s.execs[e].(cancelled := true)) else s
  }

  function Next(s: State, a: Action): State {
    match a
    case StartEnter(t, id, exclusive) => EnterStart(s, t, id, exclusive)
    case StartStep(t, newExec) => StepStart(s, t, newExec)
    case LegacyBegin(t, exclusive) => BeginLegacy(s, t, exclusive)
    case LegacyStep(t) => StepLegacy(s, t)
    case Spawn(e, started) => DoSpawn(s, e, started)
    case CloseInput(e) => DoCloseInput(s, e)
    case Stop(e) => DoStop(s, e)
    case Cleanup(e) => DoCleanup(s, e)
    case CancelBegin(t, id) => BeginCancel(s, t, id)
    case CancelStep(t) => StepCancel(s, t)
    case CancelAllFlag(e) => FlagAll(s, e)
  }

  function Run(s: State, schedule: seq<Action>): State
    decreases |schedule|
  {
    if schedule == [] then s else Run(Next(s, schedule[0]), schedule[1..])
  }

  // ---------------------------------------------------------------------------------------------
  // What every interleaving keeps
  // ---------------------------------------------------------------------------------------------

  /** Something that has claimed the exclusive flag and has not yet released it. */
  datatype Holder = ByTask(t: TaskId) | ByExec(e: ExecId)

  predicate Claims(k: Task) {
    (k.StartInsert? && k.exclusive) || (k.LegacyRunning? && k.exclusive)
  }

  predicate Keeps(x: Exec) {
    x.exclusive && x.Before(Released)
  }

  predicate Holds(s: State, h: Holder) {
    match h
    case ByTask(t) => t in s.tasks && Claims(s.tasks[t])
    case ByExec(e) => e in s.execs && Keeps(s.execs[e])
  }

  /** The flag is up exactly when there is a holder, and the holder is `owner` and no one else. */
  ghost predicate OwnerIs(s: State, owner: Option<Holder>) {
    && (s.busy <==> owner.Some?)
    && forall h :: Holds(s, h) <==> owner == Some(h)
  }

  ghost predicate FlagInv(s: State) {
    exists owner :: OwnerIs(s, owner)
  }

  predicate LockInv(s: State) {
    && (forall t :: t in s.tasks && s.tasks[t].InLock() ==> s.lock == Some(t))
    && (s.lock.Some? ==> s.lock.value in s.tasks && s.tasks[s.lock.value].InLock())
  }

  predicate EntriesInv(s: State) {
    && (forall id :: id in s.entries ==> s.entries[id] in s.execs && s.execs[s.entries[id]].id == id)
    && (forall e :: e in s.execs ==>
          (s.execs[e].Before(Removed) <==> s.execs[e].id in s.entries && s.entries[s.execs[e].id] == e))
    && (forall t :: t in s.tasks && s.tasks[t].InLock() && !s.tasks[t].StartContains? ==>
          s.tasks[t].id !in s.entries)
  }

  predicate ExecInv(x: Exec) {
    && (x.stdinOpen ==> x.phase.Running?)
    && (!x.Before(Marked) ==> x.inputClosed)
    && (x.done <==> !x.Before(Dropped))
  }

  predicate ExecsInv(s: State) {
    forall e :: e in s.execs ==> ExecInv(s.execs[e])
  }

  /** The execution that this call is, or was, the one to cancel. */
  function Wins(k: Task): Option<ExecId> {
    match k
    case CancelWait(e, true) => Some(e)
    case CancelReturned(target, true) => target
    case _ => None
  }

  predicate CancelInv(s: State) {
    && (forall t :: t in s.tasks && Wins(s.tasks[t]).Some? ==>
          Wins(s.tasks[t]).value in s.execs && s.execs[Wins(s.tasks[t]).value].cancelled)
    && (forall t, u :: t in s.tasks && u in s.tasks
                       && Wins(s.tasks[t]).Some? && Wins(s.tasks[t]) == Wins(s.tasks[u]) ==>
          t == u)
    && (forall t :: t in s.tasks && s.tasks[t].CancelReturned? && s.tasks[t].target.Some? ==>
          s.tasks[t].target.value in s.execs && s.execs[s.tasks[t].target.value].done)
  }

  ghost predicate Inv(s: State) {
    && FlagInv(s)
    && LockInv(s)
    && EntriesInv(s)
    && ExecsInv(s)
    && CancelInv(s)
  }

  // ---------------------------------------------------------------------------------------------
  // Each operation keeps it
  // ---------------------------------------------------------------------------------------------

  lemma FlagKeptIfHoldersKept(s: State, s': State)
    requires FlagInv(s) && s'.busy == s.busy
    requires forall h :: Holds(s', h) <==> Holds(s, h)
    ensures FlagInv(s')
  {
    var owner :| OwnerIs(s, owner);
    assert OwnerIs(s', owner);
  }

  /** The claim passes from the starting task to the registered execution. */
  lemma InsertKeepsFlag(s: State, t: TaskId, newExec: ExecId)
    requires FlagInv(s) && t in s.tasks && s.tasks[t].StartInsert? && newExec !in s.execs
    ensures FlagInv(StepStart(s, t, newExec))
  {
    var s' := StepStart(s, t, newExec);
    var owner :| OwnerIs(s, owner);
    if s.tasks[t].exclusive {
      assert Holds(s, ByTask(t));
      assert OwnerIs(s', Some(ByExec(newExec)));
    } else {
      FlagKeptIfHoldersKept(s, s');
    }
  }

  lemma CasKeepsFlag(s: State, t: TaskId, newExec: ExecId)
    requires FlagInv(s) && t in s.tasks && s.tasks[t].StartCas? && newExec !in s.execs
    ensures FlagInv(StepStart(s, t, newExec))
  {
    var s' := StepStart(s, t, newExec);
    var owner :| OwnerIs(s, owner);
    if !s.busy {
      assert OwnerIs(s', Some(ByTask(t)));
    } else {
      FlagKeptIfHoldersKept(s, s');
    }
  }

  lemma StartKeepsFlag(s: State, t: TaskId, newExec: ExecId)
    requires FlagInv(s)
    ensures FlagInv(StepStart(s, t, newExec))
  {
    if t in s.tasks && s.tasks[t].StartInsert? && newExec !in s.execs {
      InsertKeepsFlag(s, t, newExec);
    } else if t in s.tasks && s.tasks[t].StartCas? && newExec !in s.execs {
      CasKeepsFlag(s, t, newExec);
    } else {
      FlagKeptIfHoldersKept(s, StepStart(s, t, newExec));
    }
  }

  lemma LegacyKeepsFlag(s: State, t: TaskId)
    requires FlagInv(s)
    ensures FlagInv(StepLegacy(s, t))
  {
    var s' := StepLegacy(s, t);
    var owner :| OwnerIs(s, owner);
    if t in s.tasks && s.tasks[t].LegacyCas? && !s.busy {
      assert OwnerIs(s', Some(ByTask(t)));
    } else if t in s.tasks && s.tasks[t] == LegacyRunning(true) {
      assert Holds(s, ByTask(t));
      assert OwnerIs(s', None);
    } else {
      FlagKeptIfHoldersKept(s, s');
    }
  }

  lemma CleanupKeepsFlag(s: State, e: ExecId)
    requires FlagInv(s)
    ensures FlagInv(DoCleanup(s, e))
  {
    hide CleanupNext;
    var s' := DoCleanup(s, e);
    var owner :| OwnerIs(s, owner);
    if e in s.execs && s.execs[e].phase.Removed? && s.execs[e].exclusive {
      assert Holds(s, ByExec(e));
      assert OwnerIs(s', None);
    } else {
      FlagKeptIfHoldersKept(s, s');
    }
  }

  /** Only `cancel` itself can produce a winner, and flags are never taken down. */
  lemma CancelFrame(s: State, s': State)
    requires CancelInv(s)
    requires forall e :: e in s.execs ==>
                && e in s'.execs && (s.execs[e].cancelled ==> s'.execs[e].cancelled)
                && (s.execs[e].done ==> s'.execs[e].done)
    requires forall t :: t in s'.tasks ==>
               (t in s.tasks && s'.tasks[t] == s.tasks[t])
               || (Wins(s'.tasks[t]).None? && (s'.tasks[t].CancelReturned? ==> s'.tasks[t].target.None?))
    ensures CancelInv(s')
  {
  }

  lemma EntriesFrame(s: State, s': State)
    requires EntriesInv(s) && s'.entries == s.entries
    requires s'.execs.Keys == s.execs.Keys
    requires forall e :: e in s.execs ==>
               s'.execs[e].id == s.execs[e].id && (s'.execs[e].Before(Removed) <==> s.execs[e].Before(Removed))
    requires forall t :: t in s'.tasks && s'.tasks[t].InLock() && !s'.tasks[t].StartContains? ==>
               s'.tasks[t].id !in s.entries
    ensures EntriesInv(s')
  {
  }

  lemma InsertKeepsEntries(s: State, t: TaskId, id: StdinId, exclusive: bool, newExec: ExecId)
    requires LockInv(s) && EntriesInv(s) && newExec !in s.execs && s.At(t, StartInsert(id, exclusive))
    ensures EntriesInv(StepStart(s, t, newExec))
  {
  }

  lemma RemoveKeepsEntries(s: State, e: ExecId)
    requires LockInv(s) && EntriesInv(s) && e in s.execs && s.execs[e].phase.Marked? && s.lock.None?
    ensures EntriesInv(DoCleanup(s, e))
  {
  }

  lemma StartKeepsLock(s: State, t: TaskId, newExec: ExecId)
    requires LockInv(s)
    ensures LockInv(StepStart(s, t, newExec))
  {
  }

  lemma StartKeepsEntries(s: State, t: TaskId, newExec: ExecId)
    requires LockInv(s) && EntriesInv(s)
    ensures EntriesInv(StepStart(s, t, newExec))
  {
    if t in s.tasks && s.tasks[t].StartInsert? && newExec !in s.execs {
      InsertKeepsEntries(s, t, s.tasks[t].id, s.tasks[t].exclusive, newExec);
    } else {
      EntriesFrame(s, StepStart(s, t, newExec));
    }
  }

  lemma StartKeepsExecs(s: State, t: TaskId, newExec: ExecId)
    requires ExecsInv(s)
    ensures ExecsInv(StepStart(s, t, newExec))
  {
  }

  lemma StartKeepsCancel(s: State, t: TaskId, newExec: ExecId)
    requires CancelInv(s)
    ensures CancelInv(StepStart(s, t, newExec))
  {
    CancelFrame(s, StepStart(s, t, newExec));
  }

  lemma LegacyKeepsEntries(s: State, t: TaskId)
    requires LockInv(s) && EntriesInv(s)
    ensures LockInv(StepLegacy(s, t)) && EntriesInv(StepLegacy(s, t))
  {
    EntriesFrame(s, StepLegacy(s, t));
  }

  lemma LegacyKeepsCancel(s: State, t: TaskId)
    requires CancelInv(s)
    ensures CancelInv(StepLegacy(s, t))
  {
    CancelFrame(s, StepLegacy(s, t));
  }

  lemma CleanupKeepsEntries(s: State, e: ExecId)
    requires LockInv(s) && EntriesInv(s)
    ensures EntriesInv(DoCleanup(s, e))
  {
    hide CleanupNext;
    if e in s.execs && s.execs[e].phase.Marked? && s.lock.None? {
      RemoveKeepsEntries(s, e);
    } else {
      EntriesFrame(s, DoCleanup(s, e));
    }
  }

  lemma CleanupKeepsExecs(s: State, e: ExecId)
    requires LockInv(s) && ExecsInv(s)
    ensures LockInv(DoCleanup(s, e)) && ExecsInv(DoCleanup(s, e))
  {
  }

  lemma CleanupKeepsCancel(s: State, e: ExecId)
    requires CancelInv(s)
    ensures CancelInv(DoCleanup(s, e))
  {
    hide CleanupNext;
    CancelFrame(s, DoCleanup(s, e));
  }

  lemma CancelKeepsCancel(s: State, t: TaskId)
    requires CancelInv(s)
    ensures CancelInv(StepCancel(s, t))
  {
  }

  lemma CancelKeepsRest(s: State, t: TaskId)
    requires LockInv(s) && EntriesInv(s) && ExecsInv(s)
    ensures LockInv(StepCancel(s, t)) && EntriesInv(StepCancel(s, t)) && ExecsInv(StepCancel(s, t))
  {
    hide CancelNext;
    EntriesFrame(s, StepCancel(s, t));
  }

  /** A step of an execution's own that neither releases nor removes anything. */
  lemma ExecutionKeepsInv(s: State, e: ExecId, x: Exec)
    requires Inv(s) && e in s.execs && x.id == s.execs[e].id && x.exclusive == s.execs[e].exclusive
    requires x.Before(Removed) <==> s.execs[e].Before(Removed)
    requires x.Before(Released) <==> s.execs[e].Before(Released)
    requires (s.execs[e].cancelled ==> x.cancelled) && (s.execs[e].done ==> x.done) && ExecInv(x)
    ensures Inv(s.Put(e, x))
  {
    var s' := s.Put(e, x);
    FlagKeptIfHoldersKept(s, s');
    EntriesFrame(s, s');
    CancelFrame(s, s');
    hide FlagInv;
  }

  /** A task that has just begun holds nothing and has won nothing. */
  lemma BeginningKeepsInv(s: State, t: TaskId, k: Task)
    requires Inv(s) && t !in s.tasks
    requires k.StartContains? || k.LegacyLoad? || k.CancelCheck? || k == CancelReturned(None, false)
    requires k.InLock() ==> s.lock.None?
    ensures Inv(s.Goto(t, k).(lock := if k.InLock() then Some(t) else s.lock))
  {
    var s' := s.Goto(t, k).(lock := if k.InLock() then Some(t) else s.lock);
    FlagKeptIfHoldersKept(s, s');
    EntriesFrame(s, s');
    CancelFrame(s, s');
    hide FlagInv;
  }

  lemma StartKeepsInv(s: State, t: TaskId, newExec: ExecId)
    requires Inv(s)
    ensures Inv(StepStart(s, t, newExec))
  {
    hide StepStart, FlagInv, LockInv, EntriesInv, ExecsInv, CancelInv;
    StartKeepsFlag(s, t, newExec);
    StartKeepsLock(s, t, newExec);
    StartKeepsEntries(s, t, newExec);
    StartKeepsExecs(s, t, newExec);
    StartKeepsCancel(s, t, newExec);
  }

  lemma LegacyKeepsInv(s: State, t: TaskId)
    requires Inv(s)
    ensures Inv(StepLegacy(s, t))
  {
    hide FlagInv, LockInv, EntriesInv, CancelInv;
    LegacyKeepsFlag(s, t);
    LegacyKeepsEntries(s, t);
    LegacyKeepsCancel(s, t);
  }

  lemma CleanupKeepsInv(s: State, e: ExecId)
    requires Inv(s)
    ensures Inv(DoCleanup(s, e))
  {
    hide DoCleanup, FlagInv, LockInv, EntriesInv, ExecsInv, CancelInv;
    CleanupKeepsFlag(s, e);
    CleanupKeepsEntries(s, e);
    CleanupKeepsExecs(s, e);
    CleanupKeepsCancel(s, e);
  }

  lemma CancelKeepsInv(s: State, t: TaskId)
    requires Inv(s)
    ensures Inv(StepCancel(s, t))
  {
    CancelKeepsFlag(s, t);
    hide StepCancel, FlagInv, LockInv, EntriesInv, ExecsInv, CancelInv;
    CancelKeepsCancel(s, t);
    CancelKeepsRest(s, t);
  }

  lemma CancelKeepsFlag(s: State, t: TaskId)
    requires FlagInv(s)
    ensures FlagInv(StepCancel(s, t))
  {
    FlagKeptIfHoldersKept(s, StepCancel(s, t));
  }

  lemma NextKeepsInv(s: State, a: Action)
    requires Inv(s)
    ensures Inv(Next(s, a))
  {
    hide FlagInv, LockInv, EntriesInv, CancelInv, StepStart, StepLegacy, DoCleanup, StepCancel;
    match a
    case StartEnter(t, id, exclusive) =>
      if s.lock.None? && t !in s.tasks { BeginningKeepsInv(s, t, StartContains(id, exclusive)); }
    case StartStep(t, newExec) => StartKeepsInv(s, t, newExec);
    case LegacyBegin(t, exclusive) =>
      if t !in s.tasks { BeginningKeepsInv(s, t, LegacyLoad(exclusive)); }
    case LegacyStep(t) => LegacyKeepsInv(s, t);
    case Spawn(e, started) =>
      if e in s.execs && s.execs[e].phase.Registered? { ExecutionKeepsInv(s, e, DoSpawn(s, e, started).execs[e]); }
    case CloseInput(e) =>
      if e in s.execs && s.execs[e].phase.Running? { ExecutionKeepsInv(s, e, DoCloseInput(s, e).execs[e]); }
    case Stop(e) =>
      if e in s.execs && s.execs[e].phase.Running? { ExecutionKeepsInv(s, e, DoStop(s, e).execs[e]); }
    case Cleanup(e) => CleanupKeepsInv(s, e);
    case CancelBegin(t, id) =>
      if s.lock.None? && t !in s.tasks { BeginningKeepsInv(s, t, BeginCancel(s, t, id).tasks[t]); }
    case CancelStep(t) => CancelKeepsInv(s, t);
    case CancelAllFlag(e) =>
      if e in s.execs { ExecutionKeepsInv(s, e, s.execs[e].(cancelled := true)); }
  }

  lemma {:induction false} RunKeepsInv(s: State, schedule: seq<Action>)
    requires Inv(s)
    ensures Inv(Run(s, schedule))
    decreases |schedule|
  {
    if schedule != [] {
      NextKeepsInv(s, schedule[0]);
      RunKeepsInv(Next(s, schedule[0]), schedule[1..]);
    }
  }

  ghost predicate Reachable(s: State) {
    exists schedule :: s == Run(INITIAL, schedule)
  }

  lemma ReachableInv(s: State)
    requires Reachable(s)
    ensures Inv(s)
  {
    assert OwnerIs(INITIAL, None);
    var schedule :| s == Run(INITIAL, schedule);
    RunKeepsInv(INITIAL, schedule);
  }

  // ---------------------------------------------------------------------------------------------
  // Main results
  // ---------------------------------------------------------------------------------------------

  /** The flag is up exactly while one admitted exclusive command holds it, and never two do. */
  lemma ExclusiveSafety(s: State)
    requires Reachable(s)
    ensures s.busy <==> exists h :: Holds(s, h)
    ensures forall h, g :: Holds(s, h) && Holds(s, g) ==> h == g
  {
    ReachableInv(s);
    var owner :| OwnerIs(s, owner);
    if s.busy {
      assert Holds(s, owner.value);
    }
  }

  /** A refused start or legacy command holds nothing, so it cannot be why the flag is up. */
  lemma RefusalLeavesNothing(s: State, t: TaskId)
    requires Reachable(s)
    requires t in s.tasks && (s.tasks[t].Refused? || s.tasks[t].LegacyRefused?)
    ensures s.lock != Some(t)
    ensures s.busy ==> exists h :: Holds(s, h) && h != ByTask(t)
  {
    ReachableInv(s);
    ExclusiveSafety(s);
  }

  /** Nothing of the execution is left behind: no entry, no claim, no open stdin. */
  ghost predicate Clean(s: State, e: ExecId) {
    && e in s.execs
    && (forall id :: id in s.entries ==> s.entries[id] != e)
    && !Holds(s, ByExec(e))
    && !s.execs[e].stdinOpen && s.execs[e].inputClosed && s.execs[e].done
  }

  lemma CleanWhenDone(s: State, e: ExecId)
    requires Inv(s) && e in s.execs && s.execs[e].done
    ensures Clean(s, e)
  {
  }

  /** By the time Exit is sent, and whenever a waiting `cancel` has returned, cleanup is complete. */
  lemma CleanupPrecedesExitAndCancel(s: State, e: ExecId)
    requires Reachable(s)
    ensures e in s.execs && s.execs[e].phase.Exited? ==> Clean(s, e)
    ensures forall t :: t in s.tasks && s.tasks[t].CancelReturned? && s.tasks[t].target == Some(e) ==> Clean(s, e)
  {
    ReachableInv(s);
    if e in s.execs && s.execs[e].done {
      CleanWhenDone(s, e);
    }
  }

  /** Cleanup is never undone, even when the id is registered again. */
  lemma {:induction false} CleanForever(s: State, e: ExecId, schedule: seq<Action>)
    requires Inv(s) && Clean(s, e)
    ensures Clean(Run(s, schedule), e)
    decreases |schedule|
  {
    if schedule != [] {
      NextKeepsInv(s, schedule[0]);
      DoneIsStable(s, e, schedule[0]);
      CleanWhenDone(Next(s, schedule[0]), e);
      CleanForever(Next(s, schedule[0]), e, schedule[1..]);
    }
  }

  lemma DoneIsStable(s: State, e: ExecId, a: Action)
    requires e in s.execs && s.execs[e].done && ExecInv(s.execs[e])
    ensures e in Next(s, a).execs && Next(s, a).execs[e].done
  {
  }

  /** Dropping a registration takes out its own entry and no other; nothing else takes one out. */
  lemma OnlyOwnEntryRemoved(s: State, a: Action, id: StdinId)
    requires Reachable(s) && id in s.entries
    ensures var e := s.entries[id];
            e in s.execs &&
            if a == Cleanup(e) && s.execs[e].phase.Marked? && s.lock.None?
            then id !in Next(s, a).entries
            else id in Next(s, a).entries && Next(s, a).entries[id] == e
  {
    ReachableInv(s);
  }

  /** Of all `cancel` calls aimed at one execution, at most one returns true. */
  lemma AtMostOneCancelReturnsTrue(s: State, t: TaskId, u: TaskId, e: ExecId)
    requires Reachable(s)
    requires s.At(t, CancelReturned(Some(e), true)) && s.At(u, CancelReturned(Some(e), true))
    ensures t == u
  {
    ReachableInv(s);
  }

  /** While an execution is registered its id admits no second one. */
  lemma IdsAreNotShared(s: State, e: ExecId, f: ExecId)
    requires Reachable(s)
    requires e in s.execs && f in s.execs && s.execs[e].id == s.execs[f].id
    requires s.execs[e].Before(Removed) && s.execs[f].Before(Removed)
    ensures e == f
  {
    ReachableInv(s);
  }

  // ---------------------------------------------------------------------------------------------
  // Undisturbed runs
  // ---------------------------------------------------------------------------------------------

  lemma {:induction false} RunSnoc(s: State, schedule: seq<Action>, a: Action)
    ensures Run(s, schedule + [a]) == Next(Run(s, schedule), a)
    decreases |schedule|
  {
    hide Next;
    if schedule == [] {
      assert [a][1..] == [] && schedule + [a] == [a];
    } else {
      assert (schedule + [a])[1..] == schedule[1..] + [a];
      RunSnoc(Next(s, schedule[0]), schedule[1..], a);
    }
  }

  lemma RunOne(s: State, a: Action)
    ensures Run(s, [a]) == Next(s, a)
  {
    hide Next;
    assert [a][1..] == [];
  }

  /** The state after a start that nothing comes between, with its answer. */
  function StartedAlone(s: State, t: TaskId, id: StdinId, exclusive: bool, e: ExecId): State {
    if id in s.entries then s.Goto(t, Refused(Conflict))
    else if s.busy then s.Goto(t, Refused(ExclusiveBusy))
    else
      s.Goto(t, Started(e)).Put(e, Exec(id, exclusive, Registered, false, false, false, false))
      .(entries := s.entries[id := e], busy := exclusive)
  }

  /** The task's place while it holds the registry lock. */
  function Locked(s: State, t: TaskId, k: Task): State {
    s.Goto(t, k).(lock := Some(t))
  }

  lemma PutTwice<K, V>(m: map<K, V>, k: K, first: V, second: V)
    ensures m[k := first][k := second] == m[k := second]
  {
  }

  lemma StartMoves(s: State, t: TaskId, k: Task, busy: bool, e: ExecId)
    requires s.lock.None? && k.InLock() && !k.StartInsert? && e !in s.execs
    ensures var at := Locked(s, t, k).(busy := busy);
            var k' := StartNext(at, k, e);
            Next(at, StartStep(t, e))
            == s.Goto(t, k').(lock := if k'.InLock() then Some(t) else None, busy := busy || k.StartCas?)
  {
    var at := Locked(s, t, k).(busy := busy);
    PutTwice(s.tasks, t, k, StartNext(at, k, e));
    hide StartNext;
  }

  lemma StartInserts(s: State, t: TaskId, id: StdinId, exclusive: bool, e: ExecId)
    requires s.lock.None? && e !in s.execs && id !in s.entries && !s.busy
    ensures Next(Locked(s, t, StartInsert(id, exclusive)).(busy := exclusive), StartStep(t, e))
            == StartedAlone(s, t, id, exclusive, e)
  {
    PutTwice(s.tasks, t, StartInsert(id, exclusive), Started(e));
    var x := Exec(id, exclusive, Registered, false, false, false, false);
    var at := Locked(s, t, StartInsert(id, exclusive)).(busy := exclusive);
    assert Next(at, StartStep(t, e))
        == at.Goto(t, Started(e)).(lock := None, busy := exclusive).(entries := s.entries[id := e]).Put(e, x);
  }

  /** A task that has its answer, and one whose execution is registered, takes no further step. */
  lemma AnsweredStays(s: State, t: TaskId, e: ExecId)
    requires t in s.tasks && !s.tasks[t].InLock()
    ensures Next(s, StartStep(t, e)) == s
  {
  }

  /**
   A start that nothing comes between is refused for a registered id, or for a raised flag; otherwise
   its execution is registered as asked for, and the flag is up exactly if it is exclusive.
   */
  lemma StartAlone(s: State, t: TaskId, id: StdinId, exclusive: bool, e: ExecId)
    requires s.lock.None? && t !in s.tasks && e !in s.execs
    ensures var step := StartStep(t, e);
            Run(s, [StartEnter(t, id, exclusive)] + [step] + [step] + [step] + [step])
            == StartedAlone(s, t, id, exclusive, e)
  {
    var step := StartStep(t, e);
    var alone := StartedAlone(s, t, id, exclusive, e);
    StartMoves(s, t, StartContains(id, exclusive), s.busy, e);
    StartMoves(s, t, StartLoad(id, exclusive), s.busy, e);
    StartMoves(s, t, StartCas(id), s.busy, e);
    if !s.busy && id !in s.entries {
      StartInserts(s, t, id, exclusive, e);
    }
    assert t in alone.tasks && !alone.tasks[t].InLock();
    AnsweredStays(alone, t, e);
    hide Next, StartedAlone, Locked, Run;
    RunOne(s, StartEnter(t, id, exclusive));
    RunSnoc(s, [StartEnter(t, id, exclusive)], step);
    RunSnoc(s, [StartEnter(t, id, exclusive)] + [step], step);
    RunSnoc(s, [StartEnter(t, id, exclusive)] + [step] + [step], step);
    RunSnoc(s, [StartEnter(t, id, exclusive)] + [step] + [step] + [step], step);
    if id in s.entries || s.busy {
      RefusedAlone(s, t, id, exclusive, e);
    }
  }

  lemma RefusedAlone(s: State, t: TaskId, id: StdinId, exclusive: bool, e: ExecId)
    requires id in s.entries || s.busy
    ensures StartedAlone(s, t, id, exclusive, e)
            == s.Goto(t, Refused(if id in s.entries then Conflict else ExclusiveBusy))
  {
  }

  lemma LegacyMoves(s: State, t: TaskId, k: Task)
    ensures Next(s.Goto(t, k), LegacyStep(t))
            == s.Goto(t, LegacyNext(s.busy, k)).(busy := (s.busy || k.LegacyCas?) && k != LegacyRunning(true))
  {
    PutTwice(s.tasks, t, k, LegacyNext(s.busy, k));
    hide LegacyNext;
  }

  /**
   A legacy command that nothing comes between is refused for a raised flag; otherwise it runs, with the
   flag its own if it is exclusive.
   */
  lemma LegacyAlone(s: State, t: TaskId, exclusive: bool)
    requires t !in s.tasks
    ensures var step := LegacyStep(t);
            var looked := Next(Next(s, LegacyBegin(t, exclusive)), step);
            var running := if exclusive then Next(looked, step) else looked;
            if s.busy then looked == s.Goto(t, LegacyRefused)
            else running == s.Goto(t, LegacyRunning(exclusive)).(busy := exclusive)
                 && Next(running, step) == s.Goto(t, LegacyEnded)
  {
    assert Next(s, LegacyBegin(t, exclusive)) == s.Goto(t, LegacyLoad(exclusive));
    LegacyMoves(s, t, LegacyLoad(exclusive));
    LegacyMoves(s, t, LegacyCas);
    LegacyMoves(s.(busy := exclusive), t, LegacyRunning(exclusive));
    hide Next;
  }

  /**
   The life of an execution that is neither cancelled nor disturbed: it runs with its stdin open, its
   input is closed, it stops, and dropping it leaves neither entry nor claim.
   */
  lemma LifeAlone(s: State, e: ExecId)
    requires s.lock.None? && e in s.execs && s.execs[e].phase.Registered? && !s.execs[e].cancelled
    requires s.execs[e].id in s.entries && s.entries[s.execs[e].id] == e
    ensures var x := s.execs[e];
            var running := Next(s, Spawn(e, true));
            var closed := Next(running, CloseInput(e));
            && running == s.Put(e, x.(phase := Running, stdinOpen := true))
            && closed == s.Put(e, x.(phase := Running, inputClosed := true, stdinOpen := false))
            && Next(closed, Stop(e)) == s.Put(e, x.(phase := Stopped, inputClosed := true, stdinOpen := false))
            && Next(running, Stop(e)) == s.Put(e, x.(phase := Stopped, stdinOpen := false))
            && Next(s, Spawn(e, false)) == s.Put(e, x.(phase := Stopped))
  {
    var x := s.execs[e];
    var running, closed := x.(phase := Running, stdinOpen := true),
                           x.(phase := Running, inputClosed := true, stdinOpen := false);
    PutTwice(s.execs, e, running, closed);
    PutTwice(s.execs, e, closed, closed.(phase := Stopped));
    PutTwice(s.execs, e, running, x.(phase := Stopped, stdinOpen := false));
    assert Next(s, Spawn(e, true)) == s.Put(e, running);
    assert Next(s.Put(e, running), CloseInput(e)) == s.Put(e, closed);
    assert Next(s.Put(e, closed), Stop(e)) == s.Put(e, closed.(phase := Stopped));
    assert Next(s.Put(e, running), Stop(e)) == s.Put(e, x.(phase := Stopped, stdinOpen := false));
  }

  lemma CleanupMoves(s: State, e: ExecId, x: Exec)
    requires x.phase.Marked? ==> s.lock.None? && x.id in s.entries && s.entries[x.id] == e
    ensures Next(s.Put(e, x), Cleanup(e))
            == s.Put(e, CleanupNext(x))
               .(entries := if x.phase.Marked? then s.entries - {x.id} else s.entries,
                 busy := s.busy && !(x.phase.Removed? && x.exclusive))
  {
    PutTwice(s.execs, e, x, CleanupNext(x));
    hide CleanupNext;
  }

  /** Dropping a stopped execution that nothing comes between: its entry and its claim are gone at the end. */
  lemma CleanupAlone(s: State, e: ExecId)
    requires s.lock.None? && e in s.execs && s.execs[e].phase.Stopped?
    requires s.execs[e].id in s.entries && s.entries[s.execs[e].id] == e
    ensures var x, c := s.execs[e], Cleanup(e);
            Next(Next(Next(Next(Next(s, c), c), c), c), c)
            == s.Put(e, x.(phase := Exited, inputClosed := true, done := true))
               .(entries := s.entries - {x.id}, busy := s.busy && !x.exclusive)
  {
    var x := s.execs[e].(inputClosed := true);
    assert s == s.Put(e, s.execs[e]);
    var gone := s.(entries := s.entries - {x.id});
    var free := gone.(busy := s.busy && !x.exclusive);
    CleanupMoves(s, e, s.execs[e]);
    CleanupMoves(s, e, x.(phase := Marked));
    CleanupMoves(gone, e, x.(phase := Removed));
    CleanupMoves(free, e, x.(phase := Released));
    CleanupMoves(free, e, x.(phase := Dropped, done := true));
    hide Next;
  }

  /**
   A `cancel` of a registered execution that nobody has flagged flags it and waits; it returns true once
   cleanup is done, and one that was not the first to flag returns false.
   */
  lemma CancelAlone(s: State, t: TaskId, id: StdinId)
    requires s.lock.None? && t !in s.tasks && id in s.entries && s.entries[id] in s.execs
    requires !s.execs[s.entries[id]].done && !s.execs[s.entries[id]].cancelled
    ensures var e := s.entries[id];
            var flagged := Next(Next(Next(s, CancelBegin(t, id)), CancelStep(t)), CancelStep(t));
            && flagged == s.Goto(t, CancelWait(e, true)).Put(e, s.execs[e].(cancelled := true))
            && Next(flagged, CancelStep(t)) == flagged
  {
    var e := s.entries[id];
    var x := s.execs[e];
    assert s.execs[e := x] == s.execs;
    var check, flag, wait := s.Goto(t, CancelCheck(e)), s.Goto(t, CancelFlag(e)), s.Goto(t, CancelWait(e, true));
    PutTwice(s.tasks, t, CancelCheck(e), CancelFlag(e));
    PutTwice(s.tasks, t, CancelFlag(e), CancelWait(e, true));
    assert Next(s, CancelBegin(t, id)) == check;
    assert Next(check, CancelStep(t)) == flag;
    assert Next(flag, CancelStep(t)) == wait.Put(e, x.(cancelled := true));
    PutTwice(s.tasks, t, CancelWait(e, true), CancelWait(e, true));
    PutTwice(s.execs, e, x.(cancelled := true), x.(cancelled := true));
  }

  lemma WaitEnds(s: State, t: TaskId, e: ExecId, first: bool)
    requires s.At(t, CancelWait(e, first)) && e in s.execs && s.execs[e].done
    ensures Next(s, CancelStep(t)).At(t, CancelReturned(Some(e), first))
  {
  }
}
