/**
 The history behind what the registry's tasks are told: which state a start, a legacy command or a
 cancel looked at, who raised a cancellation flag, and what was asked for in the first place.
 */
module StdinHistory {
  import opened Wrappers
  import opened StdinRegistry

  /** The state that the `i`-th operation of a schedule finds. */
  function StateAt(schedule: seq<Action>, i: nat): State
    requires i <= |schedule|
  {
    Run(INITIAL, schedule[..i])
  }

  lemma StateAfter(schedule: seq<Action>, i: nat)
    requires i < |schedule|
    ensures StateAt(schedule, i + 1) == Next(StateAt(schedule, i), schedule[i])
    ensures Inv(StateAt(schedule, i)) && Reachable(StateAt(schedule, i))
  {
    hide Next, Run, Inv;
    assert schedule[..i + 1] == schedule[..i] + [schedule[i]];
    RunSnoc(INITIAL, schedule[..i], schedule[i]);
    assert Reachable(StateAt(schedule, i));
    ReachableInv(StateAt(schedule, i));
  }

  lemma StartsEmpty(schedule: seq<Action>)
    ensures StateAt(schedule, 0) == INITIAL
  {
  }

  /** At its `i`-th operation the schedule brings task `t` to `k`. */
  predicate Came(schedule: seq<Action>, i: nat, t: TaskId, k: Task) {
    i < |schedule| && StateAt(schedule, i + 1).At(t, k) && !StateAt(schedule, i).At(t, k)
  }

  /** Wherever a task is, some operation brought it there. */
  lemma {:induction false} CameSometime(schedule: seq<Action>, n: nat, t: TaskId, k: Task)
    requires n <= |schedule| && StateAt(schedule, n).At(t, k)
    ensures exists i: nat :: i < n && Came(schedule, i, t, k)
  {
    StartsEmpty(schedule);
    hide Run;
    if n > 0 {
      if StateAt(schedule, n - 1).At(t, k) {
        CameSometime(schedule, n - 1, t, k);
      } else {
        assert Came(schedule, n - 1, t, k);
      }
    }
  }

  /** A step of the task's own. */
  predicate Moves(s: State, a: Action, t: TaskId) {
    && t in s.tasks
    && match a
       case StartStep(u, newExec) => u == t && s.tasks[t].InLock() && newExec !in s.execs
       case LegacyStep(u) => u == t && (s.tasks[t].LegacyLoad? || s.tasks[t].LegacyCas? || s.tasks[t].LegacyRunning?)
       case CancelStep(u) => u == t && s.tasks[t].Cancelling() && s.tasks[t].exec in s.execs
       case _ => false
  }

  /** Where a start or a legacy command looks at the flag. */
  predicate LooksAtFlag(k: Task) {
    k.StartLoad? || k.StartCas? || k.LegacyLoad? || k.LegacyCas?
  }

  predicate TurnedAway(k: Task) {
    k == Refused(ExclusiveBusy) || k.LegacyRefused?
  }

  /** Past the flag: about to register, registered, or running as a legacy command. */
  predicate LetIn(k: Task) {
    k.StartInsert? || k.Started? || k.LegacyRunning? || k.LegacyEnded?
  }

  /** The `i`-th operation is task `t` looking at the flag. */
  predicate Looks(schedule: seq<Action>, i: nat, t: TaskId) {
    && i < |schedule|
    && Moves(StateAt(schedule, i), schedule[i], t) && LooksAtFlag(StateAt(schedule, i).tasks[t])
  }

  ghost predicate SomeoneHolds(s: State) {
    exists h :: Holds(s, h)
  }

  /** A raised flag turns away whoever looks, a lowered one no one. */
  lemma FlagDecides(s: State, a: Action, t: TaskId)
    requires Moves(s, a, t) && LooksAtFlag(s.tasks[t])
    ensures t in Next(s, a).tasks && (TurnedAway(Next(s, a).tasks[t]) <==> s.busy)
  {
  }

  lemma TurnedAwayStays(s: State, a: Action, t: TaskId)
    requires t in s.tasks && TurnedAway(s.tasks[t])
    ensures Next(s, a).At(t, s.tasks[t])
  {
  }

  lemma FlagIsHeld(s: State)
    requires Reachable(s)
    ensures s.busy <==> SomeoneHolds(s)
  {
    ExclusiveSafety(s);
  }

  /**
   Whoever looks at the flag while someone holds it is turned away for good, exclusive or not: no
   execution of its is ever registered, and it never runs as a legacy command.
   */
  lemma {:induction false} HeldFlagTurnsAway(schedule: seq<Action>, i: nat, j: nat, t: TaskId)
    requires Looks(schedule, i, t) && SomeoneHolds(StateAt(schedule, i)) && i < j <= |schedule|
    ensures t in StateAt(schedule, j).tasks && TurnedAway(StateAt(schedule, j).tasks[t])
  {
    hide Next, Run, Inv, Reachable;
    StateAfter(schedule, j - 1);
    if j == i + 1 {
      FlagIsHeld(StateAt(schedule, i));
      FlagDecides(StateAt(schedule, i), schedule[i], t);
    } else {
      HeldFlagTurnsAway(schedule, i, j - 1, t);
      TurnedAwayStays(StateAt(schedule, j - 1), schedule[j - 1], t);
    }
  }

  /** What brings a task to an answer. */
  lemma WhatBroughtIt(s: State, a: Action, t: TaskId, k: Task)
    requires Next(s, a).At(t, k) && !s.At(t, k)
    ensures TurnedAway(k) ==> Moves(s, a, t) && LooksAtFlag(s.tasks[t]) && s.busy
    ensures LetIn(k) ==> t in s.tasks && (LetIn(s.tasks[t]) || (Moves(s, a, t) && LooksAtFlag(s.tasks[t]) && !s.busy))
    ensures k == Refused(Conflict) ==> t in s.tasks && s.tasks[t].StartContains? && s.tasks[t].id in s.entries
  {
  }

  /** Whoever got past the flag looked at it when no one held it. */
  lemma {:induction false} LetInLooked(schedule: seq<Action>, n: nat, t: TaskId)
    requires n <= |schedule| && t in StateAt(schedule, n).tasks && LetIn(StateAt(schedule, n).tasks[t])
    ensures exists i: nat :: i < n && Looks(schedule, i, t) && !SomeoneHolds(StateAt(schedule, i))
  {
    hide Next, Run, Inv, Reachable;
    var k := StateAt(schedule, n).tasks[t];
    CameSometime(schedule, n, t, k);
    var i: nat :| i < n && Came(schedule, i, t, k);
    StateAfter(schedule, i);
    WhatBroughtIt(StateAt(schedule, i), schedule[i], t, k);
    if LetIn(StateAt(schedule, i).tasks[t]) {
      LetInLooked(schedule, i, t);
    } else {
      FlagIsHeld(StateAt(schedule, i));
      assert Looks(schedule, i, t);
    }
  }

  /** Nobody is refused as busy without someone holding the flag, or as a conflict without the id being registered. */
  lemma RefusalHasReason(schedule: seq<Action>, n: nat, t: TaskId)
    requires n <= |schedule| && t in StateAt(schedule, n).tasks
    ensures TurnedAway(StateAt(schedule, n).tasks[t]) ==>
              exists i: nat :: i < n && Looks(schedule, i, t) && SomeoneHolds(StateAt(schedule, i))
    ensures StateAt(schedule, n).tasks[t] == Refused(Conflict) ==>
              exists i: nat :: i < n && t in StateAt(schedule, i).tasks && StateAt(schedule, i).tasks[t].StartContains?
                               && StateAt(schedule, i).tasks[t].id in StateAt(schedule, i).entries
  {
    hide Next, Run, Inv, Reachable;
    var k := StateAt(schedule, n).tasks[t];
    CameSometime(schedule, n, t, k);
    var i: nat :| i < n && Came(schedule, i, t, k);
    StateAfter(schedule, i);
    WhatBroughtIt(StateAt(schedule, i), schedule[i], t, k);
    FlagIsHeld(StateAt(schedule, i));
    assert TurnedAway(k) ==> Looks(schedule, i, t);
  }

  lemma StepKeepsStarted(s: State, a: Action, e: ExecId)
    requires e in Next(s, a).execs
    requires e in s.execs ==> exists t :: s.At(t, Started(e))
    ensures exists t :: Next(s, a).At(t, Started(e))
  {
    if e in s.execs {
      var t :| s.At(t, Started(e));
      assert Next(s, a).At(t, Started(e));
    } else {
      assert Next(s, a).At(a.t, Started(e));
    }
  }

  /** Every execution is registered by a start that was let in. */
  lemma {:induction false} ExecutionsWereStarted(schedule: seq<Action>, n: nat, e: ExecId)
    requires n <= |schedule| && e in StateAt(schedule, n).execs
    ensures exists t :: StateAt(schedule, n).At(t, Started(e))
  {
    StartsEmpty(schedule);
    hide Next, Run, Inv, Reachable;
    if n > 0 {
      StateAfter(schedule, n - 1);
      if e in StateAt(schedule, n - 1).execs {
        ExecutionsWereStarted(schedule, n - 1, e);
      }
      StepKeepsStarted(StateAt(schedule, n - 1), schedule[n - 1], e);
    }
  }

  // ---------------------------------------------------------------------------------------------
  // What a cancellation returns
  // ---------------------------------------------------------------------------------------------

  /** The `i`-th operation is task `t` raising the cancellation flag of `e`. */
  predicate Flags(schedule: seq<Action>, i: nat, t: TaskId, e: ExecId) {
    && i < |schedule|
    && Moves(StateAt(schedule, i), schedule[i], t) && StateAt(schedule, i).tasks[t] == CancelFlag(e)
  }

  /** The `i`-th operation raises it, for a `cancel` or for `cancel_all`. */
  ghost predicate Flagged(schedule: seq<Action>, i: nat, e: ExecId) {
    i < |schedule| && (schedule[i] == CancelAllFlag(e) || exists u :: Flags(schedule, i, u, e))
  }

  lemma WhatBroughtCancel(s: State, a: Action, t: TaskId, k: Task, e: ExecId)
    requires Next(s, a).At(t, k) && !s.At(t, k)
    ensures k.CancelReturned? && k.target.None? ==> !k.cancelled && a.CancelBegin? && a.t == t && a.id !in s.entries
    ensures k == CancelReturned(Some(e), true) ==> s.At(t, CancelWait(e, true))
    ensures k == CancelReturned(Some(e), false) ==>
              s.At(t, CancelWait(e, false)) || (s.At(t, CancelCheck(e)) && e in s.execs && s.execs[e].done)
    ensures k == CancelFlag(e) ==> s.At(t, CancelCheck(e)) && e in s.execs && !s.execs[e].done
    ensures forall b :: k == CancelWait(e, b) ==>
              Moves(s, a, t) && s.tasks[t] == CancelFlag(e) && e in s.execs && b == !s.execs[e].cancelled
  {
  }

  /** A call raises the flag only after it has found the execution not done. */
  lemma FlagFollowsCheck(schedule: seq<Action>, n: nat, t: TaskId, e: ExecId)
    requires n <= |schedule| && StateAt(schedule, n).At(t, CancelFlag(e))
    ensures exists c: nat :: c < n && StateAt(schedule, c).At(t, CancelCheck(e))
                             && e in StateAt(schedule, c).execs && !StateAt(schedule, c).execs[e].done
  {
    hide Next, Run, Inv, Reachable;
    CameSometime(schedule, n, t, CancelFlag(e));
    var c: nat :| c < n && Came(schedule, c, t, CancelFlag(e));
    StateAfter(schedule, c);
    WhatBroughtCancel(StateAt(schedule, c), schedule[c], t, CancelFlag(e), e);
  }

  /** A call that waits has raised the flag itself, and remembers whether it was the first to. */
  lemma WaitingFlagged(schedule: seq<Action>, n: nat, t: TaskId, e: ExecId, first: bool)
    requires n <= |schedule| && StateAt(schedule, n).At(t, CancelWait(e, first))
    ensures exists i: nat :: i < n && Flags(schedule, i, t, e) && e in StateAt(schedule, i).execs
                             && first == !StateAt(schedule, i).execs[e].cancelled
  {
    hide Next, Run, Inv, Reachable;
    CameSometime(schedule, n, t, CancelWait(e, first));
    var i: nat :| i < n && Came(schedule, i, t, CancelWait(e, first));
    StateAfter(schedule, i);
    WhatBroughtCancel(StateAt(schedule, i), schedule[i], t, CancelWait(e, first), e);
    assert Flags(schedule, i, t, e);
  }

  lemma WhatCancelled(s: State, a: Action, e: ExecId)
    requires e in Next(s, a).execs && Next(s, a).execs[e].cancelled
    ensures || (e in s.execs && s.execs[e].cancelled)
            || a == CancelAllFlag(e)
            || (a.CancelStep? && Moves(s, a, a.t) && s.tasks[a.t] == CancelFlag(e))
  {
  }

  /** An execution is flagged only by someone. */
  lemma {:induction false} CancelledWasFlagged(schedule: seq<Action>, n: nat, e: ExecId)
    requires n <= |schedule| && e in StateAt(schedule, n).execs && StateAt(schedule, n).execs[e].cancelled
    ensures exists i: nat :: i < n && Flagged(schedule, i, e)
  {
    StartsEmpty(schedule);
    hide Next, Run, Inv, Reachable;
    if n > 0 {
      var s, a := StateAt(schedule, n - 1), schedule[n - 1];
      StateAfter(schedule, n - 1);
      WhatCancelled(s, a, e);
      if e in s.execs && s.execs[e].cancelled {
        CancelledWasFlagged(schedule, n - 1, e);
      } else {
        assert a != CancelAllFlag(e) ==> Flags(schedule, n - 1, a.t, e);
        assert Flagged(schedule, n - 1, e);
      }
    }
  }

  /**
   A `cancel` that found its execution returns true if and only if the execution was still running when
   it looked and it was the first to flag it: false means that cleanup was already done, or that
   someone, this call excepted, had raised the flag before.
   */
  lemma CancelReturnsTrueIfFirst(schedule: seq<Action>, n: nat, t: TaskId, e: ExecId, cancelled: bool)
    requires n <= |schedule| && StateAt(schedule, n).At(t, CancelReturned(Some(e), cancelled))
    ensures cancelled ==>
              exists c: nat, i: nat ::
                && c < i < n && StateAt(schedule, c).At(t, CancelCheck(e))
                && e in StateAt(schedule, c).execs && !StateAt(schedule, c).execs[e].done
                && Flags(schedule, i, t, e)
                && e in StateAt(schedule, i).execs && !StateAt(schedule, i).execs[e].cancelled
    ensures !cancelled ==>
              || (exists i: nat :: i < n && StateAt(schedule, i).At(t, CancelCheck(e))
                                   && e in StateAt(schedule, i).execs && StateAt(schedule, i).execs[e].done)
              || (exists i: nat, j: nat :: j < i < n && Flags(schedule, i, t, e) && FlaggedByOther(schedule, j, t, e))
  {
    hide Next, Run, Inv, Reachable;
    var k := CancelReturned(Some(e), cancelled);
    CameSometime(schedule, n, t, k);
    var m: nat :| m < n && Came(schedule, m, t, k);
    StateAfter(schedule, m);
    WhatBroughtCancel(StateAt(schedule, m), schedule[m], t, k, e);
    if StateAt(schedule, m).At(t, CancelWait(e, cancelled)) {
      WaitingFlagged(schedule, m, t, e, cancelled);
      if cancelled {
        var i: nat :| i < m && Flags(schedule, i, t, e) && e in StateAt(schedule, i).execs
                      && !StateAt(schedule, i).execs[e].cancelled;
        FlagFollowsCheck(schedule, i, t, e);
      } else {
        SomeoneElseFlagged(schedule, m, t, e);
      }
    }
  }

  /** A `cancel` answers without having found an execution only if the id was not registered, and then with false. */
  lemma UnknownIdReturnsFalse(schedule: seq<Action>, n: nat, t: TaskId, cancelled: bool)
    requires n <= |schedule| && StateAt(schedule, n).At(t, CancelReturned(None, cancelled))
    ensures !cancelled
    ensures exists i: nat, id :: i < n && schedule[i] == CancelBegin(t, id) && id !in StateAt(schedule, i).entries
  {
    hide Next, Run, Inv, Reachable;
    var k := CancelReturned(None, cancelled);
    CameSometime(schedule, n, t, k);
    var i: nat :| i < n && Came(schedule, i, t, k);
    StateAfter(schedule, i);
    WhatBroughtCancel(StateAt(schedule, i), schedule[i], t, k, 0);
    assert schedule[i] == CancelBegin(t, schedule[i].id);
  }

  /** The `j`-th operation raises the flag, and not for `t`. */
  ghost predicate FlaggedByOther(schedule: seq<Action>, j: nat, t: TaskId, e: ExecId) {
    j < |schedule| && (schedule[j] == CancelAllFlag(e) || exists u :: u != t && Flags(schedule, j, u, e))
  }

  lemma SomeoneElseFlagged(schedule: seq<Action>, m: nat, t: TaskId, e: ExecId)
    requires m <= |schedule| && StateAt(schedule, m).At(t, CancelWait(e, false))
    ensures exists i: nat, j: nat :: j < i < m && Flags(schedule, i, t, e) && FlaggedByOther(schedule, j, t, e)
  {
    hide Next, Run, Inv, Reachable;
    WaitingFlagged(schedule, m, t, e, false);
    var i: nat :| i < m && Flags(schedule, i, t, e) && e in StateAt(schedule, i).execs
                  && StateAt(schedule, i).execs[e].cancelled;
    CancelledWasFlagged(schedule, i, e);
    var j: nat :| j < i && Flagged(schedule, j, e);
    if schedule[j] != CancelAllFlag(e) {
      var u :| Flags(schedule, j, u, e);
      if u == t {
        PastFlagging(schedule, j, i, t, e);
      }
    }
    assert FlaggedByOther(schedule, j, t, e);
  }

  lemma FlagsOnce(s: State, a: Action, t: TaskId)
    requires t in s.tasks
    ensures t in Next(s, a).tasks
    ensures s.tasks[t].CancelWait? || s.tasks[t].CancelReturned? ==>
              Next(s, a).tasks[t].CancelWait? || Next(s, a).tasks[t].CancelReturned?
    ensures Moves(s, a, t) && s.tasks[t].CancelFlag? ==> Next(s, a).tasks[t].CancelWait?
  {
  }

  /** A call flags once. */
  lemma {:induction false} PastFlagging(schedule: seq<Action>, j: nat, i: nat, t: TaskId, e: ExecId)
    requires Flags(schedule, j, t, e) && j < i <= |schedule|
    ensures t in StateAt(schedule, i).tasks
    ensures StateAt(schedule, i).tasks[t].CancelWait? || StateAt(schedule, i).tasks[t].CancelReturned?
  {
    hide Next, Run, Inv, Reachable;
    StateAfter(schedule, i - 1);
    if j < i - 1 {
      PastFlagging(schedule, j, i - 1, t, e);
    }
    FlagsOnce(StateAt(schedule, i - 1), schedule[i - 1], t);
  }

  /** `cancel_all` flags what it finds registered. */
  lemma CancelAllFlags(s: State, e: ExecId)
    requires e in s.execs
    ensures e in Next(s, CancelAllFlag(e)).execs && Next(s, CancelAllFlag(e)).execs[e].cancelled
  {
  }

  /** Cancelled before its process was started, or never to be started. */
  predicate NeverRuns(x: Exec) {
    (x.phase.Registered? && x.cancelled) || !x.Before(Stopped)
  }

  lemma StepKeepsFromRunning(s: State, a: Action, e: ExecId)
    requires e in s.execs && NeverRuns(s.execs[e])
    ensures e in Next(s, a).execs && NeverRuns(Next(s, a).execs[e])
  {
  }

  /** An execution cancelled before its process was started never starts one. */
  lemma {:induction false} CancelledBeforeSpawnNeverRuns(s: State, schedule: seq<Action>, e: ExecId)
    requires e in s.execs && s.execs[e].phase.Registered? && s.execs[e].cancelled
    ensures e in Run(s, schedule).execs && !Run(s, schedule).execs[e].phase.Running?
  {
    StaysFromRunning(s, schedule, e);
  }

  lemma {:induction false} StaysFromRunning(s: State, schedule: seq<Action>, e: ExecId)
    requires e in s.execs && NeverRuns(s.execs[e])
    ensures e in Run(s, schedule).execs && NeverRuns(Run(s, schedule).execs[e])
    decreases |schedule|
  {
    if schedule != [] {
      StepKeepsFromRunning(s, schedule[0], e);
      StaysFromRunning(Next(s, schedule[0]), schedule[1..], e);
    }
  }

  // ---------------------------------------------------------------------------------------------
  // What was asked for
  // ---------------------------------------------------------------------------------------------

  /** What was asked for when the task began: whether exclusive, and for which id. */
  ghost predicate AsAsked(schedule: seq<Action>, n: nat, t: TaskId, k: Task, execs: map<ExecId, Exec>) {
    match k
    case StartContains(id, x) => Entered(schedule, n, t, id, x)
    case StartLoad(id, x) => Entered(schedule, n, t, id, x)
    case StartCas(id) => Entered(schedule, n, t, id, true)
    case StartInsert(id, x) => Entered(schedule, n, t, id, x)
    case Started(e) => e in execs && Entered(schedule, n, t, execs[e].id, execs[e].exclusive)
    case LegacyLoad(x) => Began(schedule, n, t, x)
    case LegacyCas => Began(schedule, n, t, true)
    case LegacyRunning(x) => Began(schedule, n, t, x)
    case _ => true
  }

  ghost predicate Entered(schedule: seq<Action>, n: nat, t: TaskId, id: StdinId, exclusive: bool) {
    exists i: nat :: i < n && i < |schedule| && schedule[i] == StartEnter(t, id, exclusive)
  }

  ghost predicate Began(schedule: seq<Action>, n: nat, t: TaskId, exclusive: bool) {
    exists i: nat :: i < n && i < |schedule| && schedule[i] == LegacyBegin(t, exclusive)
  }

  lemma StepAsAsked(schedule: seq<Action>, n: nat, s: State, t: TaskId)
    requires n < |schedule| && t in Next(s, schedule[n]).tasks
    requires t in s.tasks ==> AsAsked(schedule, n, t, s.tasks[t], s.execs)
    ensures AsAsked(schedule, n + 1, t, Next(s, schedule[n]).tasks[t], Next(s, schedule[n]).execs)
  {
    var s', k' := Next(s, schedule[n]), Next(s, schedule[n]).tasks[t];
    EarlierEntered(schedule, n, t);
    if t !in s.tasks {
      NewTaskAsAsked(s, schedule[n], t);
    } else if k' != s.tasks[t] {
      StepKeepsAsked(s, schedule[n], t);
    } else if k'.Started? {
      StepKeepsExecs(s, schedule[n], k'.exec);
    }
    hide Next;
  }

  lemma NewTaskAsAsked(s: State, a: Action, t: TaskId)
    requires t !in s.tasks && t in Next(s, a).tasks
    ensures match Next(s, a).tasks[t]
            case StartContains(id, x) => a == StartEnter(t, id, x)
            case LegacyLoad(x) => a == LegacyBegin(t, x)
            case CancelCheck(_) => true
            case CancelReturned(_, _) => true
            case _ => false
  {
  }

  lemma EarlierEntered(schedule: seq<Action>, n: nat, t: TaskId)
    ensures forall id, x :: Entered(schedule, n, t, id, x) ==> Entered(schedule, n + 1, t, id, x)
    ensures forall x :: Began(schedule, n, t, x) ==> Began(schedule, n + 1, t, x)
  {
  }

  /** What a task was begun for never changes on its way. */
  lemma StepKeepsAsked(s: State, a: Action, t: TaskId)
    requires t in s.tasks && t in Next(s, a).tasks && Next(s, a).tasks[t] != s.tasks[t]
    ensures match Next(s, a).tasks[t]
            case StartContains(_, _) => false
            case StartLoad(id, x) => s.tasks[t] == StartContains(id, x)
            case StartCas(id) => s.tasks[t] == StartLoad(id, true)
            case StartInsert(id, x) => s.tasks[t] == if x then StartCas(id) else StartLoad(id, false)
            case Started(e) =>
              e in Next(s, a).execs
              && s.tasks[t] == StartInsert(Next(s, a).execs[e].id, Next(s, a).execs[e].exclusive)
            case LegacyLoad(_) => false
            case LegacyCas => s.tasks[t] == LegacyLoad(true)
            case LegacyRunning(x) => s.tasks[t] == if x then LegacyCas else LegacyLoad(false)
            case LegacyEnded => s.tasks[t].LegacyRunning?
            case _ => true
  {
  }

  lemma StepKeepsExecs(s: State, a: Action, e: ExecId)
    requires e in s.execs
    ensures e in Next(s, a).execs
    ensures Next(s, a).execs[e].id == s.execs[e].id && Next(s, a).execs[e].exclusive == s.execs[e].exclusive
  {
  }

  /** Every start and every legacy command goes through as it was asked for, and so does the execution it registers. */
  lemma {:induction false} RunsAsAsked(schedule: seq<Action>, n: nat, t: TaskId)
    requires n <= |schedule| && t in StateAt(schedule, n).tasks
    ensures AsAsked(schedule, n, t, StateAt(schedule, n).tasks[t], StateAt(schedule, n).execs)
  {
    StartsEmpty(schedule);
    hide Next, Run, Inv, Reachable, AsAsked;
    if n > 0 {
      StateAfter(schedule, n - 1);
      if t in StateAt(schedule, n - 1).tasks {
        RunsAsAsked(schedule, n - 1, t);
      }
      StepAsAsked(schedule, n - 1, StateAt(schedule, n - 1), t);
    }
  }
}
