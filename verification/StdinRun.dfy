/**
 One stdin execution from its start to its last event: the select loop that drives it, the outcomes
 that end it, and the events the receiver sees.

 `script` lists what each round of the select picks; the receiver takes `accepts` events and then is
 gone, after which every send fails.
 */
module StdinRun {
  import opened Wrappers

  type Text = string

  datatype Event = Ready | Stdout(data: Text) | Stderr(data: Text) | Exit(code: int)

  /** What one pipe reader does next. */
  datatype Piece = Part(data: Text) | Done | Failed(message: Text)

  /** What the outer select waits for beside the driving loop, which it polls last. */
  datatype Interruption = Cancelled | ReceiverGone | Deadline

  datatype Choice =
    | Outer(interruption: Interruption)
    | ChildExited(status: Option<int>, killed: bool)
    | WriterEnded(ok: bool, message: Text)
    | FromStdout(piece: Piece)
    | FromStderr(piece: Piece)

  datatype Outcome = Exited(code: int) | Faulted(message: Text) | Disconnected | Unfinished

  /** An observable act: an event reaching the receiver, or the registration's cleanup. */
  datatype Act = Sent(event: Event) | Cleanup

  // ---------------------------------------------------------------------------------------------
  // The shape of a complete run
  // ---------------------------------------------------------------------------------------------

  predicate IsOutput(a: Act) {
    a.Sent? && (a.event.Stdout? || a.event.Stderr?)
  }

  /** Ready once and first, then any output. */
  predicate Live(acts: seq<Act>) {
    acts != [] ==> acts[0] == Sent(Ready) && forall k :: 1 <= k < |acts| ==> IsOutput(acts[k])
  }

  /** What follows cleanup: one Exit, preceded after a fault by its message, and then with code -1. */
  predicate Terminal(acts: seq<Act>) {
    || (|acts| == 1 && acts[0].Sent? && acts[0].event.Exit?)
    || (|acts| == 2 && acts[0].Sent? && acts[0].event.Stderr? && acts[1] == Sent(Exit(-1)))
  }

  ghost predicate Complete(acts: seq<Act>) {
    exists live, terminal ::
      && acts == live + [Cleanup] + terminal
      && Live(live) && Terminal(terminal) && (live == [] ==> |terminal| == 2)
  }

  ghost predicate Truncated(acts: seq<Act>) {
    exists whole :: Complete(whole) && acts <= whole
  }

  /** A sequence of events is one a connected receiver may see in full. */
  ghost predicate CompleteEvents(events: seq<Event>) {
    || (|events| == 2 && events[0].Stderr? && events[1] == Exit(-1))
    || (&& |events| >= 2 && events[0].Ready? && events[|events| - 1].Exit?
        && forall k :: 1 <= k < |events| - 1 ==> events[k].Stdout? || events[k].Stderr?)
  }

  function EventsOf(acts: seq<Act>): seq<Event> {
    if acts == [] then []
    else (if acts[0].Sent? then [acts[0].event] else []) + EventsOf(acts[1..])
  }

  lemma {:induction false} EventsOfAppend(a: seq<Act>, b: seq<Act>)
    ensures EventsOf(a + b) == EventsOf(a) + EventsOf(b)
  {
    if a == [] {
      assert a + b == b;
    } else {
      assert (a + b)[1..] == a[1..] + b && (a + b)[0] == a[0];
      EventsOfAppend(a[1..], b);
      var first := if a[0].Sent? then [a[0].event] else [];
      assert first + (EventsOf(a[1..]) + EventsOf(b)) == first + EventsOf(a[1..]) + EventsOf(b);
    }
  }

  lemma {:induction false} EventsOfSent(acts: seq<Act>)
    requires forall k :: 0 <= k < |acts| ==> acts[k].Sent?
    ensures |EventsOf(acts)| == |acts|
    ensures forall k :: 0 <= k < |acts| ==> EventsOf(acts)[k] == acts[k].event
  {
    if acts != [] {
      EventsOfSent(acts[1..]);
    }
  }

  /** `events` are the acts' events one by one. */
  predicate Matches(acts: seq<Act>, events: seq<Event>) {
    && |events| == |acts|
    && forall k :: 0 <= k < |acts| ==> acts[k] == Sent(events[k])
  }

  lemma LiveEvents(live: seq<Act>)
    requires Live(live)
    ensures Matches(live, EventsOf(live))
  {
    EventsOfSent(live);
  }

  lemma TerminalEvents(terminal: seq<Act>)
    requires Terminal(terminal)
    ensures Matches(terminal, EventsOf(terminal))
  {
    EventsOfSent(terminal);
  }

  lemma PartsLookRight(live: seq<Act>, terminal: seq<Act>, before: seq<Event>, after: seq<Event>)
    requires Live(live) && Terminal(terminal) && (live == [] ==> |terminal| == 2)
    requires Matches(live, before) && Matches(terminal, after)
    ensures CompleteEvents(before + after)
  {
    var events := before + after;
    if live == [] {
      assert events == after;
    } else {
      assert events[0] == before[0] && events[|events| - 1] == after[|after| - 1];
      forall k | 1 <= k < |events| - 1 ensures events[k].Stdout? || events[k].Stderr? {
        if k < |before| {
          assert IsOutput(live[k]);
        } else {
          assert events[k] == after[k - |before|];
        }
      }
    }
  }

  /** Ready, output, at most one final message, Exit; or, without Ready, a message and Exit -1. */
  lemma CompleteRunsLookRight(acts: seq<Act>)
    requires Complete(acts)
    ensures CompleteEvents(EventsOf(acts))
    ensures |acts| == |EventsOf(acts)| + 1
  {
    var live, terminal :|
      && acts == live + [Cleanup] + terminal
      && Live(live) && Terminal(terminal) && (live == [] ==> |terminal| == 2);
    assert EventsOf([Cleanup]) == [];
    hide EventsOf, Live, Terminal, CompleteEvents;
    LiveEvents(live);
    TerminalEvents(terminal);
    PartsLookRight(live, terminal, EventsOf(live), EventsOf(terminal));
    EventsOfAppend(live + [Cleanup], terminal);
    EventsOfAppend(live, [Cleanup]);
    assert EventsOf(live) + [] == EventsOf(live);
  }

  lemma CompleteWitness(live: seq<Act>, terminal: seq<Act>)
    requires Live(live) && Terminal(terminal) && (live == [] ==> |terminal| == 2)
    ensures Complete(live + [Cleanup] + terminal)
  {
  }

  lemma LiveIsTruncated(live: seq<Act>)
    requires Live(live)
    ensures Truncated(live) && Truncated(live + [Cleanup])
    ensures Truncated(live + [Cleanup] + [Sent(Stderr(""))])
  {
    var terminal := [Sent(Stderr("")), Sent(Exit(-1))];
    CompleteWitness(live, terminal);
    var whole := live + [Cleanup] + terminal;
    assert live <= whole && live + [Cleanup] <= whole && live + [Cleanup] + [Sent(Stderr(""))] <= whole;
  }

  // ---------------------------------------------------------------------------------------------
  // Driving
  // ---------------------------------------------------------------------------------------------

  /** The output that one more choice picks up: what its pipe delivers until it is drained. */
  function HeardIn(rounds: seq<Choice>, choice: Choice): seq<Act> {
    match choice
    case FromStdout(Part(data)) => if FromStdout(Done) in rounds then [] else [Sent(Stdout(data))]
    case FromStderr(Part(data)) => if FromStderr(Done) in rounds then [] else [Sent(Stderr(data))]
    case _ => []
  }

  /** The output picked up in these rounds. */
  function Heard(rounds: seq<Choice>): seq<Act> {
    if rounds == [] then []
    else
      var n := |rounds| - 1;
      Heard(rounds[..n]) + HeardIn(rounds[..n], rounds[n])
  }

  /** The child's exit status: only the first report counts. */
  function FirstExit(rounds: seq<Choice>): Option<int> {
    if rounds == [] then None
    else
      var n := |rounds| - 1;
      if FirstExit(rounds[..n]).Some? || !rounds[n].ChildExited? then FirstExit(rounds[..n]) else rounds[n].status
  }

  predicate IsFinished(rounds: seq<Choice>) {
    FromStdout(Done) in rounds && FromStderr(Done) in rounds && FirstExit(rounds).Some?
  }

  /** The writer is polled until it has ended or the child has exited. */
  predicate WriterGone(rounds: seq<Choice>) {
    exists k :: 0 <= k < |rounds| && (rounds[k].WriterEnded? || rounds[k].ChildExited?)
  }

  /** The error with which a choice ends the run when it is picked after `rounds`, if it does. */
  function Fault(rounds: seq<Choice>, choice: Choice, receiverFull: bool): Option<Text> {
    match choice
    case Outer(_) => None
    case ChildExited(status, killed) =>
      if FirstExit(rounds).Some? then None
      else if status.None? then Some("Failed to wait for command")
      else if !killed then Some("Failed to kill command descendants") else None
    case WriterEnded(ok, message) => if ok || WriterGone(rounds) then None else Some(message)
    case FromStdout(piece) => if FromStdout(Done) in rounds then None else PieceFault(piece, receiverFull)
    case FromStderr(piece) => if FromStderr(Done) in rounds then None else PieceFault(piece, receiverFull)
  }

  function PieceFault(piece: Piece, receiverFull: bool): Option<Text> {
    match piece
    case Part(_) => if receiverFull then Some("Output transport closed") else None
    case Done => None
    case Failed(message) => Some(message)
  }

  /** The error of round `k`: the receiver has by then taken Ready and what was heard. */
  function FaultAt(script: seq<Choice>, k: nat, accepts: nat): Option<Text>
    requires k < |script|
  {
    Fault(script[..k], script[k], 1 + |Heard(script[..k])| == accepts)
  }

  /** Nothing ends the run before round `n`. */
  ghost predicate GoesOn(script: seq<Choice>, n: nat, accepts: nat)
    requires n <= |script|
  {
    forall k :: 0 <= k < n ==> !script[k].Outer? && FaultAt(script, k, accepts).None? && !IsFinished(script[..k])
  }

  /** How the run ends if nothing has ended it before round `n`. */
  function EndAt(script: seq<Choice>, n: nat, accepts: nat): Outcome
    requires n <= |script|
  {
    if IsFinished(script[..n]) then Exited(FirstExit(script[..n]).value)
    else if n == |script| then Unfinished
    else if script[n].Outer? then Interrupted(script[n].interruption)
    else match FaultAt(script, n, accepts)
      case Some(message) => Faulted(message)
      case None => Unfinished
  }

  /** How an interruption ends the run. */
  function Interrupted(interruption: Interruption): Outcome {
    match interruption
    case Cancelled => Faulted("Command cancelled")
    case ReceiverGone => Disconnected
    case Deadline => Faulted("Command timed out")
  }

  lemma OneMoreRound(script: seq<Choice>, k: nat)
    requires k < |script|
    ensures forall c :: c in script[..k + 1] <==> c in script[..k] || c == script[k]
    ensures Heard(script[..k + 1]) == Heard(script[..k]) + HeardIn(script[..k], script[k])
    ensures FirstExit(script[..k + 1]) == if FirstExit(script[..k]).Some? || !script[k].ChildExited?
                                          then FirstExit(script[..k]) else script[k].status
    ensures WriterGone(script[..k + 1]) <==>
            WriterGone(script[..k]) || script[k].WriterEnded? || script[k].ChildExited?
  {
    var longer := script[..k + 1];
    assert longer == script[..k] + [script[k]] && longer[..k] == script[..k];
    hide HeardIn;
    if WriterGone(longer) {
      var i :| 0 <= i < |longer| && (longer[i].WriterEnded? || longer[i].ChildExited?);
      assert i < k ==> script[..k][i] == longer[i];
    }
    if WriterGone(script[..k]) {
      var i :| 0 <= i < k && (script[..k][i].WriterEnded? || script[..k][i].ChildExited?);
      assert longer[i] == script[..k][i];
    }
    assert longer[k] == script[k];
  }

  lemma NoRounds(script: seq<Choice>, accepts: nat)
    ensures Heard(script[..0]) == [] && FirstExit(script[..0]) == None && !WriterGone(script[..0])
    ensures GoesOn(script, 0, accepts)
  {
  }

  lemma GoesOnOneMore(script: seq<Choice>, k: nat, accepts: nat)
    requires k < |script| && GoesOn(script, k, accepts)
    requires !script[k].Outer? && !IsFinished(script[..k]) && FaultAt(script, k, accepts).None?
    ensures GoesOn(script, k + 1, accepts) && script[..k] + [script[k]] == script[..k + 1]
  {
  }

  lemma EndsHere(script: seq<Choice>, k: nat, accepts: nat)
    requires k < |script|
    ensures var end := EndAt(script, k, accepts);
            var fault := Fault(script[..k], script[k], 1 + |Heard(script[..k])| == accepts);
            && fault == FaultAt(script, k, accepts)
            && if IsFinished(script[..k]) then end == Exited(FirstExit(script[..k]).value)
               else if script[k].Outer? then end == Interrupted(script[k].interruption)
               else fault.Some? ==> end == Faulted(fault.value)
  {
  }

  lemma EndsAtLast(script: seq<Choice>, accepts: nat)
    ensures script[..|script|] == script
    ensures EndAt(script, |script|, accepts) ==
            if IsFinished(script) then Exited(FirstExit(script).value) else Unfinished
  {
    assert script[..|script|] == script;
  }

  function PieceHeard(piece: Piece, isStderr: bool): seq<Act> {
    match piece
    case Part(data) => [Sent(if isStderr then Stderr(data) else Stdout(data))]
    case _ => []
  }

  /** What one pipe reader does with its next piece. */
  method PickUp(piece: Piece, isStderr: bool, live: seq<Act>, accepts: nat)
    returns (acts: seq<Act>, done: bool, error: Option<Text>)
    requires Live(live) && 0 < |live| <= accepts
    ensures done <==> piece.Done?
    ensures error == PieceFault(piece, |live| == accepts)
    ensures acts == if error.Some? then live else live + PieceHeard(piece, isStderr)
    ensures Live(acts) && |acts| <= accepts
  {
    acts, done, error := live, false, None;
    match piece
    case Part(data) =>
      if |acts| == accepts {
        error := Some("Output transport closed");
      } else {
        acts := acts + [Sent(if isStderr then Stderr(data) else Stdout(data))];
      }
    case Done => done := true;
    case Failed(message) => error := Some(message);
  }

  /** The loop's variables; `writing` while the writer is there to be polled. */
  datatype Loop = Loop(acts: seq<Act>, exitCode: Option<int>, stdoutDone: bool, stderrDone: bool, writing: bool)

  ghost predicate Tracks(vars: Loop, rounds: seq<Choice>) {
    && Live(vars.acts) && vars.acts == [Sent(Ready)] + Heard(rounds)
    && vars.exitCode == FirstExit(rounds)
    && (vars.stdoutDone <==> FromStdout(Done) in rounds)
    && (vars.stderrDone <==> FromStderr(Done) in rounds)
    && (vars.writing <==> !WriterGone(rounds))
  }

  lemma {:induction false} ExitEndsWriter(rounds: seq<Choice>)
    ensures FirstExit(rounds).Some? ==> WriterGone(rounds)
  {
    if rounds != [] {
      var n := |rounds| - 1;
      ExitEndsWriter(rounds[..n]);
      OneMoreRound(rounds, n);
      assert rounds[..n + 1] == rounds;
    }
  }

  lemma TracksMeaning(vars: Loop, rounds: seq<Choice>)
    requires Tracks(vars, rounds)
    ensures Live(vars.acts) && vars.acts == [Sent(Ready)] + Heard(rounds) && vars.exitCode == FirstExit(rounds)
    ensures vars.stdoutDone && vars.stderrDone && vars.exitCode.Some? <==> IsFinished(rounds)
    ensures vars.stdoutDone <==> FromStdout(Done) in rounds
    ensures vars.stderrDone <==> FromStderr(Done) in rounds
    ensures (vars.writing <==> !WriterGone(rounds)) && (vars.exitCode.Some? ==> !vars.writing)
  {
    ExitEndsWriter(rounds);
  }

  lemma TracksNext(vars: Loop, next: Loop, rounds: seq<Choice>, choice: Choice)
    requires Tracks(vars, rounds) && Live(next.acts) && next.acts == vars.acts + HeardIn(rounds, choice)
    requires next.exitCode ==
             if vars.exitCode.Some? || !choice.ChildExited? then vars.exitCode else choice.status
    requires next.stdoutDone <==> vars.stdoutDone || choice == FromStdout(Done)
    requires next.stderrDone <==> vars.stderrDone || choice == FromStderr(Done)
    requires next.writing <==> vars.writing && !choice.WriterEnded? && !choice.ChildExited?
    ensures Tracks(next, rounds + [choice])
  {
    var later, more := rounds + [choice], HeardIn(rounds, choice);
    assert later[..|rounds|] == rounds && later[..|rounds| + 1] == later && later[|rounds|] == choice;
    OneMoreRound(later, |rounds|);
    hide Heard, HeardIn, FirstExit, WriterGone, Live;
    assert [Sent(Ready)] + Heard(rounds) + more == [Sent(Ready)] + (Heard(rounds) + more);
  }

  lemma EndAtMeaning(script: seq<Choice>, n: nat, accepts: nat)
    requires n <= |script|
    ensures var end := EndAt(script, n, accepts);
            && (end.Exited? ==> IsFinished(script[..n]) && FirstExit(script[..n]) == Some(end.code))
            && (end.Disconnected? ==> n < |script| && script[n] == Outer(ReceiverGone))
  {
  }

  /** One turn of the loop for a choice of its own select. */
  method Round(vars: Loop, choice: Choice, accepts: nat, ghost rounds: seq<Choice>)
    returns (next: Loop, error: Option<Text>)
    requires Tracks(vars, rounds) && |vars.acts| <= accepts && !choice.Outer?
    ensures error == Fault(rounds, choice, 1 + |Heard(rounds)| == accepts)
    ensures error.None? ==> Tracks(next, rounds + [choice]) && |vars.acts| <= |next.acts| <= accepts
  {
    TracksMeaning(vars, rounds);
    hide Heard, FirstExit, WriterGone, IsFinished, Live;
    next, error := vars, None;
    match choice {
      case ChildExited(status, killed) =>
        if vars.exitCode.None? {
          next := next.(writing := false, exitCode := status);
          if status.None? {
            error := Some("Failed to wait for command");
          } else if !killed {
            error := Some("Failed to kill command descendants");
          }
        }
      case WriterEnded(ok, message) =>
        if vars.writing {
          next := next.(writing := false);
          if !ok {
            error := Some(message);
          }
        }
      case FromStdout(piece) =>
        if !vars.stdoutDone {
          var acts, done, failure := PickUp(piece, false, vars.acts, accepts);
          next, error := next.(acts := acts, stdoutDone := done), failure;
        }
      case FromStderr(piece) =>
        if !vars.stderrDone {
          var acts, done, failure := PickUp(piece, true, vars.acts, accepts);
          next, error := next.(acts := acts, stderrDone := done), failure;
        }
    }
    if error.None? {
      TracksNext(vars, next, rounds, choice);
    }
  }

  /**
   `early` is an interruption that the select finds before it first polls the loop, so before Ready.
   Otherwise the loop starts with Ready and keeps picking until the child has exited and both pipes are
   drained, or something fails.  Choices whose guard is off are skipped.
   */
  method Drive(early: Option<Interruption>, script: seq<Choice>, accepts: nat)
    returns (acts: seq<Act>, outcome: Outcome, ghost rounds: nat)
    ensures Live(acts) && |acts| <= accepts && rounds <= |script|
    ensures acts == if early.Some? || accepts == 0 then [] else [Sent(Ready)] + Heard(script[..rounds])
    ensures early.Some? ==> outcome == Interrupted(early.value)
    ensures (early == Some(Cancelled) ==> outcome == Faulted("Command cancelled"))
            && (early == Some(Deadline) ==> outcome == Faulted("Command timed out"))
    ensures early.None? && accepts == 0 ==> outcome == Faulted("Output transport closed")
    ensures early.None? && accepts > 0 ==> GoesOn(script, rounds, accepts) && outcome == EndAt(script, rounds, accepts)
    ensures outcome.Unfinished? ==> rounds == |script|
  {
    rounds := 0;
    if early.Some? {
      return [], Interrupted(early.value), rounds;
    }
    if accepts == 0 {
      return [], Faulted("Output transport closed"), rounds;
    }
    var vars := Loop([Sent(Ready)], None, false, false, true);
    NoRounds(script, accepts);
    assert Tracks(vars, script[..0]);
    hide *;
    for k := 0 to |script|
      invariant Tracks(vars, script[..k]) && 0 < |vars.acts| <= accepts
      invariant GoesOn(script, k, accepts)
    {
      rounds := k;
      EndsHere(script, k, accepts);
      TracksMeaning(vars, script[..k]);
      if vars.stdoutDone && vars.stderrDone && vars.exitCode.Some? {
        return vars.acts, Exited(vars.exitCode.value), rounds;
      }
      if script[k].Outer? {
        return vars.acts, Interrupted(script[k].interruption), rounds;
      }
      var next, error := Round(vars, script[k], accepts, script[..k]);
      if error.Some? {
        return vars.acts, Faulted(error.value), rounds;
      }
      GoesOnOneMore(script, k, accepts);
      vars := next;
    }
    rounds := |script|;
    EndsAtLast(script, accepts);
    TracksMeaning(vars, script);
    if vars.stdoutDone && vars.stderrDone && vars.exitCode.Some? {
      return vars.acts, Exited(vars.exitCode.value), rounds;
    }
    return vars.acts, Unfinished, rounds;
  }

  // ---------------------------------------------------------------------------------------------
  // What was heard, and what an exit code means
  // ---------------------------------------------------------------------------------------------

  /** What the chosen round gives the reader of one pipe. */
  function PieceOf(choice: Choice, isStderr: bool): Option<Piece> {
    match choice
    case FromStdout(piece) => if isStderr then None else Some(piece)
    case FromStderr(piece) => if isStderr then Some(piece) else None
    case _ => None
  }

  /** What one pipe delivered until it was drained. */
  function PartsOf(rounds: seq<Choice>, isStderr: bool): seq<Text> {
    if rounds == [] then []
    else
      match PieceOf(rounds[0], isStderr)
      case Some(Part(data)) => [data] + PartsOf(rounds[1..], isStderr)
      case Some(Done) => []
      case _ => PartsOf(rounds[1..], isStderr)
  }

  function TextOf(act: Act, isStderr: bool): seq<Text> {
    match act
    case Sent(Stdout(data)) => if isStderr then [] else [data]
    case Sent(Stderr(data)) => if isStderr then [data] else []
    case _ => []
  }

  /** The text that the receiver got from one pipe, event by event. */
  function TextsOf(acts: seq<Act>, isStderr: bool): seq<Text> {
    if acts == [] then []
    else
      var n := |acts| - 1;
      TextsOf(acts[..n], isStderr) + TextOf(acts[n], isStderr)
  }

  predicate Drained(rounds: seq<Choice>, isStderr: bool) {
    exists k :: 0 <= k < |rounds| && PieceOf(rounds[k], isStderr) == Some(Done)
  }

  lemma DrainedMeaning(rounds: seq<Choice>)
    ensures Drained(rounds, false) <==> FromStdout(Done) in rounds
    ensures Drained(rounds, true) <==> FromStderr(Done) in rounds
  {
    forall k, isStderr | 0 <= k < |rounds|
      ensures PieceOf(rounds[k], isStderr) == Some(Done) <==>
              rounds[k] == if isStderr then FromStderr(Done) else FromStdout(Done)
    {
    }
  }

  lemma {:induction false} PartsOfSnoc(rounds: seq<Choice>, choice: Choice, isStderr: bool)
    ensures PartsOf(rounds + [choice], isStderr) ==
            PartsOf(rounds, isStderr)
            + if Drained(rounds, isStderr) then [] else PartsOf([choice], isStderr)
  {
    if rounds == [] {
      assert rounds + [choice] == [choice];
    } else {
      var rest := rounds[1..];
      assert (rounds + [choice])[1..] == rest + [choice] && (rounds + [choice])[0] == rounds[0];
      PartsOfSnoc(rest, choice, isStderr);
      assert Drained(rounds, isStderr) <==> PieceOf(rounds[0], isStderr) == Some(Done) || Drained(rest, isStderr) by {
        assert forall k :: 1 <= k < |rounds| ==> rest[k - 1] == rounds[k];
        assert rounds == [rounds[0]] + rest;
      }
    }
  }

  lemma TextsOfOne(acts: seq<Act>, act: Act, isStderr: bool)
    ensures TextsOf(acts + [act], isStderr) == TextsOf(acts, isStderr) + TextOf(act, isStderr)
  {
    assert (acts + [act])[..|acts|] == acts;
  }

  lemma HeardOneMore(acts: seq<Act>, rounds: seq<Choice>, choice: Choice, isStderr: bool)
    ensures TextsOf(acts + HeardIn(rounds, choice), isStderr)
            == TextsOf(acts, isStderr) + if Drained(rounds, isStderr) then [] else PartsOf([choice], isStderr)
  {
    DrainedMeaning(rounds);
    hide Drained, TextsOf;
    assert PartsOf([choice][1..], isStderr) == [];
    var heard := HeardIn(rounds, choice);
    if heard == [] {
      assert acts + heard == acts;
    } else {
      assert heard == [heard[0]];
      TextsOfOne(acts, heard[0], isStderr);
    }
  }

  lemma HeardStep(rounds: seq<Choice>, choice: Choice, isStderr: bool)
    requires TextsOf(Heard(rounds), isStderr) == PartsOf(rounds, isStderr)
    ensures TextsOf(Heard(rounds + [choice]), isStderr) == PartsOf(rounds + [choice], isStderr)
  {
    hide PartsOf, TextsOf, Drained, HeardIn;
    assert (rounds + [choice])[..|rounds|] == rounds;
    HeardOneMore(Heard(rounds), rounds, choice, isStderr);
    PartsOfSnoc(rounds, choice, isStderr);
  }

  lemma NothingHeard(isStderr: bool)
    ensures TextsOf(Heard([]), isStderr) == PartsOf([], isStderr)
  {
  }

  /** Of each pipe the receiver has got exactly what it delivered until it was drained, piece by piece, in order. */
  lemma {:induction false} HeardIsDelivered(rounds: seq<Choice>, isStderr: bool)
    ensures TextsOf(Heard(rounds), isStderr) == PartsOf(rounds, isStderr)
  {
    NothingHeard(isStderr);
    hide *;
    if rounds != [] {
      var n := |rounds| - 1;
      HeardIsDelivered(rounds[..n], isStderr);
      HeardStep(rounds[..n], rounds[n], isStderr);
      assert rounds[..n] + [rounds[n]] == rounds;
    }
  }

  /** `code` is the status in the first report of the child's exit, and its descendants were killed. */
  ghost predicate ExitedFirst(rounds: seq<Choice>, code: int) {
    exists k :: 0 <= k < |rounds| && rounds[k] == ChildExited(Some(code), true)
                && forall j :: 0 <= j < k ==> !rounds[j].ChildExited?
  }

  /** A round that reports a failure only where nothing listens any more. */
  ghost predicate Harmless(before: seq<Choice>, choice: Choice) {
    && !choice.Outer?
    && (choice.WriterEnded? && !choice.ok ==> WriterGone(before))
    && (choice.FromStdout? && choice.piece.Failed? ==> FromStdout(Done) in before)
    && (choice.FromStderr? && choice.piece.Failed? ==> FromStderr(Done) in before)
  }

  /**
   Nothing failed in these rounds: the child exited with `code`, the writer had not failed before it
   ended or the child exited, and neither pipe failed before it was drained.
   */
  ghost predicate NothingFailed(rounds: seq<Choice>, code: int) {
    ExitedFirst(rounds, code) && forall k :: 0 <= k < |rounds| ==> Harmless(rounds[..k], rounds[k])
  }

  lemma NoFaultIsHarmless(script: seq<Choice>, k: nat, accepts: nat)
    requires k < |script| && !script[k].Outer? && FaultAt(script, k, accepts).None?
    ensures Harmless(script[..k], script[k])
    ensures script[k].ChildExited? && FirstExit(script[..k]).None? ==> script[k].status.Some? && script[k].killed
  {
    hide Heard, WriterGone, FirstExit;
  }

  lemma ExitedFirstOneMore(rounds: seq<Choice>, choice: Choice, code: int)
    ensures ExitedFirst(rounds, code) ==> ExitedFirst(rounds + [choice], code)
    ensures choice == ChildExited(Some(code), true) && (forall j :: 0 <= j < |rounds| ==> !rounds[j].ChildExited?)
            ==> ExitedFirst(rounds + [choice], code)
  {
    var longer := rounds + [choice];
    assert forall j :: 0 <= j < |rounds| ==> longer[j] == rounds[j];
    assert longer[|rounds|] == choice;
  }

  /** The status the loop remembers is the one in the first report. */
  ghost predicate RemembersFirst(rounds: seq<Choice>) {
    match FirstExit(rounds)
    case Some(code) => ExitedFirst(rounds, code)
    case None => forall j :: 0 <= j < |rounds| ==> !rounds[j].ChildExited?
  }

  lemma RemembersFirstOneMore(rounds: seq<Choice>, choice: Choice)
    requires RemembersFirst(rounds)
    requires choice.ChildExited? && FirstExit(rounds).None? ==> choice.status.Some? && choice.killed
    ensures RemembersFirst(rounds + [choice])
  {
    var longer := rounds + [choice];
    assert longer[..|rounds|] == rounds && longer[|rounds|] == choice;
    var exit := FirstExit(longer);
    assert exit == if FirstExit(rounds).Some? || !choice.ChildExited? then FirstExit(rounds) else choice.status;
    hide FirstExit;
    if exit.Some? {
      ExitedFirstOneMore(rounds, choice, exit.value);
    }
  }

  lemma {:induction false} FirstExitIs(script: seq<Choice>, n: nat, accepts: nat)
    requires n <= |script| && GoesOn(script, n, accepts)
    ensures RemembersFirst(script[..n])
  {
    if n > 0 {
      FirstExitIs(script, n - 1, accepts);
      NoFaultIsHarmless(script, n - 1, accepts);
      hide RemembersFirst, GoesOn;
      assert script[..n] == script[..n - 1] + [script[n - 1]];
      RemembersFirstOneMore(script[..n - 1], script[n - 1]);
    }
  }

  /** An execution ends with the child's exit code only if nothing has failed. */
  lemma ExitMeansNothingFailed(script: seq<Choice>, n: nat, accepts: nat, code: int)
    requires n <= |script| && GoesOn(script, n, accepts) && EndAt(script, n, accepts) == Exited(code)
    ensures IsFinished(script[..n]) && NothingFailed(script[..n], code)
  {
    var rounds := script[..n];
    EndAtMeaning(script, n, accepts);
    FirstExitIs(script, n, accepts);
    forall k | 0 <= k < n ensures Harmless(rounds[..k], rounds[k]) {
      assert rounds[k] == script[k] && rounds[..k] == script[..k];
      NoFaultIsHarmless(script, k, accepts);
    }
  }

  /** The child exits with `code` and both pipes are drained before anything fails, and the receiver is there. */
  ghost predicate Healthy(script: seq<Choice>, accepts: nat, code: int) {
    exists m: nat ::
      m <= |script| && IsFinished(script[..m]) && NothingFailed(script[..m], code) && |Heard(script[..m])| < accepts
  }

  lemma {:induction false} HeardGrows(script: seq<Choice>, k: nat, m: nat)
    requires k <= m <= |script|
    ensures |Heard(script[..k])| <= |Heard(script[..m])|
  {
    hide Heard, HeardIn, FirstExit, WriterGone;
    if k < m {
      HeardGrows(script, k, m - 1);
      OneMoreRound(script, m - 1);
    }
  }

  lemma HarmlessIsNoFault(script: seq<Choice>, k: nat, m: nat, accepts: nat, code: int)
    requires k < m <= |script| && Harmless(script[..k], script[k]) && |Heard(script[..m])| < accepts
    requires script[k].ChildExited? && FirstExit(script[..k]).None? ==> script[k] == ChildExited(Some(code), true)
    ensures !script[k].Outer? && FaultAt(script, k, accepts).None?
  {
    OneMoreRound(script, k);
    HeardGrows(script, k + 1, m);
    hide Heard, WriterGone, FirstExit;
  }

  lemma FirstExitsAgree(script: seq<Choice>, k: nat, m: nat, code: int)
    requires k <= m <= |script| && RemembersFirst(script[..k]) && ExitedFirst(script[..m], code)
    ensures FirstExit(script[..k]).Some? ==> FirstExit(script[..k]) == Some(code)
    ensures k < m && FirstExit(script[..k]).None? && script[k].ChildExited? ==>
              script[k] == ChildExited(Some(code), true)
  {
    hide FirstExit;
    var shorter, longer := script[..k], script[..m];
    assert forall j :: 0 <= j < k ==> shorter[j] == longer[j];
    assert k < m ==> longer[k] == script[k];
  }

  lemma HarmlessAt(script: seq<Choice>, k: nat, m: nat, code: int)
    requires k <= m <= |script| && NothingFailed(script[..m], code)
    ensures ExitedFirst(script[..m], code)
    ensures k < m ==> Harmless(script[..k], script[k])
  {
    hide Harmless, ExitedFirst;
    if k < m {
      assert script[..m][..k] == script[..k] && script[..m][k] == script[k];
    }
  }

  lemma FinishedExits(script: seq<Choice>, k: nat, accepts: nat)
    requires k <= |script| && IsFinished(script[..k])
    ensures FirstExit(script[..k]).Some? && EndAt(script, k, accepts) == Exited(FirstExit(script[..k]).value)
  {
  }

  lemma HealthyGoesOn(script: seq<Choice>, k: nat, m: nat, accepts: nat, code: int)
    requires k <= m <= |script| && GoesOn(script, k, accepts)
    requires IsFinished(script[..m]) && NothingFailed(script[..m], code) && |Heard(script[..m])| < accepts
    ensures IsFinished(script[..k]) ==> EndAt(script, k, accepts) == Exited(code)
    ensures !IsFinished(script[..k]) ==> k < m && GoesOn(script, k + 1, accepts)
  {
    hide *;
    HarmlessAt(script, k, m, code);
    FirstExitIs(script, k, accepts);
    FirstExitsAgree(script, k, m, code);
    if IsFinished(script[..k]) {
      FinishedExits(script, k, accepts);
    } else {
      HarmlessIsNoFault(script, k, m, accepts, code);
      GoesOnOneMore(script, k, accepts);
    }
  }

  /** A healthy run that has gone on until round `k` exits. */
  lemma {:induction false} ExitsLater(script: seq<Choice>, k: nat, m: nat, accepts: nat, code: int) returns (n: nat)
    requires k <= m <= |script| && GoesOn(script, k, accepts)
    requires IsFinished(script[..m]) && NothingFailed(script[..m], code) && |Heard(script[..m])| < accepts
    ensures n <= m && GoesOn(script, n, accepts) && EndAt(script, n, accepts) == Exited(code)
    decreases m - k
  {
    hide *;
    HealthyGoesOn(script, k, m, accepts, code);
    if IsFinished(script[..k]) {
      n := k;
    } else {
      n := ExitsLater(script, k + 1, m, accepts, code);
    }
  }

  lemma EndIsUnique(script: seq<Choice>, n: nat, rounds: nat, accepts: nat)
    requires n <= |script| && GoesOn(script, n, accepts) && EndAt(script, n, accepts).Exited?
    requires rounds <= |script| && GoesOn(script, rounds, accepts)
    requires EndAt(script, rounds, accepts).Unfinished? ==> rounds == |script|
    ensures n == rounds
  {
    hide Heard, FirstExit, WriterGone;
  }

  /** A healthy run ends with the child's exit code, and no other does. */
  lemma ExitsExactly(script: seq<Choice>, rounds: nat, accepts: nat, code: int)
    requires rounds <= |script| && GoesOn(script, rounds, accepts) && accepts > 0
    requires EndAt(script, rounds, accepts).Unfinished? ==> rounds == |script|
    ensures EndAt(script, rounds, accepts) == Exited(code) <==> Healthy(script, accepts, code)
  {
    if Healthy(script, accepts, code) {
      var m: nat :|
        m <= |script| && IsFinished(script[..m]) && NothingFailed(script[..m], code) && |Heard(script[..m])| < accepts;
      NoRounds(script, accepts);
      hide *;
      var n := ExitsLater(script, 0, m, accepts, code);
      EndIsUnique(script, n, rounds, accepts);
    }
    if EndAt(script, rounds, accepts) == Exited(code) {
      hide IsFinished, NothingFailed, Heard, EndAt, GoesOn;
      ExitMeansNothingFailed(script, rounds, accepts, code);
      HeardFits(script, rounds, accepts);
    }
  }

  lemma {:induction false} HeardFits(script: seq<Choice>, n: nat, accepts: nat)
    requires n <= |script| && GoesOn(script, n, accepts) && accepts > 0
    ensures |Heard(script[..n])| < accepts
  {
    NoRounds(script, accepts);
    hide Heard, FirstExit, WriterGone, HeardIn, FaultAt;
    if n > 0 {
      HeardFits(script, n - 1, accepts);
      OneMoreFits(script, n - 1, accepts);
    }
  }

  lemma OneMoreFits(script: seq<Choice>, k: nat, accepts: nat)
    requires k < |script| && FaultAt(script, k, accepts).None? && |Heard(script[..k])| < accepts
    ensures |Heard(script[..k + 1])| < accepts
  {
    OneMoreRound(script, k);
    hide Heard, FirstExit, WriterGone;
  }

  /** The events after cleanup. */
  function Final(outcome: Outcome): seq<Act> {
    match outcome
    case Exited(code) => [Sent(Exit(code))]
    case Faulted(message) => [Sent(Stderr(message)), Sent(Exit(-1))]
    case _ => []
  }

  /** After cleanup the final events are sent one by one, stopping at the first the receiver misses. */
  method Finish(live: seq<Act>, outcome: Outcome, accepts: nat) returns (acts: seq<Act>)
    requires |live| <= accepts
    ensures live + [Cleanup] <= acts <= live + [Cleanup] + Final(outcome)
    ensures |acts| <= accepts + 1
    ensures |acts| <= accepts ==> acts == live + [Cleanup] + Final(outcome)
  {
    acts := live + [Cleanup];
    ghost var whole := acts + Final(outcome);
    match outcome
    case Exited(code) =>
      if |live| < accepts {
        acts := acts + [Sent(Exit(code))];
      }
    case Faulted(message) =>
      if |live| < accepts {
        acts := acts + [Sent(Stderr(message))];
        assert acts == whole[..|acts|];
        if |live| + 1 < accepts {
          acts := acts + [Sent(Exit(-1))];
          assert acts == whole;
        }
      }
    case _ =>
  }

  lemma FinishedIsComplete(live: seq<Act>, outcome: Outcome)
    requires Live(live) && (outcome.Exited? || outcome.Faulted?) && (outcome.Exited? ==> live != [])
    ensures Complete(live + [Cleanup] + Final(outcome))
  {
    CompleteWitness(live, Final(outcome));
  }

  lemma FinishedIsTruncated(live: seq<Act>, outcome: Outcome, acts: seq<Act>)
    requires Live(live) && (outcome.Exited? ==> live != []) && acts <= live + [Cleanup] + Final(outcome)
    ensures Truncated(acts)
  {
    if outcome.Exited? || outcome.Faulted? {
      FinishedIsComplete(live, outcome);
    } else {
      FinishedIsComplete(live, Faulted(""));
      assert acts <= live + [Cleanup] + Final(Faulted(""));
    }
  }

  lemma ExitIsOutcome(live: seq<Act>, outcome: Outcome, acts: seq<Act>, code: int)
    requires Live(live) && acts <= live + [Cleanup] + Final(outcome) && Sent(Exit(code)) in acts
    ensures code == -1 || outcome == Exited(code)
  {
    var whole := live + [Cleanup] + Final(outcome);
    assert forall k :: 0 <= k < |acts| ==> acts[k] == whole[k];
    assert forall x :: x in whole ==> x in live || x == Cleanup || x in Final(outcome);
    NoExitWhileLive(live);
  }

  lemma NoExitWhileLive(live: seq<Act>)
    requires Live(live)
    ensures forall c :: Sent(Exit(c)) !in live
  {
    forall k, c | 0 <= k < |live| ensures live[k] != Sent(Exit(c)) {
      assert k > 0 ==> IsOutput(live[k]);
    }
  }

  lemma FinishedLooksRight(live: seq<Act>, outcome: Outcome, acts: seq<Act>, accepts: nat)
    requires Live(live) && (outcome.Exited? ==> live != []) && !outcome.Unfinished?
    requires live + [Cleanup] <= acts <= live + [Cleanup] + Final(outcome)
    requires |acts| <= accepts ==> acts == live + [Cleanup] + Final(outcome)
    ensures Truncated(acts) && Cleanup in acts && live <= acts
    ensures !outcome.Disconnected? && |acts| <= accepts ==> Complete(acts)
    ensures forall c :: Sent(Exit(c)) in acts && c != -1 ==> outcome == Exited(c)
  {
    hide Live, Final, Truncated, Complete;
    FinishedIsTruncated(live, outcome, acts);
    if !outcome.Disconnected? {
      FinishedIsComplete(live, outcome);
    }
    forall c | Sent(Exit(c)) in acts && c != -1 ensures outcome == Exited(c) {
      ExitIsOutcome(live, outcome, acts, c);
    }
    assert (live + [Cleanup])[|live|] == Cleanup;
  }

  lemma FinalIs(live: seq<Act>, outcome: Outcome)
    ensures outcome.Exited? ==> Sent(Exit(outcome.code)) in live + [Cleanup] + Final(outcome)
    ensures outcome.Disconnected? ==> [] + [Cleanup] + Final(outcome) == [Cleanup]
    ensures outcome.Faulted? ==>
              [] + [Cleanup] + Final(outcome) == [Cleanup, Sent(Stderr(outcome.message)), Sent(Exit(-1))]
  {
  }

  /** The outcome of an execution whose driving loop, if it was reached, ran for `rounds`. */
  function Decided(closedAtStart: bool, cancelledAtStart: bool, spawned: bool, early: Option<Interruption>,
                   script: seq<Choice>, rounds: nat, reaped: bool, accepts: nat): Outcome
    requires rounds <= |script|
  {
    if closedAtStart then Disconnected
    else if cancelledAtStart then Faulted("Command cancelled")
    else if !spawned then Faulted("Failed to start command")
    else
      var end := if early.Some? then Interrupted(early.value)
                 else if accepts == 0 then Faulted("Output transport closed") else EndAt(script, rounds, accepts);
      if end.Unfinished? || reaped then end else Faulted("Failed to terminate command")
  }

  /**
   The whole execution.  Cleanup comes after everything live and before anything terminal; a run
   that finishes with its receiver still there is complete, and any other is the start of one.  An
   exit code other than -1 is the child's own, and all output was drained before it.
   */
  method Run(closedAtStart: bool, cancelledAtStart: bool, spawned: bool, early: Option<Interruption>,
             script: seq<Choice>, reaped: bool, accepts: nat)
    returns (acts: seq<Act>, finished: bool, ghost rounds: nat)
    ensures |acts| <= accepts + 1 && rounds <= |script|
    ensures Truncated(acts)
    ensures finished && !closedAtStart && early != Some(ReceiverGone) && Outer(ReceiverGone) !in script
            && |acts| <= accepts
            ==> Complete(acts)
    ensures finished ==> Cleanup in acts
    ensures var driven := !closedAtStart && !cancelledAtStart && spawned && early.None? && accepts > 0;
            var live := if driven then [Sent(Ready)] + Heard(script[..rounds]) else [];
            var outcome :=
              Decided(closedAtStart, cancelledAtStart, spawned, early, script, rounds, reaped, accepts);
            && (driven ==> GoesOn(script, rounds, accepts))
            && (finished <==> !outcome.Unfinished?)
            && (if finished then live + [Cleanup] <= acts <= live + [Cleanup] + Final(outcome) else acts == live)
            && (finished && |acts| <= accepts ==> acts == live + [Cleanup] + Final(outcome))
    ensures forall c :: Sent(Exit(c)) in acts && c != -1 ==>
              && !closedAtStart && !cancelledAtStart && spawned && early.None? && reaped
              && IsFinished(script[..rounds]) && NothingFailed(script[..rounds], c)
    ensures !closedAtStart && !cancelledAtStart && spawned && early.None? && reaped && accepts > 0 ==>
              forall c :: Healthy(script, accepts, c) ==>
                finished && (|acts| <= accepts ==> Sent(Exit(c)) in acts)
    ensures !closedAtStart && cancelledAtStart ==>
              acts <= [Cleanup, Sent(Stderr("Command cancelled")), Sent(Exit(-1))]
    ensures !closedAtStart && !cancelledAtStart && !spawned ==>
              acts <= [Cleanup, Sent(Stderr("Failed to start command")), Sent(Exit(-1))]
    ensures closedAtStart ==> acts == [Cleanup]
  {
    hide Heard, FirstExit, IsFinished, EndAt, GoesOn, Complete, Truncated, Final, NothingFailed, Healthy;
    var live, outcome := [], Disconnected;
    rounds := 0;
    if !closedAtStart {
      if cancelledAtStart {
        outcome := Faulted("Command cancelled");
      } else if !spawned {
        outcome := Faulted("Failed to start command");
      } else {
        live, outcome, rounds := Drive(early, script, accepts);
        EndAtMeaning(script, rounds, accepts);
        if early.None? && accepts > 0 {
          forall c ensures outcome == Exited(c) <==> Healthy(script, accepts, c) {
            ExitsExactly(script, rounds, accepts, c);
          }
        }
        if !outcome.Unfinished? && !reaped {
          outcome := Faulted("Failed to terminate command");
        }
      }
    }
    assert outcome == Decided(closedAtStart, cancelledAtStart, spawned, early, script, rounds, reaped, accepts);
    if outcome.Exited? {
      ExitMeansNothingFailed(script, rounds, accepts, outcome.code);
    }
    assert outcome.Disconnected? ==>
             closedAtStart || early == Some(ReceiverGone) || Outer(ReceiverGone) in script;
    hide Decided, Interrupted;
    if outcome.Unfinished? {
      LiveIsTruncated(live);
      NoExitWhileLive(live);
      return live, false, rounds;
    }
    acts := Finish(live, outcome, accepts);
    FinishedLooksRight(live, outcome, acts, accepts);
    FinalIs(live, outcome);
    return acts, true, rounds;
  }
}
