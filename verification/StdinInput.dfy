/**
 The input side of one stdin command in the guest: concurrent submissions, the one-slot queue, the
 writer that feeds the child's pipe, and the ways the writer can end.

 A schedule is any sequence of the atomic operations below; an operation that is not enabled does
 nothing.  Once the writer is finishing, its acknowledgement, queue, pipe and flag are let go in any
 order, which covers every order the drop glue could use.
 */
module StdinInput {
  import opened Bytes
  import opened Sequences
  import opened Wrappers

  type SubId = nat

  datatype Input = Data(bytes: seq<byte>) | Eof

  /** What a submission resolves to: `{"closed": _}`, a write error, or a full queue. */
  datatype Result = Closed(closed: bool) | IoError | Conflict

  datatype Stage = Lookup | CheckClosed | CheckCancel | Send | Waiting | Resolved(result: Result)

  datatype Sub = Sub(input: Input, at: Stage)

  datatype Writer = NotStarted | Alive | Finishing

  /** The write in progress, or the one the writer was in the middle of when it ended. */
  datatype Current = Current(sub: SubId, sent: nat)

  datatype State = State(
    registered: bool,
    inputClosed: bool,
    cancelled: bool,
    receiverOpen: bool,
    stdinOpen: bool,
    writer: Writer,
    queue: Option<SubId>,
    current: Option<Current>,
    subs: map<SubId, Sub>,
    completed: seq<SubId>,
    written: seq<byte>,
    eof: bool)
  {
    function Move(i: SubId, at: Stage): State
      requires i in subs
    {
      this.(subs := subs[i := subs[i].(at := at)])
    }

    function Resolve(i: SubId, r: Result): State
      requires i in subs
    {
      Move(i, Resolved(r))
    }
  }

  const INITIAL := State(true, false, false, true, true, NotStarted, None, None, map[], [], [], false)

  datatype Action =
    | Submit(i: SubId, input: Input)
    | StepSub(i: SubId)
    | StartWriter
    | Receive
    | WriteSome(n: nat)
    | WriteDone
    | WriteFail(broken: bool)
    | ChildExit
    | DropWriter
    | DropAck
    | StoreClosed
    | DropReceiver
    | DropStdin
    | Unregister
    | Cancel

  // ---------------------------------------------------------------------------------------------
  // Submitting
  // ---------------------------------------------------------------------------------------------

  function DoSubmit(s: State, i: SubId, input: Input): State {
    if i in s.subs then s else s.(subs := s.subs[i := Sub(input, Lookup)])
  }

  /** The registry lookup, the two flag loads, and `try_send`. */
  function StepNext(s: State, at: Stage): Stage {
    match at
    case Lookup => if s.registered then CheckClosed else Resolved(Closed(true))
    case CheckClosed => if s.inputClosed then Resolved(Closed(true)) else CheckCancel
    case CheckCancel => if s.cancelled then Resolved(Closed(true)) else Send
    case Send =>
      if !s.receiverOpen then Resolved(Closed(true))
      else if s.queue.Some? then Resolved(Conflict)
      else Waiting
    case _ => at
  }

  function DoStepSub(s: State, i: SubId): State {
    if i in s.subs then
      var at := s.subs[i].at;
      var at' := StepNext(s, at);
      s.Move(i, at').(queue := if at.Send? && at'.Waiting? then Some(i) else s.queue)
    else s
  }

  // ---------------------------------------------------------------------------------------------
  // Writing
  // ---------------------------------------------------------------------------------------------

  function DoReceive(s: State): State {
    if s.writer.Alive? && s.current.None? && s.queue.Some? && s.queue.value in s.subs then
      var i := s.queue.value;
      match s.subs[i].input
      case Eof => s.Resolve(i, Closed(true)).(queue := None, stdinOpen := false, writer := Finishing, eof := true)
      case Data(_) => s.(queue := None, current := Some(Current(i, 0)))
    else s
  }

  predicate Writing(s: State) {
    && s.writer.Alive? && s.current.Some? && s.current.value.sub in s.subs
    && s.subs[s.current.value.sub].input.Data? && s.current.value.sent <= |s.subs[s.current.value.sub].input.bytes|
  }

  function DoWriteSome(s: State, n: nat): State {
    if Writing(s) && s.current.value.sent + n <= |s.subs[s.current.value.sub].input.bytes| then
      var c := s.current.value;
      s.(written := s.written + s.subs[c.sub].input.bytes[c.sent..c.sent + n],
         current := Some(c.(sent := c.sent + n)))
    else s
  }

  function DoWriteDone(s: State): State {
    if Writing(s) && s.current.value.sent == |s.subs[s.current.value.sub].input.bytes| then
      var i := s.current.value.sub;
      s.Resolve(i, Closed(false)).(current := None, completed := s.completed + [i])
    else s
  }

  function DoWriteFail(s: State, broken: bool): State {
    if Writing(s) then
      s.Resolve(s.current.value.sub, if broken then Closed(true) else IoError).(writer := Finishing)
    else s
  }

  // ---------------------------------------------------------------------------------------------
  // Ending
  // ---------------------------------------------------------------------------------------------

  function DoDropAck(s: State): State {
    if s.writer.Finishing? && s.current.Some? && s.current.value.sub in s.subs
       && s.subs[s.current.value.sub].at.Waiting?
    then s.Resolve(s.current.value.sub, Closed(true))
    else s
  }

  /** Closing the channel drops the queued request and with it its acknowledgement. */
  function DoDropReceiver(s: State): State {
    if s.writer.Finishing? then
      var s' := if s.queue.Some? && s.queue.value in s.subs then s.Resolve(s.queue.value, Closed(true)) else s;
      s'.(receiverOpen := false, queue := None)
    else s
  }

  function Next(s: State, a: Action): State {
    match a
    case Submit(i, input) => DoSubmit(s, i, input)
    case StepSub(i) => DoStepSub(s, i)
    case StartWriter => if s.writer.NotStarted? then s.(writer := Alive) else s
    case Receive => DoReceive(s)
    case WriteSome(n) => DoWriteSome(s, n)
    case WriteDone => DoWriteDone(s)
    case WriteFail(broken) => DoWriteFail(s, broken)
    case ChildExit => if s.writer.Alive? then s.(inputClosed := true, writer := Finishing) else s
    case DropWriter => s.(writer := Finishing)
    case DropAck => DoDropAck(s)
    case StoreClosed => if s.writer.Finishing? then s.(inputClosed := true) else s
    case DropReceiver => DoDropReceiver(s)
    case DropStdin => if s.writer.Finishing? then s.(stdinOpen := false) else s
    case Unregister =>
      if s.inputClosed && !s.receiverOpen && !s.stdinOpen then s.(registered := false) else s
    case Cancel => s.(cancelled := true)
  }

  function Run(s: State, schedule: seq<Action>): State
    decreases |schedule|
  {
    if schedule == [] then s else Run(Next(s, schedule[0]), schedule[1..])
  }

  // ---------------------------------------------------------------------------------------------
  // What every interleaving keeps
  // ---------------------------------------------------------------------------------------------

  /** A submission whose acknowledgement is outstanding is queued or is the current write. */
  predicate InFlight(s: State, i: SubId) {
    s.queue == Some(i) || (s.current.Some? && s.current.value.sub == i)
  }

  predicate WaitInv(s: State) {
    && (s.queue.Some? ==> s.queue.value in s.subs && s.subs[s.queue.value].at.Waiting? && s.receiverOpen)
    && (s.queue.Some? && s.current.Some? ==> s.queue.value != s.current.value.sub)
    && (s.current.Some? ==>
          && s.current.value.sub in s.subs
          && s.subs[s.current.value.sub].input.Data?
          && s.current.value.sent <= |s.subs[s.current.value.sub].input.bytes|
          && s.subs[s.current.value.sub].at != Resolved(Closed(false))
          && (s.subs[s.current.value.sub].at.Waiting? || s.subs[s.current.value.sub].at.Resolved?)
          && (!s.writer.Finishing? ==> s.subs[s.current.value.sub].at.Waiting?))
    && (forall i :: i in s.subs && s.subs[i].at.Waiting? ==> InFlight(s, i))
  }

  predicate EndInv(s: State) {
    && (s.inputClosed || !s.receiverOpen || !s.stdinOpen || !s.registered || s.eof ==> s.writer.Finishing?)
    && (s.eof ==> s.current.None? && !s.stdinOpen)
    && (s.writer.NotStarted? ==> s.current.None?)
  }

  predicate IsClosedOrFailed(r: Result) {
    r == Closed(true) || r == IoError
  }

  /** Some submission has been told that input is closed, or that writing failed. */
  ghost predicate ClosedSeen(s: State) {
    exists i :: i in s.subs && s.subs[i].at.Resolved? && IsClosedOrFailed(s.subs[i].at.result)
  }

  predicate SeenInv(s: State) {
    forall i :: i in s.subs && s.subs[i].at.Resolved? && IsClosedOrFailed(s.subs[i].at.result) ==>
      s.writer.Finishing? || s.cancelled
  }

  predicate Acked(s: State, i: SubId) {
    i in s.subs && s.subs[i].at == Resolved(Closed(false))
  }

  function PayloadOf(subs: map<SubId, Sub>, i: SubId): seq<byte> {
    if i in subs && subs[i].input.Data? then subs[i].input.bytes else []
  }

  function Payloads(subs: map<SubId, Sub>, ids: seq<SubId>): seq<seq<byte>> {
    seq(|ids|, k requires 0 <= k < |ids| => PayloadOf(subs, ids[k]))
  }

  /** The part of the current write that has reached the pipe. */
  function Partial(s: State): seq<byte> {
    if s.current.None? then []
    else
      var bytes := PayloadOf(s.subs, s.current.value.sub);
      if s.current.value.sent <= |bytes| then bytes[..s.current.value.sent] else bytes
  }

  ghost predicate LogInv(s: State) {
    && (forall k :: 0 <= k < |s.completed| ==> Acked(s, s.completed[k]) && s.subs[s.completed[k]].input.Data?)
    && (forall j, k :: 0 <= j < k < |s.completed| ==> s.completed[j] != s.completed[k])
    && (forall i :: Acked(s, i) ==> i in s.completed)
    && s.written == Flatten(Payloads(s.subs, s.completed)) + Partial(s)
  }

  ghost predicate Inv(s: State) {
    WaitInv(s) && EndInv(s) && SeenInv(s) && LogInv(s)
  }

  // ---------------------------------------------------------------------------------------------
  // Each operation keeps it
  // ---------------------------------------------------------------------------------------------

  lemma ControlKept(s: State, a: Action)
    requires WaitInv(s) && EndInv(s) && SeenInv(s)
    ensures EndInv(Next(s, a)) && SeenInv(Next(s, a))
  {
    EndKept(s, a);
    SeenKept(s, a);
    hide *;
  }

  lemma EndKept(s: State, a: Action)
    requires WaitInv(s) && EndInv(s)
    ensures EndInv(Next(s, a))
  {
  }

  lemma SeenKept(s: State, a: Action)
    requires EndInv(s) && SeenInv(s)
    ensures SeenInv(Next(s, a))
  {
    match a
    case StepSub(i) =>
    case Receive =>
    case WriteFail(broken) =>
    case DropAck =>
    case DropReceiver =>
    case _ =>
  }

  lemma SubmitKeepsWait(s: State, i: SubId, input: Input)
    requires WaitInv(s)
    ensures WaitInv(DoSubmit(s, i, input))
  {
  }

  lemma StepSubKeepsWait(s: State, i: SubId)
    requires WaitInv(s)
    ensures WaitInv(DoStepSub(s, i))
  {
  }

  lemma ReceiveKeepsWait(s: State)
    requires WaitInv(s)
    ensures WaitInv(DoReceive(s))
  {
  }

  lemma WriteSomeKeepsWait(s: State, n: nat)
    requires WaitInv(s)
    ensures WaitInv(DoWriteSome(s, n))
  {
  }

  lemma WriteDoneKeepsWait(s: State)
    requires WaitInv(s)
    ensures WaitInv(DoWriteDone(s))
  {
  }

  lemma WriteFailKeepsWait(s: State, broken: bool)
    requires WaitInv(s)
    ensures WaitInv(DoWriteFail(s, broken))
  {
  }

  lemma DropAckKeepsWait(s: State)
    requires WaitInv(s)
    ensures WaitInv(DoDropAck(s))
  {
  }

  lemma DropReceiverKeepsWait(s: State)
    requires WaitInv(s)
    ensures WaitInv(DoDropReceiver(s))
  {
  }

  lemma FlagsKeepWait(s: State, s': State)
    requires WaitInv(s) && s'.subs == s.subs && s'.queue == s.queue && s'.current == s.current
    requires s'.receiverOpen == s.receiverOpen && (s.writer.Finishing? ==> s'.writer.Finishing?)
    ensures WaitInv(s')
  {
  }

  lemma WaitKept(s: State, a: Action)
    requires WaitInv(s)
    ensures WaitInv(Next(s, a))
  {
    hide WaitInv, DoSubmit, DoStepSub, DoReceive, DoWriteSome, DoWriteDone, DoWriteFail, DoDropAck, DoDropReceiver;
    match a
    case Submit(i, input) => SubmitKeepsWait(s, i, input);
    case StepSub(i) => StepSubKeepsWait(s, i);
    case Receive => ReceiveKeepsWait(s);
    case WriteSome(n) => WriteSomeKeepsWait(s, n);
    case WriteDone => WriteDoneKeepsWait(s);
    case WriteFail(broken) => WriteFailKeepsWait(s, broken);
    case DropAck => DropAckKeepsWait(s);
    case DropReceiver => DropReceiverKeepsWait(s);
    case _ => FlagsKeepWait(s, Next(s, a));
  }

  /** The log does not care about anything but acknowledged submissions and the current write. */
  lemma LogFrame(s: State, s': State)
    requires LogInv(s) && s'.completed == s.completed && s'.written == s.written
    requires Partial(s') == Partial(s)
    requires forall i :: i in s.subs ==> i in s'.subs && s'.subs[i].input == s.subs[i].input
    requires forall i :: Acked(s', i) <==> Acked(s, i)
    ensures LogInv(s')
  {
    assert Payloads(s'.subs, s'.completed) == Payloads(s.subs, s.completed);
  }

  lemma WriteSomeKeepsLog(s: State, n: nat)
    requires WaitInv(s) && LogInv(s)
    ensures LogInv(DoWriteSome(s, n))
  {
    var s' := DoWriteSome(s, n);
    if s' != s {
      var c := s.current.value;
      var bytes := s.subs[c.sub].input.bytes;
      assert bytes[..c.sent] + bytes[c.sent..c.sent + n] == bytes[..c.sent + n];
      assert forall i :: Acked(s', i) <==> Acked(s, i);
    }
  }

  lemma WriteDoneKeepsLog(s: State)
    requires WaitInv(s) && LogInv(s)
    ensures LogInv(DoWriteDone(s))
  {
    var s' := DoWriteDone(s);
    if s' != s {
      var i := s.current.value.sub;
      var bytes := s.subs[i].input.bytes;
      assert bytes[..|bytes|] == bytes;
      assert Payloads(s'.subs, s'.completed) == Payloads(s.subs, s.completed) + [bytes];
      FlattenSnoc(Payloads(s.subs, s.completed), bytes);
      assert !Acked(s, i);
      assert forall j :: Acked(s', j) <==> Acked(s, j) || j == i;
    }
  }

  lemma SubmitKeepsLog(s: State, i: SubId, input: Input)
    requires WaitInv(s) && LogInv(s)
    ensures LogInv(DoSubmit(s, i, input))
  {
    hide LogInv;
    if i !in s.subs {
      LogFrame(s, DoSubmit(s, i, input));
    }
  }

  lemma StepSubKeepsLog(s: State, i: SubId)
    requires WaitInv(s) && LogInv(s)
    ensures LogInv(DoStepSub(s, i))
  {
    hide LogInv;
    LogFrame(s, DoStepSub(s, i));
  }

  lemma ReceiveKeepsLog(s: State)
    requires WaitInv(s) && LogInv(s)
    ensures LogInv(DoReceive(s))
  {
    hide LogInv;
    LogFrame(s, DoReceive(s));
  }

  lemma WriteFailKeepsLog(s: State, broken: bool)
    requires WaitInv(s) && LogInv(s)
    ensures LogInv(DoWriteFail(s, broken))
  {
    hide LogInv;
    LogFrame(s, DoWriteFail(s, broken));
  }

  lemma DropAckKeepsLog(s: State)
    requires WaitInv(s) && LogInv(s)
    ensures LogInv(DoDropAck(s))
  {
    hide LogInv;
    LogFrame(s, DoDropAck(s));
  }

  lemma DropReceiverKeepsLog(s: State)
    requires WaitInv(s) && LogInv(s)
    ensures LogInv(DoDropReceiver(s))
  {
    hide LogInv;
    if s.queue.Some? {
      LogFrame(s, DoDropReceiver(s));
    } else {
      LogFrame(s, DoDropReceiver(s));
    }
  }

  lemma FlagsKeepLog(s: State, s': State)
    requires LogInv(s) && s'.subs == s.subs && s'.completed == s.completed
    requires s'.written == s.written && s'.current == s.current
    ensures LogInv(s')
  {
    LogFrame(s, s');
  }

  lemma LogKept(s: State, a: Action)
    requires WaitInv(s) && LogInv(s)
    ensures LogInv(Next(s, a))
  {
    hide WaitInv, LogInv, DoSubmit, DoStepSub, DoReceive, DoWriteSome, DoWriteDone, DoWriteFail;
    hide DoDropAck, DoDropReceiver;
    match a
    case Submit(i, input) => SubmitKeepsLog(s, i, input);
    case StepSub(i) => StepSubKeepsLog(s, i);
    case Receive => ReceiveKeepsLog(s);
    case WriteSome(n) => WriteSomeKeepsLog(s, n);
    case WriteDone => WriteDoneKeepsLog(s);
    case WriteFail(broken) => WriteFailKeepsLog(s, broken);
    case DropAck => DropAckKeepsLog(s);
    case DropReceiver => DropReceiverKeepsLog(s);
    case _ => FlagsKeepLog(s, Next(s, a));
  }

  lemma NextKeepsInv(s: State, a: Action)
    requires Inv(s)
    ensures Inv(Next(s, a))
  {
    hide Next, WaitInv, EndInv, SeenInv, LogInv;
    ControlKept(s, a);
    WaitKept(s, a);
    LogKept(s, a);
  }

  lemma {:induction false} RunKeepsInv(s: State, schedule: seq<Action>)
    requires Inv(s)
    ensures Inv(Run(s, schedule))
    decreases |schedule|
  {
    if schedule != [] {
      NextKeepsInv(s, schedule[0]);
      RunKeepsInv(Next(s, schedule[0]), schedule[1..]);
    }
  }

  ghost predicate Reachable(s: State) {
    exists schedule :: s == Run(INITIAL, schedule)
  }

  lemma ReachableInv(s: State)
    requires Reachable(s)
    ensures Inv(s)
  {
    var schedule :| s == Run(INITIAL, schedule);
    assert Payloads(map[], []) == [];
    RunKeepsInv(INITIAL, schedule);
  }

  // ---------------------------------------------------------------------------------------------
  // Main results
  // ---------------------------------------------------------------------------------------------

  /** Submission `i`, begun after closing was seen, is on no path to `closed: false`. */
  predicate LateInv(s: State, i: SubId) {
    && (s.writer.Finishing? || s.cancelled)
    && (i in s.subs ==>
          match s.subs[i].at
          case Resolved(r) => r != Closed(false)
          case Send => s.writer.Finishing?
          case Waiting => s.writer.Finishing?
          case _ => true)
  }

  lemma LateKept(s: State, i: SubId, a: Action)
    requires Inv(s) && LateInv(s, i)
    ensures LateInv(Next(s, a), i)
  {
    hide LogInv;
    match a
    case StepSub(j) =>
    case _ =>
  }

  lemma {:induction false} LateForever(s: State, i: SubId, schedule: seq<Action>)
    requires Inv(s) && LateInv(s, i)
    ensures LateInv(Run(s, schedule), i)
    decreases |schedule|
  {
    if schedule != [] {
      LateKept(s, i, schedule[0]);
      NextKeepsInv(s, schedule[0]);
      LateForever(Next(s, schedule[0]), i, schedule[1..]);
    }
  }

  /**
   Closing is permanent: once any submission has resolved with closed or with a write error, no
   submission that starts afterwards is ever acknowledged as still open.
   */
  lemma ClosingIsPermanent(s: State, i: SubId, schedule: seq<Action>)
    requires Reachable(s) && ClosedSeen(s) && i !in s.subs
    ensures !Acked(Run(s, schedule), i)
  {
    ReachableInv(s);
    LateForever(s, i, schedule);
  }

  lemma LateAfterCancel(s: State, i: SubId)
    requires i !in s.subs
    ensures LateInv(Next(s, Cancel), i)
  {
  }

  /** So is cancelling: no submission that starts after it is ever acknowledged as open. */
  lemma CancellingIsPermanent(s: State, i: SubId, schedule: seq<Action>)
    requires Reachable(s) && i !in s.subs
    ensures !Acked(Run(Next(s, Cancel), schedule), i)
  {
    ReachableInv(s);
    NextKeepsInv(s, Cancel);
    LateAfterCancel(s, i);
    var cancelled := Next(s, Cancel);
    hide Inv, Next, Run, Reachable;
    LateForever(cancelled, i, schedule);
  }

  /** An answer, once given, is never changed. */
  lemma AnswersAreFinal(s: State, i: SubId, a: Action)
    requires Inv(s) && i in s.subs && s.subs[i].at.Resolved?
    ensures i in Next(s, a).subs && Next(s, a).subs[i] == s.subs[i]
  {
    hide LogInv;
    match a
    case StepSub(j) =>
    case _ =>
  }

  /** At most one input is being written and one is queued; every other submission has its answer. */
  lemma OutstandingIsBounded(s: State, i: SubId)
    requires Reachable(s) && i in s.subs && s.subs[i].at.Waiting?
    ensures s.queue == Some(i) || (s.current.Some? && s.current.value.sub == i)
  {
    ReachableInv(s);
  }

  /**
   The inputs acknowledged as still open are exactly the completed writes, each once and in order,
   and the pipe holds them whole, followed by a part of at most one further input.
   */
  lemma AcknowledgedMeansWritten(s: State)
    requires Reachable(s)
    ensures forall i :: Acked(s, i) <==> i in s.completed
    ensures forall j, k :: 0 <= j < k < |s.completed| ==> s.completed[j] != s.completed[k]
    ensures s.written == Flatten(Payloads(s.subs, s.completed)) + Partial(s)
    ensures s.current.Some? ==>
              Partial(s) <= PayloadOf(s.subs, s.current.value.sub) && s.current.value.sub !in s.completed
  {
    ReachableInv(s);
    if s.current.Some? {
      assert !Acked(s, s.current.value.sub);
    }
  }

  // ---------------------------------------------------------------------------------------------
  // How each answer came about
  // ---------------------------------------------------------------------------------------------

  predicate IsQueued(s: State, i: SubId) {
    s.queue == Some(i)
  }

  predicate IsCurrent(s: State, i: SubId) {
    s.current.Some? && s.current.value.sub == i
  }

  /** Where a submission is told that input is closed before it is queued. */
  predicate FindsClosed(s: State, at: Stage) {
    match at
    case Lookup => !s.registered
    case CheckClosed => s.inputClosed
    case CheckCancel => s.cancelled
    case Send => !s.receiverOpen
    case _ => false
  }

  /** What operation, in what state, gives submission `i` the answer `r`. */
  predicate Reason(s: State, a: Action, i: SubId, r: Result) {
    i in s.subs &&
    match a
    case StepSub(j) =>
      j == i && if FindsClosed(s, s.subs[i].at) then r == Closed(true)
                else s.subs[i].at.Send? && s.queue.Some? && r == Conflict
    case Receive =>
      s.writer.Alive? && s.current.None? && IsQueued(s, i) && s.subs[i].input.Eof? && r == Closed(true)
    case WriteDone => s.writer.Alive? && IsCurrent(s, i) && Partial(s) == PayloadOf(s.subs, i) && r == Closed(false)
    case WriteFail(broken) => s.writer.Alive? && IsCurrent(s, i) && r == if broken then Closed(true) else IoError
    case DropAck => s.writer.Finishing? && IsCurrent(s, i) && r == Closed(true)
    case DropReceiver => s.writer.Finishing? && IsQueued(s, i) && r == Closed(true)
    case _ => false
  }

  predicate Answered(s: State, i: SubId) {
    i in s.subs && s.subs[i].at.Resolved?
  }

  predicate Gave(s: State, i: SubId, r: Result) {
    i in s.subs && s.subs[i].at == Resolved(r)
  }

  lemma CurrentWaits(s: State)
    requires WaitInv(s)
    ensures s.current.Some? ==>
              var c := s.current.value;
              && c.sub in s.subs && s.subs[c.sub].input.Data? && c.sent <= |s.subs[c.sub].input.bytes|
              && (s.subs[c.sub].at.Waiting? || s.subs[c.sub].at.Resolved?)
    ensures s.queue.Some? ==> s.queue.value in s.subs && s.subs[s.queue.value].at.Waiting?
  {
  }

  lemma SubmitterAnswers(s: State, i: SubId, r: Result)
    requires !Answered(s, i)
    ensures Gave(DoStepSub(s, i), i, r) <==> Reason(s, StepSub(i), i, r)
  {
  }

  lemma ReceiveAnswers(s: State, i: SubId, r: Result)
    requires WaitInv(s) && !Answered(s, i)
    ensures Gave(DoReceive(s), i, r) <==> Reason(s, Receive, i, r)
  {
    CurrentWaits(s);
    hide WaitInv;
  }

  lemma WritesExactly(s: State)
    requires WaitInv(s)
    ensures Writing(s) <==> s.writer.Alive? && s.current.Some?
    ensures s.current.Some? ==>
              (s.current.value.sent == |PayloadOf(s.subs, s.current.value.sub)|
               <==> Partial(s) == PayloadOf(s.subs, s.current.value.sub))
  {
    CurrentWaits(s);
    hide WaitInv;
    if s.current.Some? {
      var bytes := s.subs[s.current.value.sub].input.bytes;
      assert bytes[..|bytes|] == bytes;
    }
  }

  lemma WriteDoneChanges(s: State)
    ensures var whole := Writing(s) && s.current.value.sent == |PayloadOf(s.subs, s.current.value.sub)|;
            DoWriteDone(s).subs == if whole then s.Resolve(s.current.value.sub, Closed(false)).subs else s.subs
  {
  }

  lemma WriteFailChanges(s: State, broken: bool)
    ensures DoWriteFail(s, broken).subs ==
            if Writing(s) then s.Resolve(s.current.value.sub, if broken then Closed(true) else IoError).subs else s.subs
  {
  }

  lemma ResolveGives(s: State, j: SubId, given: Result, i: SubId, r: Result)
    requires j in s.subs && !Answered(s, i)
    ensures Gave(s.Resolve(j, given), i, r) <==> i == j && r == given
    ensures !Gave(s, i, r)
  {
  }

  lemma SameSubsSameAnswers(s: State, s': State, i: SubId, r: Result)
    requires s'.subs == s.subs
    ensures Gave(s', i, r) == Gave(s, i, r)
  {
  }

  /** A write ends when all of it has reached the pipe. */
  lemma WriteDoneAnswers(s: State, i: SubId, r: Result)
    requires WaitInv(s) && !Answered(s, i)
    ensures Gave(DoWriteDone(s), i, r) <==>
            s.writer.Alive? && IsCurrent(s, i) && Partial(s) == PayloadOf(s.subs, i) && r == Closed(false)
  {
    WritesExactly(s);
    WriteDoneChanges(s);
    CurrentWaits(s);
    hide WaitInv, Writing, DoWriteDone, Gave, Partial, PayloadOf, Answered;
    if s.current.Some? {
      ResolveGives(s, s.current.value.sub, Closed(false), i, r);
    }
    if DoWriteDone(s).subs == s.subs {
      SameSubsSameAnswers(s, DoWriteDone(s), i, r);
    } else {
      SameSubsSameAnswers(s.Resolve(s.current.value.sub, Closed(false)), DoWriteDone(s), i, r);
    }
  }

  lemma WriteFailAnswers(s: State, broken: bool, i: SubId, r: Result)
    requires WaitInv(s) && !Answered(s, i)
    ensures Gave(DoWriteFail(s, broken), i, r) <==>
            s.writer.Alive? && IsCurrent(s, i) && r == if broken then Closed(true) else IoError
  {
    WritesExactly(s);
    WriteFailChanges(s, broken);
    CurrentWaits(s);
    hide WaitInv, Writing, DoWriteFail, Gave, Answered;
    if Writing(s) {
      var given := if broken then Closed(true) else IoError;
      ResolveGives(s, s.current.value.sub, given, i, r);
      SameSubsSameAnswers(s.Resolve(s.current.value.sub, given), DoWriteFail(s, broken), i, r);
    } else {
      SameSubsSameAnswers(s, DoWriteFail(s, broken), i, r);
    }
  }

  lemma DropAckAnswers(s: State, i: SubId, r: Result)
    requires WaitInv(s) && !Answered(s, i)
    ensures Gave(DoDropAck(s), i, r) <==> Reason(s, DropAck, i, r)
  {
    CurrentWaits(s);
    hide WaitInv;
  }

  lemma DropReceiverAnswers(s: State, i: SubId, r: Result)
    requires WaitInv(s) && !Answered(s, i)
    ensures Gave(DoDropReceiver(s), i, r) <==> Reason(s, DropReceiver, i, r)
  {
    CurrentWaits(s);
    hide WaitInv;
  }

  lemma WriterAnswers(s: State, a: Action, i: SubId, r: Result)
    requires WaitInv(s) && !Answered(s, i) && (a.WriteDone? || a.WriteFail?)
    ensures Gave(Next(s, a), i, r) <==> Reason(s, a, i, r)
  {
    CurrentWaits(s);
    hide WaitInv, Partial, PayloadOf, Gave, Answered, DoWriteDone, DoWriteFail;
    match a
    case WriteDone => WriteDoneAnswers(s, i, r);
    case WriteFail(broken) => WriteFailAnswers(s, broken, i, r);
  }

  lemma OthersAnswerNothing(s: State, a: Action, i: SubId, r: Result)
    requires !Answered(s, i)
    requires !a.Receive? && !a.WriteDone? && !a.WriteFail? && !a.DropAck? && !a.DropReceiver?
    requires a.StepSub? ==> a.i != i
    ensures !Gave(Next(s, a), i, r) && !Reason(s, a, i, r)
  {
  }

  /**
   Every answer and its reason: a write that meets a broken pipe is answered closed, one that fails in
   another way with an error, and so on.
   */
  lemma AnswerExactly(s: State, a: Action, i: SubId, r: Result)
    requires WaitInv(s) && !Answered(s, i)
    ensures Gave(Next(s, a), i, r) <==> Reason(s, a, i, r)
  {
    hide WaitInv, Reason, Gave, Answered, DoStepSub, DoReceive, DoWriteDone, DoWriteFail, DoDropAck, DoDropReceiver;
    match a
    case StepSub(j) =>
      if j == i {
        SubmitterAnswers(s, i, r);
      } else {
        OthersAnswerNothing(s, a, i, r);
      }
    case Receive => ReceiveAnswers(s, i, r);
    case WriteDone => WriterAnswers(s, a, i, r);
    case WriteFail(broken) => WriterAnswers(s, a, i, r);
    case DropAck => DropAckAnswers(s, i, r);
    case DropReceiver => DropReceiverAnswers(s, i, r);
    case _ => OthersAnswerNothing(s, a, i, r);
  }

  lemma {:induction false} RunSnoc(s: State, schedule: seq<Action>, a: Action)
    ensures Run(s, schedule + [a]) == Next(Run(s, schedule), a)
    decreases |schedule|
  {
    hide Next;
    if schedule == [] {
      assert [a][1..] == [] && schedule + [a] == [a];
    } else {
      assert (schedule + [a])[1..] == schedule[1..] + [a];
      RunSnoc(Next(s, schedule[0]), schedule[1..], a);
    }
  }

  /** The state that the `k`-th operation of a schedule finds. */
  function StateAt(schedule: seq<Action>, k: nat): State
    requires k <= |schedule|
  {
    Run(INITIAL, schedule[..k])
  }

  lemma StateAfter(schedule: seq<Action>, k: nat)
    requires k < |schedule|
    ensures StateAt(schedule, k + 1) == Next(StateAt(schedule, k), schedule[k]) && Inv(StateAt(schedule, k))
  {
    hide Next, Run, Inv;
    assert schedule[..k + 1] == schedule[..k] + [schedule[k]];
    RunSnoc(INITIAL, schedule[..k], schedule[k]);
    ReachableInv(StateAt(schedule, k));
  }

  lemma StartsEmpty(schedule: seq<Action>)
    ensures StateAt(schedule, 0) == INITIAL
  {
  }

  lemma InvWaits(s: State)
    requires Inv(s)
    ensures WaitInv(s)
  {
  }

  /**
   In every run an answer has its reason: an I/O error is reported only for a write that failed so, and
   a full queue only when there was one.
   */
  lemma {:induction false} AnswersHaveReasons(schedule: seq<Action>, n: nat, i: SubId)
    requires n <= |schedule| && Answered(StateAt(schedule, n), i)
    ensures exists k: nat :: k < n
                             && Reason(StateAt(schedule, k), schedule[k], i, StateAt(schedule, n).subs[i].at.result)
  {
    StartsEmpty(schedule);
    hide Run, Next, Reason, Inv, WaitInv;
    if n > 0 {
      var s := StateAt(schedule, n - 1);
      StateAfter(schedule, n - 1);
      InvWaits(s);
      if Answered(s, i) {
        AnswersHaveReasons(schedule, n - 1, i);
        AnswersAreFinal(s, i, schedule[n - 1]);
      } else {
        AnswerExactly(s, schedule[n - 1], i, StateAt(schedule, n).subs[i].at.result);
      }
    }
  }

  /** So without a write that failed, no submission is answered with an I/O error. */
  lemma NoErrorWithoutFailedWrite(schedule: seq<Action>, i: SubId)
    requires WriteFail(false) !in schedule && Answered(Run(INITIAL, schedule), i)
    ensures Run(INITIAL, schedule).subs[i].at.result != IoError
  {
    assert schedule[..|schedule|] == schedule;
    AnswersHaveReasons(schedule, |schedule|, i);
  }
}
