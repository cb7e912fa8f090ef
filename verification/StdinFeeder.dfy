/**
 The host side of streaming stdin, and the host and guest running together.

 The host cuts its source into chunks and sends one at a time, waiting for each answer.  The system
 below interleaves the host's steps with any guest schedule, any delay or loss of a request or of
 its answer, and the host giving up at any point; requests are never resent.
 */
module StdinFeeder {
  import opened Bytes
  import opened Sequences
  import opened StdinInput
  import opened Wrappers

  const STDIN_CHUNK_SIZE := 64 * 1024

  const MAX_STDIN_CHUNK := 65_536
  const MAX_ENCODED_CHUNK := (MAX_STDIN_CHUNK + 2) / 3 * 4

  /** The length of the base64 text, with padding, of `n` bytes. */
  function EncodedLength(n: nat): nat {
    (n + 2) / 3 * 4
  }

  /** The guest's two size checks, on the text and on the decoded bytes. */
  predicate SizeAccepted(n: nat) {
    EncodedLength(n) <= MAX_ENCODED_CHUNK && n <= MAX_STDIN_CHUNK
  }

  /** The text check alone lets two bytes too many through; together the checks are exact. */
  lemma SizeAcceptedExactly(n: nat)
    ensures SizeAccepted(n) <==> n <= 65536
    ensures EncodedLength(n) <= 87384 <==> n <= 65538
  {
  }

  // ---------------------------------------------------------------------------------------------
  // Cutting the source
  // ---------------------------------------------------------------------------------------------

  ghost predicate Sendable(chunks: seq<seq<byte>>) {
    forall c :: c in chunks ==> 1 <= |c| <= STDIN_CHUNK_SIZE && SizeAccepted(|c|)
  }

  /** `range(0, len(piece), STDIN_CHUNK_SIZE)`, slicing at each offset. */
  method CutPiece(piece: seq<byte>) returns (chunks: seq<seq<byte>>)
    ensures Flatten(chunks) == piece
    ensures Sendable(chunks)
  {
    chunks := [];
    assert Flatten(chunks) == [];
    hide Flatten;
    var offset := 0;
    while offset < |piece|
      invariant 0 <= offset
      invariant Flatten(chunks) == piece[..if offset < |piece| then offset else |piece|]
      invariant Sendable(chunks)
    {
      var end := if offset + STDIN_CHUNK_SIZE < |piece| then offset + STDIN_CHUNK_SIZE else |piece|;
      var chunk := piece[offset..end];
      SizeAcceptedExactly(|chunk|);
      FlattenSnoc(chunks, chunk);
      chunks := chunks + [chunk];
      offset := offset + STDIN_CHUNK_SIZE;
    }
  }

  /** A `str` or `bytes` source is one piece; an async iterable yields the pieces one by one. */
  method StdinChunks(source: seq<seq<byte>>) returns (chunks: seq<seq<byte>>)
    ensures Flatten(chunks) == Flatten(source)
    ensures Sendable(chunks)
  {
    chunks := [];
    for p := 0 to |source|
      invariant Flatten(chunks) == Flatten(source[..p])
      invariant Sendable(chunks)
    {
      var more := CutPiece(source[p]);
      FlattenAppend(chunks, more);
      chunks := chunks + more;
      assert source[..p + 1] == source[..p] + [source[p]];
      FlattenSnoc(source[..p], source[p]);
    }
    assert source[..|source|] == source;
  }

  // ---------------------------------------------------------------------------------------------
  // Feeding
  // ---------------------------------------------------------------------------------------------

  /** What the k-th request carries: the chunks in order, then end of input. */
  function RequestAt(chunks: seq<seq<byte>>, k: nat): Input {
    if k < |chunks| then Data(chunks[k]) else Eof
  }

  datatype Reply = Answer(closed: bool) | ErrorReply | Malformed

  /** What one turn of the loop observes. */
  datatype Turn = Turn(doneBefore: bool, doneAfter: bool, reply: Reply)

  datatype FeedEnd = OutputDone | GuestClosed | Raised | SourceRaised | StillWaiting

  /**
   Stop and wait: the requests sent are, in order, a prefix of all chunks and then end of input, and
   every one but the last was answered with `closed: false` before the next was sent.  A source that
   raises does so after `chunks`, where another would end; nothing is sent for it.
   */
  method Feed(chunks: seq<seq<byte>>, sourceRaises: bool, turns: seq<Turn>) returns (sent: seq<Input>, end: FeedEnd)
    ensures |sent| <= |chunks| + 1 && |sent| <= |turns| && (sourceRaises ==> |sent| <= |chunks|)
    ensures forall k :: 0 <= k < |sent| ==> sent[k] == RequestAt(chunks, k)
    ensures forall k :: 0 <= k < |sent| - 1 ==> turns[k].reply == Answer(false)
    ensures end.GuestClosed? ==> sent != [] && turns[|sent| - 1].reply == Answer(true)
    ensures end.Raised? ==> sent != [] && turns[|sent| - 1].reply != Answer(true)
    ensures end.Raised? ==> turns[|sent| - 1].reply != Answer(false) || |sent| == |chunks| + 1
    ensures end.SourceRaised? ==> sourceRaises && |sent| == |chunks|
    ensures end.OutputDone? ==> |sent| < |turns| && (turns[|sent|].doneBefore || turns[|sent|].doneAfter)
    ensures end.StillWaiting? ==> |sent| == |turns|
  {
    sent := [];
    while |sent| < |turns|
      invariant |sent| <= |chunks| && |sent| <= |turns|
      invariant forall k :: 0 <= k < |sent| ==> sent[k] == RequestAt(chunks, k)
      invariant forall k :: 0 <= k < |sent| ==> turns[k].reply == Answer(false)
      decreases |turns| - |sent|
    {
      var turn := turns[|sent|];
      if turn.doneBefore {
        return sent, OutputDone;
      }
      if |sent| == |chunks| && sourceRaises {
        return sent, SourceRaised;
      }
      var chunk := RequestAt(chunks, |sent|);
      if turn.doneAfter {
        return sent, OutputDone;
      }
      sent := sent + [chunk];
      match turn.reply
      case Answer(closed) =>
        if closed {
          return sent, GuestClosed;
        } else if chunk.Eof? {
          return sent, Raised;
        }
      case _ => return sent, Raised;
    }
    return sent, StillWaiting;
  }

  // ---------------------------------------------------------------------------------------------
  // The whole call
  // ---------------------------------------------------------------------------------------------

  datatype Response = Result(value: string) | ErrorResult(message: string)

  /** How a task ends; `Running` when it is still running at cleanup and is then cancelled. */
  datatype TaskEnd<T> = Returned(value: T) | RaisedError(error: string) | Running

  /** What ends a wait inside the deadline: the tasks, the deadline, or the caller's own cancellation. */
  datatype Wake = TasksDone(input: bool, output: bool) | Expired | CallerGone

  datatype CallEnd = Replied(response: Response) | FailedWith(error: string) | CallCancelled

  /** The first wait ends when a task is done, and a task that is done has ended. */
  predicate Plausible(first: Wake, second: Wake, input: TaskEnd<()>, output: TaskEnd<Response>) {
    && (first.TasksDone? ==> first.input || first.output)
    && (first.TasksDone? && first.input ==> !input.Running?)
    && (first.TasksDone? && first.output ==> !output.Running?)
    && (second.TasksDone? ==> !output.Running?)
  }

  const TIMED_OUT := ErrorResult("Stream timed out")

  /**
   Waits for the first of the two tasks, then for the output, under one deadline; then cancels both
   and, unless the result is a good one, the execution in the guest.  A result means the output
   task returned it and the input task raised nothing; whatever either raised is not lost.
   */
  method RunWithStdin(first: Wake, second: Wake, input: TaskEnd<()>, output: TaskEnd<Response>)
    returns (end: CallEnd, cancelSent: bool)
    requires Plausible(first, second, input, output)
    ensures !cancelSent ==> output.Returned? && output.value.Result?
    ensures end.Replied? && end.response.Result? ==> !cancelSent && output == Returned(end.response)
    ensures end.Replied? && end.response.ErrorResult? ==>
              && cancelSent
              && (output == Returned(end.response) || (end.response == TIMED_OUT && Expired in {first, second}))
    ensures end.Replied? ==> !input.RaisedError? && !output.RaisedError?
    ensures end.FailedWith? ==> input == RaisedError(end.error) || output == RaisedError(end.error)
    ensures end.CallCancelled? ==> cancelSent && CallerGone in {first, second}
    ensures (first.Expired? || (first.TasksDone? && second.Expired?)) && !input.RaisedError? && !output.RaisedError?
            ==> end == Replied(TIMED_OUT)
  {
    var result: Option<Response> := None;
    var failure: Option<CallEnd> := None;
    match first {
      case Expired => result := Some(TIMED_OUT);
      case CallerGone => failure := Some(CallCancelled);
      case TasksDone(inputDone, _) =>
        if inputDone && input.RaisedError? {
          failure := Some(FailedWith(input.error));
        } else {
          match second
          case Expired => result := Some(TIMED_OUT);
          case CallerGone => failure := Some(CallCancelled);
          case TasksDone(_, _) =>
            match output
            case Returned(response) => result := Some(response);
            case RaisedError(error) => failure := Some(FailedWith(error));
        }
    }
    cancelSent := result.None? || result.value.ErrorResult?;
    if failure.Some? {
      return failure.value, cancelSent;
    }
    if input.RaisedError? {
      return FailedWith(input.error), cancelSent;
    }
    if output.RaisedError? {
      return FailedWith(output.error), cancelSent;
    }
    return Replied(result.value), cancelSent;
  }

  // ---------------------------------------------------------------------------------------------
  // Host and guest together
  // ---------------------------------------------------------------------------------------------

  datatype Host = NotReady | Ready | Awaiting | Stopped

  datatype System = System(chunks: seq<seq<byte>>, host: Host, next: nat, inTransit: bool, guest: State)

  datatype Event = BecomeReady | SendNext | Deliver | Guest(a: Action) | TakeAnswer | GiveUp

  function Begin(chunks: seq<seq<byte>>): System {
    System(chunks, NotReady, 0, false, INITIAL)
  }

  function Advance(y: System, e: Event): System {
    match e
    case BecomeReady => if y.host.NotReady? then y.(host := Ready) else y
    case SendNext => if y.host.Ready? then y.(host := Awaiting, inTransit := true) else y
    case Deliver =>
      if y.inTransit then y.(inTransit := false, guest := Next(y.guest, Submit(y.next, RequestAt(y.chunks, y.next))))
      else y
    case Guest(a) => if a.Submit? then y else y.(guest := Next(y.guest, a))
    case TakeAnswer =>
      if y.host.Awaiting? && y.next in y.guest.subs && y.guest.subs[y.next].at.Resolved? then
        if Acked(y.guest, y.next) && y.next < |y.chunks| then y.(host := Ready, next := y.next + 1)
        else y.(host := Stopped)
      else y
    case GiveUp => y.(host := Stopped)
  }

  function RunSystem(y: System, events: seq<Event>): System
    decreases |events|
  {
    if events == [] then y else RunSystem(Advance(y, events[0]), events[1..])
  }

  /** Every submission but the host's latest has been acknowledged, so there is never a second one open. */
  ghost predicate Sync(y: System) {
    && y.next <= |y.chunks|
    && (forall i :: i in y.guest.subs ==> i <= y.next && y.guest.subs[i].input == RequestAt(y.chunks, i))
    && (forall i :: 0 <= i < y.next ==> Acked(y.guest, i))
    && (y.inTransit || y.host.NotReady? || y.host.Ready? ==> y.next !in y.guest.subs)
    && (y.inTransit ==> y.host.Awaiting? || y.host.Stopped?)
  }

  ghost predicate InOrder(y: System) {
    && (forall k :: 0 <= k < |y.guest.completed| ==> y.guest.completed[k] == k)
    && (y.guest.eof ==> y.next == |y.chunks|)
    && (forall i :: i in y.guest.subs ==> y.guest.subs[i].at != Resolved(Conflict))
  }

  ghost predicate SystemInv(y: System) {
    Inv(y.guest) && Sync(y) && InOrder(y)
  }

  predicate SameRequests(s: State, s': State) {
    s'.subs.Keys == s.subs.Keys && forall i :: i in s.subs ==> s'.subs[i].input == s.subs[i].input
  }

  lemma SubmissionKeepsRequests(s: State, i: SubId)
    ensures SameRequests(s, DoStepSub(s, i))
  {
  }

  lemma ReceivingKeepsRequests(s: State)
    ensures SameRequests(s, DoReceive(s))
  {
  }

  lemma DroppingKeepsRequests(s: State)
    ensures SameRequests(s, DoDropReceiver(s))
  {
  }

  lemma WriteDoneKeepsRequests(s: State)
    ensures SameRequests(s, DoWriteDone(s))
  {
  }

  lemma WriteFailKeepsRequests(s: State, broken: bool)
    ensures SameRequests(s, DoWriteFail(s, broken))
  {
  }

  lemma DropAckKeepsRequests(s: State)
    ensures SameRequests(s, DoDropAck(s))
  {
  }

  lemma WriteSomeKeepsRequests(s: State, n: nat)
    ensures SameRequests(s, DoWriteSome(s, n))
  {
  }

  lemma GuestKeepsRequests(s: State, a: Action)
    requires !a.Submit?
    ensures SameRequests(s, Next(s, a))
  {
    hide DoStepSub, DoReceive, DoDropReceiver, DoWriteDone, DoWriteFail, DoWriteSome, DoDropAck;
    match a
    case StepSub(i) => SubmissionKeepsRequests(s, i);
    case Receive => ReceivingKeepsRequests(s);
    case DropReceiver => DroppingKeepsRequests(s);
    case WriteDone => WriteDoneKeepsRequests(s);
    case WriteFail(broken) => WriteFailKeepsRequests(s, broken);
    case DropAck => DropAckKeepsRequests(s);
    case WriteSome(n) => WriteSomeKeepsRequests(s, n);
    case _ => SameSubmissions(s, Next(s, a));
  }

  lemma SameSubmissions(s: State, s': State)
    requires s'.subs == s.subs
    ensures SameRequests(s, s')
  {
  }

  lemma GuestKeepsSync(y: System, a: Action)
    requires Inv(y.guest) && Sync(y) && !a.Submit?
    ensures Sync(y.(guest := Next(y.guest, a)))
  {
    hide Next, Inv;
    GuestKeepsRequests(y.guest, a);
    forall i | 0 <= i < y.next ensures Acked(Next(y.guest, a), i) {
      assert Acked(y.guest, i);
      AnswersAreFinal(y.guest, i, a);
    }
  }

  /** The only open submission is the latest, and the completed ones are those before it. */
  lemma OpenIsLatest(y: System, i: SubId)
    requires LogInv(y.guest) && Sync(y) && InOrder(y) && i in y.guest.subs && !Acked(y.guest, i)
    ensures i == y.next && |y.guest.completed| == i
  {
    var done := y.guest.completed;
    assert forall k :: 0 <= k < |done| ==> Acked(y.guest, done[k]) && done[k] == k;
    assert done != [] ==> Acked(y.guest, done[|done| - 1]);
    if i > 0 {
      assert Acked(y.guest, i - 1);
      var k :| 0 <= k < |done| && done[k] == i - 1;
    }
  }

  /** Only finishing a write adds to the log, only receiving ends the input, only sending can be refused. */
  lemma OrderFrame(y: System, s: State)
    requires InOrder(y) && s.completed == y.guest.completed && (s.eof ==> y.guest.eof)
    requires s.subs.Keys == y.guest.subs.Keys
    requires forall i :: i in s.subs ==> s.subs[i].at == Resolved(Conflict) ==> y.guest.subs[i].at == Resolved(Conflict)
    ensures InOrder(y.(guest := s))
  {
  }

  lemma WriteDoneKeepsOrder(y: System)
    requires SystemInv(y)
    ensures InOrder(y.(guest := DoWriteDone(y.guest)))
  {
    if y.guest.current.Some? {
      OpenIsLatest(y, y.guest.current.value.sub);
    }
  }

  lemma ReceiveKeepsOrder(y: System)
    requires SystemInv(y)
    ensures InOrder(y.(guest := DoReceive(y.guest)))
  {
    if y.guest.queue.Some? {
      OpenIsLatest(y, y.guest.queue.value);
    }
  }

  /** With one submission open at a time, the queue is free whenever a submission comes to be sent. */
  lemma SendingFindsRoom(y: System, i: SubId)
    requires SystemInv(y) && i in y.guest.subs && y.guest.subs[i].at.Send?
    ensures y.guest.queue.None?
  {
    OpenIsLatest(y, i);
    if y.guest.queue.Some? {
      OpenIsLatest(y, y.guest.queue.value);
    }
  }

  lemma StepSubKeepsOrder(y: System, i: SubId)
    requires SystemInv(y)
    ensures InOrder(y.(guest := DoStepSub(y.guest, i)))
  {
    var s := y.guest;
    if i in s.subs {
      if s.subs[i].at.Send? {
        SendingFindsRoom(y, i);
      }
      hide Inv, Sync;
      var at := StepNext(s, s.subs[i].at);
      MoveKeepsOrder(y, i, at, if s.subs[i].at.Send? && at.Waiting? then Some(i) else s.queue);
    }
  }

  /** A submission that moves on, other than to a refusal. */
  lemma MoveKeepsOrder(y: System, i: SubId, at: Stage, queue: Option<SubId>)
    requires InOrder(y) && i in y.guest.subs && (at == Resolved(Conflict) ==> y.guest.subs[i].at == at)
    ensures InOrder(y.(guest := y.guest.Move(i, at).(queue := queue)))
  {
  }

  lemma GuestKeepsOrder(y: System, a: Action)
    requires SystemInv(y) && !a.Submit?
    ensures InOrder(y.(guest := Next(y.guest, a)))
  {
    hide DoStepSub, DoReceive, DoWriteDone, DoWriteFail, DoDropAck, DoDropReceiver, Inv, Sync, InOrder;
    match a
    case WriteDone => WriteDoneKeepsOrder(y);
    case Receive => ReceiveKeepsOrder(y);
    case StepSub(i) => StepSubKeepsOrder(y, i);
    case WriteFail(broken) => FailKeepsOrder(y, broken);
    case DropAck => DropAckKeepsOrder(y);
    case DropReceiver => DropReceiverKeepsOrder(y);
    case WriteSome(n) => WriteSomeKeepsOrder(y, n);
    case _ => OrderFrame(y, Next(y.guest, a));
  }

  lemma WriteSomeKeepsOrder(y: System, n: nat)
    requires InOrder(y)
    ensures InOrder(y.(guest := DoWriteSome(y.guest, n)))
  {
    OrderFrame(y, DoWriteSome(y.guest, n));
  }

  lemma FailKeepsOrder(y: System, broken: bool)
    requires InOrder(y)
    ensures InOrder(y.(guest := DoWriteFail(y.guest, broken)))
  {
    OrderFrame(y, DoWriteFail(y.guest, broken));
  }

  lemma DropAckKeepsOrder(y: System)
    requires InOrder(y)
    ensures InOrder(y.(guest := DoDropAck(y.guest)))
  {
    OrderFrame(y, DoDropAck(y.guest));
  }

  lemma DropReceiverKeepsOrder(y: System)
    requires InOrder(y)
    ensures InOrder(y.(guest := DoDropReceiver(y.guest)))
  {
    OrderFrame(y, DoDropReceiver(y.guest));
  }

  lemma DeliverKeepsInv(y: System)
    requires SystemInv(y) && y.inTransit
    ensures SystemInv(Advance(y, Deliver))
  {
    var a := Submit(y.next, RequestAt(y.chunks, y.next));
    NextKeepsInv(y.guest, a);
    hide Inv;
    var y' := Advance(y, Deliver);
    forall i | 0 <= i < y.next ensures Acked(y'.guest, i) {
      assert Acked(y.guest, i);
    }
  }

  lemma AdvanceKeepsInv(y: System, e: Event)
    requires SystemInv(y)
    ensures SystemInv(Advance(y, e))
  {
    match e
    case Guest(a) =>
      if !a.Submit? {
        hide Next, Inv, Sync, InOrder;
        NextKeepsInv(y.guest, a);
        GuestKeepsSync(y, a);
        GuestKeepsOrder(y, a);
      }
    case Deliver =>
      if y.inTransit {
        DeliverKeepsInv(y);
      }
    case TakeAnswer => hide Inv;
    case _ =>
  }

  lemma AdvanceKeepsChunks(y: System, e: Event)
    ensures Advance(y, e).chunks == y.chunks
  {
    hide Next;
  }

  lemma {:induction false} RunSystemKeepsInv(y: System, events: seq<Event>)
    requires SystemInv(y)
    ensures SystemInv(RunSystem(y, events)) && RunSystem(y, events).chunks == y.chunks
    decreases |events|
  {
    hide SystemInv, Advance;
    if events != [] {
      AdvanceKeepsInv(y, events[0]);
      AdvanceKeepsChunks(y, events[0]);
      RunSystemKeepsInv(Advance(y, events[0]), events[1..]);
    }
  }

  lemma PayloadsAreChunks(y: System)
    requires SystemInv(y)
    ensures |y.guest.completed| <= |y.chunks|
    ensures Payloads(y.guest.subs, y.guest.completed) == y.chunks[..|y.guest.completed|]
  {
    var done := y.guest.completed;
    forall k | 0 <= k < |done| ensures done[k] == k && Acked(y.guest, k) && k < |y.chunks| {
      assert Acked(y.guest, done[k]) && y.guest.subs[done[k]].input.Data?;
    }
    assert done != [] ==> Acked(y.guest, done[|done| - 1]);
    forall k | 0 <= k < |done| ensures PayloadOf(y.guest.subs, done[k]) == y.chunks[k] {
      assert Acked(y.guest, done[k]);
    }
  }

  lemma {:induction false} FlattenPrefix(parts: seq<seq<byte>>, k: nat)
    requires k < |parts|
    ensures Flatten(parts[..k]) + parts[k] <= Flatten(parts)
  {
    assert parts == parts[..k] + parts[k..];
    FlattenAppend(parts[..k], parts[k..]);
  }

  lemma CompletedWhenEnded(y: System)
    requires SystemInv(y)
    ensures y.guest.eof ==> |y.guest.completed| >= |y.chunks|
  {
    if y.guest.eof && y.chunks != [] {
      assert Acked(y.guest, y.next - 1);
      var k :| 0 <= k < |y.guest.completed| && y.guest.completed[k] == y.next - 1;
    }
  }

  lemma WrittenSoFar(y: System)
    requires SystemInv(y)
    ensures y.guest.written <= Flatten(y.chunks)
    ensures y.guest.eof ==> y.guest.written == Flatten(y.chunks)
  {
    PayloadsAreChunks(y);
    var s := y.guest;
    var n := |s.completed|;
    if s.current.Some? {
      var i := s.current.value.sub;
      assert !Acked(s, i);
      OpenIsLatest(y, i);
      FlattenPrefix(y.chunks, n);
    } else if n < |y.chunks| {
      FlattenPrefix(y.chunks, n);
      CompletedWhenEnded(y);
    } else {
      assert y.chunks[..n] == y.chunks;
    }
  }

  /**
   End to end: whatever the schedule, the child's pipe holds a prefix of the source, in order and
   without duplication, and all of it once the guest has processed the end-of-input request; and
   the one-slot queue never refuses the host.
   */
  lemma SourceReachesChild(source: seq<seq<byte>>, chunks: seq<seq<byte>>, events: seq<Event>)
    requires Flatten(chunks) == Flatten(source)
    ensures var guest := RunSystem(Begin(chunks), events).guest;
            && guest.written <= Flatten(source)
            && (guest.eof ==> guest.written == Flatten(source))
            && forall i :: i in guest.subs ==> guest.subs[i].at != Resolved(Conflict)
  {
    assert Payloads(map[], []) == [];
    assert SystemInv(Begin(chunks));
    RunSystemKeepsInv(Begin(chunks), events);
    WrittenSoFar(RunSystem(Begin(chunks), events));
  }

  // ---------------------------------------------------------------------------------------------
  // Nothing stands in the way
  // ---------------------------------------------------------------------------------------------

  ghost predicate CanReach(y: System, y': System) {
    exists events :: RunSystem(y, events) == y'
  }

  lemma {:induction false} RunSystemAppend(y: System, a: seq<Event>, b: seq<Event>)
    ensures RunSystem(y, a + b) == RunSystem(RunSystem(y, a), b)
    decreases |a|
  {
    hide Advance;
    if a == [] {
      assert a + b == b;
    } else {
      assert (a + b)[1..] == a[1..] + b;
      RunSystemAppend(Advance(y, a[0]), a[1..], b);
    }
  }

  lemma ReachMore(x: System, y: System, e: Event)
    requires CanReach(x, y)
    ensures CanReach(x, Advance(y, e))
  {
    hide Advance;
    var events :| RunSystem(x, events) == y;
    RunSystemAppend(x, events, [e]);
    assert RunSystem(y, [e]) == Advance(y, e);
  }

  /** The guest takes input: the command runs, its stdin is open and its writer is idle. */
  predicate Idle(g: State) {
    && g.registered && !g.inputClosed && !g.cancelled && g.receiverOpen && g.stdinOpen && g.writer.Alive?
    && g.queue.None? && g.current.None?
  }

  /** All chunks before `k` are written and acknowledged, and nothing is under way. */
  ghost predicate Between(y: System, k: nat) {
    && k <= |y.chunks| && y.host.Ready? && y.next == k && !y.inTransit && Idle(y.guest)
    && (forall i :: i in y.guest.subs ==> i < k)
    && y.guest.written == Flatten(y.chunks[..k])
  }

  function Queued(y: System): System {
    var input := RequestAt(y.chunks, y.next);
    y.(host := Awaiting, guest := y.guest.(subs := y.guest.subs[y.next := Sub(input, Waiting)], queue := Some(y.next)))
  }

  /** A request sent between two chunks gets into the guest's queue. */
  lemma RequestIsQueued(x: System, y: System)
    requires CanReach(x, y) && y.host.Ready? && !y.inTransit && Idle(y.guest) && y.next !in y.guest.subs
    ensures CanReach(x, Queued(y))
  {
    var k, subs := y.next, y.guest.subs;
    var input := RequestAt(y.chunks, k);
    var y1 := Advance(y, SendNext);
    var y2 := Advance(y1, Deliver);
    assert y2 == y.(host := Awaiting, guest := y.guest.(subs := subs[k := Sub(input, Lookup)]));
    var y3 := Advance(y2, Guest(StepSub(k)));
    assert y3 == y2.(guest := y.guest.(subs := subs[k := Sub(input, CheckClosed)]));
    var y4 := Advance(y3, Guest(StepSub(k)));
    assert y4 == y2.(guest := y.guest.(subs := subs[k := Sub(input, CheckCancel)]));
    var y5 := Advance(y4, Guest(StepSub(k)));
    assert y5 == y2.(guest := y.guest.(subs := subs[k := Sub(input, Send)]));
    var y6 := Advance(y5, Guest(StepSub(k)));
    assert y6 == Queued(y);
    hide *;
    ReachMore(x, y, SendNext);
    ReachMore(x, y1, Deliver);
    ReachMore(x, y2, Guest(StepSub(k)));
    ReachMore(x, y3, Guest(StepSub(k)));
    ReachMore(x, y4, Guest(StepSub(k)));
    ReachMore(x, y5, Guest(StepSub(k)));
  }

  lemma NextChunkArrives(x: System, y: System, k: nat) returns (y': System)
    requires CanReach(x, y) && Between(y, k) && k < |y.chunks|
    ensures CanReach(x, y') && Between(y', k + 1) && y'.chunks == y.chunks
  {
    RequestIsQueued(x, y);
    var bytes := y.chunks[k];
    var y1 := Queued(y);
    var y2 := Advance(y1, Guest(Receive));
    var y3 := Advance(y2, Guest(WriteSome(|bytes|)));
    assert bytes[0..|bytes|] == bytes;
    var y4 := Advance(y3, Guest(WriteDone));
    y' := Advance(y4, TakeAnswer);
    ReachMore(x, y1, Guest(Receive));
    ReachMore(x, y2, Guest(WriteSome(|bytes|)));
    ReachMore(x, y3, Guest(WriteDone));
    ReachMore(x, y4, TakeAnswer);
    assert y.chunks[..k + 1] == y.chunks[..k] + [bytes];
    FlattenSnoc(y.chunks[..k], bytes);
    assert y3.guest.written == y.guest.written + bytes;
  }

  lemma {:induction false} ChunksArrive(chunks: seq<seq<byte>>, k: nat) returns (y: System)
    requires k <= |chunks|
    ensures CanReach(Begin(chunks), y) && Between(y, k) && y.chunks == chunks
  {
    var x := Begin(chunks);
    if k == 0 {
      var ready := Advance(x, BecomeReady);
      y := Advance(ready, Guest(StartWriter));
      assert RunSystem(x, []) == x;
      ReachMore(x, x, BecomeReady);
      ReachMore(x, ready, Guest(StartWriter));
      assert Flatten(chunks[..0]) == [];
    } else {
      var earlier := ChunksArrive(chunks, k - 1);
      y := NextChunkArrives(x, earlier, k - 1);
    }
  }

  /**
   And the whole source can arrive: for any chunks there is a run at whose end the child's stdin has got
   all of them and has been closed by the end-of-input request.
   */
  lemma WholeSourceCanArrive(source: seq<seq<byte>>, chunks: seq<seq<byte>>)
    requires Flatten(chunks) == Flatten(source)
    ensures exists events ::
              var guest := RunSystem(Begin(chunks), events).guest;
              guest.eof && !guest.stdinOpen && guest.written == Flatten(source)
  {
    var y := ChunksArrive(chunks, |chunks|);
    assert chunks[..|chunks|] == chunks;
    RequestIsQueued(Begin(chunks), y);
    ReachMore(Begin(chunks), Queued(y), Guest(Receive));
    var events :| RunSystem(Begin(chunks), events) == Advance(Queued(y), Guest(Receive));
  }
}
