/**
 The host side of the guest agent's serial line after authentication: callers register by id, one
 reader routes the frames, callers leave on an answer, a timeout, a failed write or their own
 cancellation.

 Between two awaits nothing else runs, so the operations below are the steps of every interleaving.
 A timeout cancels a call's future in one step and takes its entry out of the table in a later one;
 in between the table holds a future that is already settled.  A future or queue outlives its entry,
 because its caller holds it.
 */
module ReplyRouting {
  import opened Sequences
  import opened Wrappers

  datatype Body =
    | Reply(value: string)
    | Error(message: string)
    | Ready
    | Stdout(data: string)
    | Stderr(data: string)
    | Exit(exitCode: int)

  /** `id` is `None` when the frame has no integer id. */
  datatype Frame = Frame(id: Option<int>, body: Body)

  /** Why the reader stopped: a connection error, or anything else it did not expect. */
  datatype Reason = ConnectionLost(message: string) | Unexpected(message: string)

  datatype Future = Waiting | Done(frame: Frame) | Failed(reason: Reason) | Cancelled

  /** A stream's queue: what has been put into it and how much its consumer has taken out. */
  datatype Queue = Queue(arrived: seq<Frame>, taken: nat)

  /** The stretch of received frames that could be a call's: until its future is settled or its stream leaves. */
  datatype Window = Window(since: nat, until: Option<nat>)

  /**
   The client: the tables' keys are `pending` and `streams`; `received` and `windows` record the
   history.
   */
  datatype Client = Client(requestId: nat, pending: set<int>, streams: set<int>,
                           futures: map<int, Future>, queues: map<int, Queue>, stopped: bool,
                           received: seq<Frame>, windows: map<int, Window>)

  datatype Event =
    | StartRequest
    | StartStream
    | Receive(frame: Frame)
    | Stop(reason: Reason)
    | CancelFuture(id: int)
    | LeaveRequest(id: int)
    | Take(id: int)
    | LeaveStream(id: int)

  function Initial(): Client {
    Client(0, {}, {}, map[], map[], false, [], map[])
  }

  function ConnectionError(reason: Reason): Frame {
    Frame(None, Error("Connection error: " + reason.message))
  }

  function Closed(w: Window, now: nat): Window {
    if w.until.None? then w.(until := Some(now)) else w
  }

  function StartRequestStep(c: Client): Client {
    var id := c.requestId + 1;
    c.(requestId := id, pending := c.pending + {id}, futures := c.futures[id := Waiting],
       windows := c.windows[id := Window(|c.received|, None)])
  }

  function StartStreamStep(c: Client): Client {
    var id := c.requestId + 1;
    c.(requestId := id, streams := c.streams + {id}, queues := c.queues[id := Queue([], 0)],
       windows := c.windows[id := Window(|c.received|, None)])
  }

  function Put(q: Queue, frame: Frame): Queue {
    q.(arrived := q.arrived + [frame])
  }

  /** Every entry in a table belongs to a call. */
  predicate Consistent(c: Client) {
    && c.pending <= c.futures.Keys && c.streams <= c.queues.Keys
    && c.windows.Keys == c.futures.Keys + c.queues.Keys && c.futures.Keys !! c.queues.Keys
  }

  /**
   One turn of the reader loop: a stream's frame is queued, a future's entry is taken out and, if
   still open, resolved.
   */
  function ReceiveStep(c: Client, frame: Frame): Client
    requires Consistent(c)
  {
    var heard := c.(received := c.received + [frame]);
    if frame.id.None? then heard
    else
      var id := frame.id.value;
      if id in c.streams then heard.(queues := c.queues[id := Put(c.queues[id], frame)])
      else if id !in c.pending then heard
      else if c.futures[id] != Waiting then heard.(pending := c.pending - {id})
      else
        heard.(pending := c.pending - {id}, futures := c.futures[id := Done(frame)],
               windows := c.windows[id := Closed(c.windows[id], |c.received| + 1)])
  }

  function FailIfWaiting(f: Future, reason: Reason): Future {
    if f == Waiting then Failed(reason) else f
  }

  /** The reader stops, whatever the reason: everyone registered is woken, unless settled already. */
  function StopStep(c: Client, reason: Reason): Client
    requires Consistent(c)
  {
    c.(stopped := true, pending := {}, streams := {},
       futures := map id | id in c.futures ::
                    if id in c.pending then FailIfWaiting(c.futures[id], reason) else c.futures[id],
       queues := map id | id in c.queues ::
                   if id in c.streams then Put(c.queues[id], ConnectionError(reason)) else c.queues[id],
       windows := map id | id in c.windows ::
                    if id in c.pending + c.streams then Closed(c.windows[id], |c.received|) else c.windows[id])
  }

  /** `wait_for` runs out, or the caller is cancelled: an open future is cancelled, the entry stays for now. */
  function CancelFutureStep(c: Client, id: int): Client
    requires Consistent(c) && id in c.futures
  {
    if c.futures[id] != Waiting then c
    else c.(futures := c.futures[id := Cancelled], windows := c.windows[id := Closed(c.windows[id], |c.received|)])
  }

  /** The `finally` of a one-shot call: the entry goes, and an open future is cancelled. */
  function LeaveRequestStep(c: Client, id: int): Client
    requires Consistent(c) && id in c.futures
  {
    CancelFutureStep(c, id).(pending := c.pending - {id})
  }

  /** The `finally` of a stream call. */
  function LeaveStreamStep(c: Client, id: int): Client
    requires Consistent(c) && id in c.queues
  {
    c.(streams := c.streams - {id}, windows := c.windows[id := Closed(c.windows[id], |c.received|)])
  }

  function TakeStep(c: Client, id: int): Client
    requires id in c.queues
  {
    c.(queues := c.queues[id := c.queues[id].(taken := c.queues[id].taken + 1)])
  }

  predicate Enabled(c: Client, e: Event) {
    && Consistent(c)
    && match e
       case StartRequest => true
       case StartStream => true
       case Receive(_) => !c.stopped
       case Stop(_) => !c.stopped
       case CancelFuture(id) => id in c.futures
       case LeaveRequest(id) => id in c.futures
       case Take(id) => id in c.queues && c.queues[id].taken < |c.queues[id].arrived|
       case LeaveStream(id) => id in c.queues
  }

  function Step(c: Client, e: Event): Client
    requires Enabled(c, e)
  {
    match e
    case StartRequest => StartRequestStep(c)
    case StartStream => StartStreamStep(c)
    case Receive(frame) => ReceiveStep(c, frame)
    case Stop(reason) => StopStep(c, reason)
    case CancelFuture(id) => CancelFutureStep(c, id)
    case LeaveRequest(id) => LeaveRequestStep(c, id)
    case Take(id) => TakeStep(c, id)
    case LeaveStream(id) => LeaveStreamStep(c, id)
  }

  // ---------------------------------------------------------------------------------------------
  // One call
  // ---------------------------------------------------------------------------------------------

  /** The frames with a given id, in order. */
  function Own(frames: seq<Frame>, id: int): seq<Frame> {
    if frames == [] then []
    else
      var n := |frames| - 1;
      Own(frames[..n], id) + if frames[n].id == Some(id) then [frames[n]] else []
  }

  lemma {:induction false} OwnHaveTheId(frames: seq<Frame>, id: int)
    ensures forall f :: f in Own(frames, id) ==> f.id == Some(id) && f in frames
  {
    if frames != [] {
      OwnHaveTheId(frames[..|frames| - 1], id);
    }
  }

  lemma OwnOneMore(frames: seq<Frame>, frame: Frame, id: int)
    ensures Own(frames + [frame], id) == Own(frames, id) + if frame.id == Some(id) then [frame] else []
  {
    assert (frames + [frame])[..|frames|] == frames;
  }

  predicate InRange(w: Window, now: nat) {
    w.since <= now && (w.until.Some? ==> w.since <= w.until.value <= now)
  }

  /** The frames with a call's id that arrived in its window. */
  function Mine(w: Window, received: seq<Frame>, id: int): seq<Frame>
    requires InRange(w, |received|)
  {
    Own(received[w.since..if w.until.Some? then w.until.value else |received|], id)
  }

  lemma MineOneMore(w: Window, received: seq<Frame>, frame: Frame, id: int)
    requires InRange(w, |received|)
    ensures InRange(w, |received| + 1) && InRange(Closed(w, |received| + 1), |received| + 1)
    ensures var more := if w.until.None? && frame.id == Some(id) then [frame] else [];
            && Mine(w, received + [frame], id) == Mine(w, received, id) + more
            && Mine(Closed(w, |received| + 1), received + [frame], id) == Mine(w, received, id) + more
  {
    var later := received + [frame];
    if w.until.None? {
      OwnOneMore(received[w.since..], frame, id);
      assert later[w.since..|later|] == received[w.since..] + [frame];
      assert received[w.since..|received|] == received[w.since..];
    } else {
      assert later[w.since..w.until.value] == received[w.since..w.until.value];
    }
  }

  /**
   A future waits only while it is in the table, and is settled when it is not; it holds the one
   frame with its id that came while it was waiting, and without one it holds none.
   */
  ghost predicate FutureOk(id: int, inTable: bool, f: Future, w: Window, received: seq<Frame>, stopped: bool) {
    && InRange(w, |received|)
    && (f == Waiting <==> w.until.None?)
    && (f == Waiting ==> inTable)
    && (inTable ==> f in {Waiting, Cancelled})
    && Mine(w, received, id) == (if f.Done? then [f.frame] else [])
    && (f.Failed? ==> stopped)
  }

  /** A queue has got exactly the frames with its id, in order, and after a lost connection one error. */
  ghost predicate QueueOk(id: int, inTable: bool, q: Queue, w: Window, received: seq<Frame>, stopped: bool) {
    && InRange(w, |received|)
    && (inTable <==> w.until.None?)
    && q.taken <= |q.arrived|
    && (q.arrived == Mine(w, received, id)
        || (!inTable && stopped && q.arrived != []
            && q.arrived[|q.arrived| - 1].body.Error? && q.arrived[..|q.arrived| - 1] == Mine(w, received, id)))
  }

  /** A frame that is not for a waiting future leaves it as it is; its entry may go if it is settled. */
  lemma FutureOverhears(id: int, inTable: bool, after: bool, f: Future, w: Window, received: seq<Frame>, stopped: bool,
                        frame: Frame)
    requires FutureOk(id, inTable, f, w, received, stopped)
    requires f != Waiting || frame.id != Some(id)
    requires after == inTable || (!after && f != Waiting)
    ensures FutureOk(id, after, f, w, received + [frame], stopped)
  {
    MineOneMore(w, received, frame, id);
  }

  lemma FutureIsAnswered(id: int, inTable: bool, w: Window, received: seq<Frame>, stopped: bool, frame: Frame)
    requires FutureOk(id, inTable, Waiting, w, received, stopped) && frame.id == Some(id)
    ensures FutureOk(id, false, Done(frame), Closed(w, |received| + 1), received + [frame], stopped)
  {
    MineOneMore(w, received, frame, id);
  }

  /** A waiting future is settled without a frame. */
  lemma FutureIsSettled(id: int, inTable: bool, after: bool, f: Future, w: Window, received: seq<Frame>, stopped: bool,
                        stoppedAfter: bool)
    requires FutureOk(id, inTable, Waiting, w, received, stopped) && (stopped ==> stoppedAfter)
    requires (f == Cancelled && (after ==> inTable)) || (f.Failed? && stoppedAfter && !after)
    ensures FutureOk(id, after, f, Closed(w, |received|), received, stoppedAfter)
  {
  }

  /** A settled future's entry may go, and the reader may stop. */
  lemma FutureStaysSettled(id: int, inTable: bool, after: bool, f: Future, w: Window, received: seq<Frame>,
                           stopped: bool, stoppedAfter: bool)
    requires FutureOk(id, inTable, f, w, received, stopped) && f != Waiting
    requires (after ==> inTable) && (stopped ==> stoppedAfter)
    ensures FutureOk(id, after, f, w, received, stoppedAfter) && Closed(w, |received|) == w
  {
  }

  lemma QueueOverhears(id: int, inTable: bool, q: Queue, w: Window, received: seq<Frame>, stopped: bool, frame: Frame)
    requires QueueOk(id, inTable, q, w, received, stopped) && (!inTable || frame.id != Some(id))
    ensures QueueOk(id, inTable, q, w, received + [frame], stopped)
  {
    MineOneMore(w, received, frame, id);
  }

  lemma QueueGets(id: int, q: Queue, w: Window, received: seq<Frame>, stopped: bool, frame: Frame)
    requires QueueOk(id, true, q, w, received, stopped) && frame.id == Some(id)
    ensures QueueOk(id, true, Put(q, frame), w, received + [frame], stopped)
  {
    MineOneMore(w, received, frame, id);
  }

  lemma QueueIsStopped(id: int, inTable: bool, q: Queue, w: Window, received: seq<Frame>, stopped: bool, reason: Reason)
    requires QueueOk(id, inTable, q, w, received, stopped)
    ensures QueueOk(id, false, if inTable then Put(q, ConnectionError(reason)) else q, Closed(w, |received|),
                    received, true)
    ensures !inTable ==> Closed(w, |received|) == w
  {
    assert Put(q, ConnectionError(reason)).arrived[..|q.arrived|] == q.arrived;
  }

  lemma QueueLeaves(id: int, inTable: bool, q: Queue, w: Window, received: seq<Frame>, stopped: bool)
    requires QueueOk(id, inTable, q, w, received, stopped)
    ensures QueueOk(id, false, q, Closed(w, |received|), received, stopped)
  {
  }

  // ---------------------------------------------------------------------------------------------
  // What every interleaving keeps
  // ---------------------------------------------------------------------------------------------

  ghost predicate FutureRight(c: Client, id: int) {
    && id in c.futures && id in c.windows
    && FutureOk(id, id in c.pending, c.futures[id], c.windows[id], c.received, c.stopped)
  }

  ghost predicate QueueRight(c: Client, id: int) {
    && id in c.queues && id in c.windows
    && QueueOk(id, id in c.streams, c.queues[id], c.windows[id], c.received, c.stopped)
  }

  ghost predicate Inv(c: Client) {
    && Consistent(c)
    && (forall id :: id in c.windows ==> 1 <= id <= c.requestId)
    && (forall id :: id in c.futures ==> FutureRight(c, id))
    && (forall id :: id in c.queues ==> QueueRight(c, id))
  }

  lemma InvIsConsistent(c: Client)
    requires Inv(c)
    ensures Consistent(c)
  {
  }

  /** What a frame does to one call's future. */
  lemma ReceiveAtFuture(c: Client, frame: Frame, id: int)
    requires Consistent(c) && id in c.futures
    ensures var c', mine := ReceiveStep(c, frame), frame.id == Some(id) && id in c.pending;
            && id in c'.futures && id in c'.windows && id in c.windows
            && c'.received == c.received + [frame] && c'.stopped == c.stopped
            && (id in c'.pending <==> id in c.pending && !mine)
            && c'.futures[id] == (if mine && c.futures[id] == Waiting then Done(frame) else c.futures[id])
            && c'.windows[id] == (if mine && c.futures[id] == Waiting then Closed(c.windows[id], |c.received| + 1)
                                  else c.windows[id])
  {
  }

  lemma ReceiveFuture(c: Client, frame: Frame, id: int)
    requires Inv(c) && id in c.futures
    ensures FutureRight(ReceiveStep(c, frame), id)
  {
    assert FutureRight(c, id);
    InvIsConsistent(c);
    ReceiveAtFuture(c, frame, id);
    WaitingIsInTable(c, id);
    hide FutureOk, Inv, ReceiveStep;
    if frame.id == Some(id) && id in c.pending && c.futures[id] == Waiting {
      FutureIsAnswered(id, true, c.windows[id], c.received, c.stopped, frame);
    } else {
      FutureOverhears(id, id in c.pending, id in ReceiveStep(c, frame).pending, c.futures[id], c.windows[id],
                      c.received, c.stopped, frame);
    }
  }

  lemma WaitingIsInTable(c: Client, id: int)
    requires FutureRight(c, id)
    ensures c.futures[id] == Waiting ==> id in c.pending
  {
  }

  lemma ReceiveQueue(c: Client, frame: Frame, id: int)
    requires Inv(c) && id in c.queues
    ensures QueueRight(ReceiveStep(c, frame), id)
  {
    assert QueueRight(c, id);
    InvIsConsistent(c);
    hide QueueOk, Inv;
    if frame.id == Some(id) && id in c.streams {
      QueueGets(id, c.queues[id], c.windows[id], c.received, c.stopped, frame);
    } else {
      QueueOverhears(id, id in c.streams, c.queues[id], c.windows[id], c.received, c.stopped, frame);
    }
  }

  lemma ReceiveKeeps(c: Client, frame: Frame)
    requires Inv(c) && !c.stopped
    ensures Inv(ReceiveStep(c, frame))
  {
    hide QueueRight, FutureRight;
    var c' := ReceiveStep(c, frame);
    assert c'.futures.Keys == c.futures.Keys && c'.queues.Keys == c.queues.Keys && c'.windows.Keys == c.windows.Keys;
    forall id | id in c'.futures ensures FutureRight(c', id) {
      ReceiveFuture(c, frame, id);
    }
    forall id | id in c'.queues ensures QueueRight(c', id) {
      ReceiveQueue(c, frame, id);
    }
  }

  lemma StopFuture(c: Client, reason: Reason, id: int)
    requires Inv(c) && id in c.futures
    ensures FutureRight(StopStep(c, reason), id)
  {
    assert FutureRight(c, id);
    WaitingIsInTable(c, id);
    hide FutureOk;
    if c.futures[id] == Waiting {
      FutureIsSettled(id, true, false, Failed(reason), c.windows[id], c.received, c.stopped, true);
    } else {
      FutureStaysSettled(id, id in c.pending, false, c.futures[id], c.windows[id], c.received, c.stopped, true);
    }
  }

  lemma StopQueue(c: Client, reason: Reason, id: int)
    requires Inv(c) && id in c.queues
    ensures QueueRight(StopStep(c, reason), id)
  {
    assert QueueRight(c, id);
    hide QueueOk;
    QueueIsStopped(id, id in c.streams, c.queues[id], c.windows[id], c.received, c.stopped, reason);
  }

  lemma StopKeeps(c: Client, reason: Reason)
    requires Inv(c)
    ensures Inv(StopStep(c, reason))
  {
    hide QueueRight, FutureRight;
    var c' := StopStep(c, reason);
    assert c'.futures.Keys == c.futures.Keys && c'.queues.Keys == c.queues.Keys && c'.windows.Keys == c.windows.Keys;
    forall id | id in c'.futures ensures FutureRight(c', id) {
      StopFuture(c, reason, id);
    }
    forall id | id in c'.queues ensures QueueRight(c', id) {
      StopQueue(c, reason, id);
    }
  }

  /** The other calls see nothing of a step that touches one call only. */
  lemma OthersKept(c: Client, c': Client, touched: int)
    requires Inv(c) && Consistent(c')
    requires c'.received == c.received && c'.stopped == c.stopped && c'.requestId >= c.requestId
    requires forall id :: id != touched ==>
               && (id in c.futures <==> id in c'.futures) && (id in c.queues <==> id in c'.queues)
               && (id in c.pending <==> id in c'.pending) && (id in c.streams <==> id in c'.streams)
    requires forall id :: id in c.futures && id != touched ==> c'.futures[id] == c.futures[id]
    requires forall id :: id in c.queues && id != touched ==> c'.queues[id] == c.queues[id]
    requires forall id :: id in c.windows && id != touched ==> c'.windows[id] == c.windows[id]
    requires touched in c'.futures ==> FutureRight(c', touched)
    requires touched in c'.queues ==> QueueRight(c', touched)
    requires touched in c'.windows ==> 1 <= touched <= c'.requestId
    ensures Inv(c')
  {
    hide FutureOk, QueueOk;
    forall id | id in c'.futures ensures FutureRight(c', id) {
      assert id != touched ==> FutureRight(c, id);
    }
    forall id | id in c'.queues ensures QueueRight(c', id) {
      assert id != touched ==> QueueRight(c, id);
    }
  }

  lemma NewIdIsFresh(c: Client)
    requires Inv(c)
    ensures c.requestId + 1 !in c.windows && forall id :: id in c.windows ==> id < c.requestId + 1
  {
  }

  lemma NewWindowIsEmpty(id: int, received: seq<Frame>, stopped: bool)
    ensures var w := Window(|received|, None);
            && InRange(w, |received|) && Mine(w, received, id) == []
            && FutureOk(id, true, Waiting, w, received, stopped)
            && QueueOk(id, true, Queue([], 0), w, received, stopped)
  {
    assert received[|received|..|received|] == [];
  }

  /** A new id is above all earlier ones, and its window is empty. */
  lemma StartRequestKeeps(c: Client)
    requires Inv(c)
    ensures Inv(StartRequestStep(c))
  {
    var id := c.requestId + 1;
    NewIdIsFresh(c);
    NewWindowIsEmpty(id, c.received, c.stopped);
    hide FutureOk, QueueOk;
    OthersKept(c, StartRequestStep(c), id);
  }

  lemma StartStreamKeeps(c: Client)
    requires Inv(c)
    ensures Inv(StartStreamStep(c))
  {
    var id := c.requestId + 1;
    NewIdIsFresh(c);
    NewWindowIsEmpty(id, c.received, c.stopped);
    hide FutureOk, QueueOk;
    OthersKept(c, StartStreamStep(c), id);
  }

  lemma CancelKeeps(c: Client, id: int)
    requires Inv(c) && id in c.futures
    ensures Inv(CancelFutureStep(c, id)) && Inv(LeaveRequestStep(c, id))
  {
    assert FutureRight(c, id);
    hide FutureOk;
    var w := c.windows[id];
    if c.futures[id] == Waiting {
      FutureIsSettled(id, id in c.pending, id in c.pending, Cancelled, w, c.received, c.stopped, c.stopped);
      FutureIsSettled(id, id in c.pending, false, Cancelled, w, c.received, c.stopped, c.stopped);
    } else {
      FutureStaysSettled(id, id in c.pending, false, c.futures[id], w, c.received, c.stopped, c.stopped);
    }
    OthersKept(c, CancelFutureStep(c, id), id);
    OthersKept(c, LeaveRequestStep(c, id), id);
  }

  lemma LeaveStreamKeeps(c: Client, id: int)
    requires Inv(c) && id in c.queues
    ensures Inv(LeaveStreamStep(c, id))
  {
    assert QueueRight(c, id);
    hide QueueOk;
    QueueLeaves(id, id in c.streams, c.queues[id], c.windows[id], c.received, c.stopped);
    OthersKept(c, LeaveStreamStep(c, id), id);
  }

  lemma TakeKeeps(c: Client, id: int)
    requires Inv(c) && Enabled(c, Take(id))
    ensures Inv(TakeStep(c, id))
  {
    assert QueueRight(c, id);
    assert QueueRight(TakeStep(c, id), id);
    hide QueueOk;
    OthersKept(c, TakeStep(c, id), id);
  }

  lemma StepKeeps(c: Client, e: Event)
    requires Inv(c) && Enabled(c, e)
    ensures Inv(Step(c, e))
  {
    hide Inv;
    match e
    case StartRequest => StartRequestKeeps(c);
    case StartStream => StartStreamKeeps(c);
    case Receive(frame) => ReceiveKeeps(c, frame);
    case Stop(reason) => StopKeeps(c, reason);
    case CancelFuture(id) => CancelKeeps(c, id);
    case LeaveRequest(id) => CancelKeeps(c, id);
    case Take(id) => TakeKeeps(c, id);
    case LeaveStream(id) => LeaveStreamKeeps(c, id);
  }

  // ---------------------------------------------------------------------------------------------
  // Runs
  // ---------------------------------------------------------------------------------------------

  ghost predicate IsRun(states: seq<Client>, events: seq<Event>) {
    && |states| == |events| + 1
    && forall i :: 0 <= i < |events| ==> Enabled(states[i], events[i]) && states[i + 1] == Step(states[i], events[i])
  }

  lemma {:induction false} RunKeeps(states: seq<Client>, events: seq<Event>, i: nat)
    requires IsRun(states, events) && Inv(states[0]) && i < |states|
    ensures Inv(states[i])
  {
    hide Inv, Enabled, Step;
    if i > 0 {
      RunKeeps(states, events, i - 1);
      assert Enabled(states[i - 1], events[i - 1]);
      StepKeeps(states[i - 1], events[i - 1]);
    }
  }

  lemma InitiallyRight()
    ensures Inv(Initial())
  {
  }

  /**
   In every interleaving a caller's answer is a frame with the caller's id: the only one that came
   between its registration and its future being settled.
   */
  lemma AnswersAreOwn(states: seq<Client>, events: seq<Event>, i: nat, id: int)
    requires IsRun(states, events) && states[0] == Initial() && i < |states|
    requires id in states[i].futures && states[i].futures[id].Done?
    ensures var c := states[i];
            && id in c.windows && InRange(c.windows[id], |c.received|)
            && c.futures[id].frame.id == Some(id) && c.futures[id].frame in c.received
            && Mine(c.windows[id], c.received, id) == [c.futures[id].frame]
  {
    InitiallyRight();
    RunKeeps(states, events, i);
    var c := states[i];
    assert FutureRight(c, id);
    var w := c.windows[id];
    OwnHaveTheId(c.received[w.since..if w.until.Some? then w.until.value else |c.received|], id);
    assert c.futures[id].frame in Mine(w, c.received, id);
  }

  /** Once a one-shot call has an answer, a failure or is cancelled, nothing changes that. */
  lemma {:induction false} CompletesAtMostOnce(states: seq<Client>, events: seq<Event>, i: nat, j: nat, id: int)
    requires IsRun(states, events) && Inv(states[0]) && i <= j < |states|
    requires id in states[i].futures && states[i].futures[id] != Waiting
    ensures id in states[j].futures && states[j].futures[id] == states[i].futures[id]
  {
    hide Inv, Enabled, Step;
    if i < j {
      CompletesAtMostOnce(states, events, i, j - 1, id);
      RunKeeps(states, events, j - 1);
      assert Enabled(states[j - 1], events[j - 1]) && states[j] == Step(states[j - 1], events[j - 1]);
      OneStepKeepsAnswer(states[j - 1], events[j - 1], id);
    }
  }

  lemma OneStepKeepsAnswer(c: Client, e: Event, id: int)
    requires Inv(c) && Enabled(c, e) && id in c.futures && c.futures[id] != Waiting
    ensures id in Step(c, e).futures && Step(c, e).futures[id] == c.futures[id]
  {
    NewIdIsFresh(c);
    assert id in c.windows;
    hide Inv;
  }

  /** A queue whose stream has left the table gets nothing more. */
  lemma {:induction false} QueueIsFinal(states: seq<Client>, events: seq<Event>, i: nat, j: nat, id: int)
    requires IsRun(states, events) && Inv(states[0]) && i <= j < |states|
    requires id in states[i].queues && id !in states[i].streams
    ensures id in states[j].queues && id !in states[j].streams
    ensures states[j].queues[id].arrived == states[i].queues[id].arrived
  {
    hide Inv, Enabled, Step;
    if i < j {
      QueueIsFinal(states, events, i, j - 1, id);
      RunKeeps(states, events, j - 1);
      assert Enabled(states[j - 1], events[j - 1]) && states[j] == Step(states[j - 1], events[j - 1]);
      OneStepKeepsQueue(states[j - 1], events[j - 1], id);
    }
  }

  lemma OneStepKeepsQueue(c: Client, e: Event, id: int)
    requires Inv(c) && Enabled(c, e) && id in c.queues && id !in c.streams
    ensures id in Step(c, e).queues && id !in Step(c, e).streams
    ensures Step(c, e).queues[id].arrived == c.queues[id].arrived
  {
    NewIdIsFresh(c);
    assert id in c.windows;
    hide Inv;
  }

  /**
   Between a timeout and the caller's `finally` the table does hold a settled future; a frame for it
   then, or the reader's end, leaves it cancelled.
   */
  lemma SettledWhileRegistered(frame: Frame, reason: Reason)
    requires frame.id == Some(1)
    ensures var started := StartRequestStep(Initial());
            var cancelled := CancelFutureStep(started, 1);
            && IsRun([Initial(), started, cancelled], [StartRequest, CancelFuture(1)])
            && 1 in cancelled.pending && cancelled.futures[1] == Cancelled
            && 1 !in ReceiveStep(cancelled, frame).pending && ReceiveStep(cancelled, frame).futures[1] == Cancelled
            && 1 !in StopStep(cancelled, reason).pending && StopStep(cancelled, reason).futures[1] == Cancelled
  {
    var started := StartRequestStep(Initial());
    var states, events := [Initial(), started, CancelFutureStep(started, 1)], [StartRequest, CancelFuture(1)];
    assert Enabled(states[0], events[0]) && states[1] == Step(states[0], events[0]);
    assert Enabled(states[1], events[1]) && states[2] == Step(states[1], events[1]);
  }

  /**
   When the reader stops, everyone registered is woken, for good: a call still waiting has failed
   with the reason, one already settled keeps what it has, and a stream's queue ends in one error
   after all it had got.
   */
  lemma StopWakesEveryone(states: seq<Client>, events: seq<Event>, i: nat, j: nat, id: int)
    requires IsRun(states, events) && states[0] == Initial() && i < j < |states| && events[i].Stop?
    ensures id in states[i].futures ==>
              && id in states[j].futures
              && states[j].futures[id] == FailIfWaiting(states[i].futures[id], events[i].reason)
    ensures id in states[i].streams ==>
              id in states[i].queues && id in states[j].queues
              && states[j].queues[id].arrived ==
                 states[i].queues[id].arrived + [Frame(None, Error("Connection error: " + events[i].reason.message))]
  {
    InitiallyRight();
    RunKeeps(states, events, i);
    var c := states[i];
    assert Enabled(c, events[i]) && states[i + 1] == StopStep(c, events[i].reason);
    if id in c.futures {
      assert FutureRight(c, id);
      WaitingIsInTable(c, id);
      CompletesAtMostOnce(states, events, i + 1, j, id);
    }
    if id in c.streams {
      QueueIsFinal(states, events, i + 1, j, id);
    }
  }

  /** The state of a call that came too late, or has not come yet. */
  ghost predicate Unanswered(c: Client, id: int) {
    && c.stopped
    && (id in c.futures ==> c.futures[id] in {Waiting, Cancelled})
    && (id in c.queues ==> c.queues[id].arrived == [])
  }

  lemma StaysUnanswered(c: Client, e: Event, id: int)
    requires Enabled(c, e) && Unanswered(c, id)
    ensures Unanswered(Step(c, e), id) && c.requestId <= Step(c, e).requestId
  {
  }

  /** And no one else: a call registered after that is left to its own timeout. */
  lemma {:induction false} LateCallersAreNotWoken(states: seq<Client>, events: seq<Event>, i: nat, j: nat, id: int)
    requires IsRun(states, events) && Inv(states[0]) && i <= j < |states| && states[i].stopped
    requires id > states[i].requestId
    ensures Unanswered(states[j], id)
  {
    hide Enabled, Step;
    if i < j {
      LateCallersAreNotWoken(states, events, i, j - 1, id);
      assert Enabled(states[j - 1], events[j - 1]) && states[j] == Step(states[j - 1], events[j - 1]);
      StaysUnanswered(states[j - 1], events[j - 1], id);
    } else {
      RunKeeps(states, events, i);
      assert id !in states[i].windows;
    }
  }

  /**
   A frame reaches no caller exactly when no stream in the table and no waiting future has its id; a
   future that was cancelled but is still in the table only loses its entry.
   */
  lemma LateFramesAreDropped(c: Client, frame: Frame)
    requires Inv(c) && !c.stopped
    ensures var c' := ReceiveStep(c, frame);
            && (c'.futures == c.futures && c'.queues == c.queues
                <==> frame.id.None? || (frame.id.value !in c.streams
                                        && (frame.id.value in c.futures ==> c.futures[frame.id.value] != Waiting)))
            && c'.pending == c.pending - (if frame.id.Some? then {frame.id.value} else {})
  {
    if frame.id.Some? {
      var id := frame.id.value;
      if id in c.futures {
        assert FutureRight(c, id);
        WaitingIsInTable(c, id);
      }
      if id in c.streams {
        assert |ReceiveStep(c, frame).queues[id].arrived| == |c.queues[id].arrived| + 1;
      }
    }
  }

  // ---------------------------------------------------------------------------------------------
  // Streams
  // ---------------------------------------------------------------------------------------------

  datatype StreamResult = StreamError(message: string) | Completed(stdout: string, stderr: string, exitCode: int)

  predicate IsLast(body: Body) {
    body.Error? || body.Exit?
  }

  function StdoutOf(frames: seq<Frame>): seq<string> {
    if frames == [] then []
    else
      var n := |frames| - 1;
      StdoutOf(frames[..n]) + if frames[n].body.Stdout? then [frames[n].body.data] else []
  }

  function StderrOf(frames: seq<Frame>): seq<string> {
    if frames == [] then []
    else
      var n := |frames| - 1;
      StderrOf(frames[..n]) + if frames[n].body.Stderr? then [frames[n].body.data] else []
  }

  /** What a consumer makes of a queue: everything before the first exit or error, and that. */
  ghost predicate IsOutcome(frames: seq<Frame>, taken: nat, r: Option<StreamResult>) {
    && taken <= |frames|
    && (r.None? ==> taken == |frames| && forall k :: 0 <= k < taken ==> !IsLast(frames[k].body))
    && (r.Some? ==>
          && taken > 0 && IsLast(frames[taken - 1].body)
          && (forall k :: 0 <= k < taken - 1 ==> !IsLast(frames[k].body))
          && r.value == match frames[taken - 1].body
                        case Error(message) => StreamError(message)
                        case Exit(exitCode) =>
                           Completed(Flatten(StdoutOf(frames[..taken - 1])), Flatten(StderrOf(frames[..taken - 1])),
                                     exitCode)
                        case _ => r.value)
  }

  /**
   A stream's output is the in-order concatenation of the text that the guest sent under its id up
   to the exit frame: what its consumer returns from its queue is what the received frames say.
   */
  lemma StreamTextIsWhatWasSent(states: seq<Client>, events: seq<Event>, i: nat, id: int, taken: nat,
                                r: Option<StreamResult>)
    requires IsRun(states, events) && states[0] == Initial() && i < |states|
    requires id in states[i].queues && IsOutcome(states[i].queues[id].arrived, taken, r)
    requires r.Some? && r.value.Completed?
    ensures id in states[i].windows && InRange(states[i].windows[id], |states[i].received|)
    ensures IsOutcome(Mine(states[i].windows[id], states[i].received, id), taken, r)
  {
    InitiallyRight();
    RunKeeps(states, events, i);
    var c := states[i];
    assert QueueRight(c, id);
    var arrived, mine := c.queues[id].arrived, Mine(c.windows[id], c.received, id);
    hide Mine;
    assert arrived[..taken - 1] == mine[..taken - 1];
  }

  lemma StdoutOneMore(frames: seq<Frame>, n: nat)
    requires n < |frames|
    ensures StdoutOf(frames[..n + 1])
            == StdoutOf(frames[..n]) + if frames[n].body.Stdout? then [frames[n].body.data] else []
    ensures StderrOf(frames[..n + 1])
            == StderrOf(frames[..n]) + if frames[n].body.Stderr? then [frames[n].body.data] else []
  {
    assert frames[..n + 1][..n] == frames[..n];
  }

  /** `queue` is all the consumer will get; without an exit or error among it the consumer goes on waiting. */
  method ConsumeStream(queue: seq<Frame>) returns (r: Option<StreamResult>, ready: bool, heardStdout: seq<string>,
                                                   heardStderr: seq<string>, taken: nat)
    ensures IsOutcome(queue, taken, r)
    ensures heardStdout == StdoutOf(queue[..taken]) && heardStderr == StderrOf(queue[..taken])
    ensures ready <==> exists k :: 0 <= k < taken && queue[k].body == Ready
  {
    var stdoutParts: seq<string>, stderrParts: seq<string> := [], [];
    ready, r, heardStdout, heardStderr := false, None, [], [];
    var n := 0;
    while n < |queue| && r.None?
      invariant 0 <= n <= |queue|
      invariant r.None? ==> forall k :: 0 <= k < n ==> !IsLast(queue[k].body)
      invariant r.None? ==> stdoutParts == StdoutOf(queue[..n]) && stderrParts == StderrOf(queue[..n])
      invariant r.Some? ==> IsOutcome(queue, n, r)
      invariant heardStdout == StdoutOf(queue[..n]) && heardStderr == StderrOf(queue[..n])
      invariant ready <==> exists k :: 0 <= k < n && queue[k].body == Ready
      decreases |queue| - n
    {
      var frame := queue[n];
      StdoutOneMore(queue, n);
      match frame.body {
        case Error(message) =>
          r := Some(StreamError(message));
        case Ready =>
          ready := true;
        case Stdout(data) =>
          stdoutParts := stdoutParts + [data];
          heardStdout := heardStdout + [data];
        case Stderr(data) =>
          stderrParts := stderrParts + [data];
          heardStderr := heardStderr + [data];
        case Exit(exitCode) =>
          r := Some(Completed(Flatten(stdoutParts), Flatten(stderrParts), exitCode));
        case Reply(_) =>
      }
      n := n + 1;
    }
    taken := n;
  }

  // ---------------------------------------------------------------------------------------------
  // The client object
  // ---------------------------------------------------------------------------------------------

  /** The reader's turns over a stretch of frames. */
  ghost function Routed(c: Client, frames: seq<Frame>): (c': Client)
    requires Inv(c) && !c.stopped
    ensures Inv(c') && !c'.stopped
  {
    if frames == [] then c
    else
      var n := |frames| - 1;
      ReceiveKeeps(Routed(c, frames[..n]), frames[n]);
      ReceiveStep(Routed(c, frames[..n]), frames[n])
  }

  lemma RoutedOneMore(c: Client, frames: seq<Frame>)
    requires Inv(c) && !c.stopped && frames != []
    ensures var n := |frames| - 1;
            var before := Routed(c, frames[..n]);
            Inv(before) && !before.stopped && Consistent(before)
            && Routed(c, frames) == ReceiveStep(before, frames[n]) == Step(before, Receive(frames[n]))
  {
    InvIsConsistent(Routed(c, frames[..|frames| - 1]));
    hide Inv;
  }

  lemma {:induction false} RequestHears(c: Client, id: int, frames: seq<Frame>)
    requires Inv(c) && !c.stopped && id in c.futures && c.futures[id] == Waiting
    ensures var c' := Routed(c, frames);
            && id in c'.futures
            && c'.futures[id] == if Own(frames, id) == [] then Waiting else Done(Own(frames, id)[0])
  {
    if frames != [] {
      var n := |frames| - 1;
      RequestHears(c, id, frames[..n]);
      RoutedOneMore(c, frames);
      ReceiveReachesItsOwn(Routed(c, frames[..n]), frames[n]);
      hide Inv, Routed, ReceiveStep, Consistent;
    }
  }

  lemma StreamHearsOne(c: Client, id: int, frame: Frame)
    requires Inv(c) && id in c.queues && id in c.streams
    ensures var c' := ReceiveStep(c, frame);
            && id in c'.queues && id in c'.streams
            && c'.queues[id].arrived == c.queues[id].arrived + if frame.id == Some(id) then [frame] else []
  {
    ReceiveReachesItsOwn(c, frame);
    assert ReceiveStep(c, frame).streams == c.streams;
    hide Inv, ReceiveStep, Consistent;
  }

  lemma {:induction false} StreamHears(c: Client, id: int, frames: seq<Frame>)
    requires Inv(c) && !c.stopped && id in c.queues && id in c.streams && c.queues[id].arrived == []
    ensures var c' := Routed(c, frames);
            id in c'.queues && id in c'.streams && c'.queues[id].arrived == Own(frames, id)
  {
    hide Inv, ReceiveStep, Consistent;
    if frames != [] {
      var n := |frames| - 1;
      StreamHears(c, id, frames[..n]);
      RoutedOneMore(c, frames);
      StreamHearsOne(Routed(c, frames[..n]), id, frames[n]);
    }
  }

  /** A call can start at any time, and left alone it is answered by the first frame with its id. */
  lemma RequestIsAnswered(c: Client, frames: seq<Frame>)
    requires Inv(c) && !c.stopped
    ensures Enabled(c, StartRequest) && Inv(Step(c, StartRequest))
    ensures var id := c.requestId + 1;
            var c' := Routed(Step(c, StartRequest), frames);
            && id in c'.futures
            && c'.futures[id] == if Own(frames, id) == [] then Waiting else Done(Own(frames, id)[0])
  {
    InvIsConsistent(c);
    StartRequestKeeps(c);
    hide Inv, Routed;
    RequestHears(Step(c, StartRequest), c.requestId + 1, frames);
  }

  /** So can a stream, and its queue gets every frame with its id, in order. */
  lemma StreamIsFed(c: Client, frames: seq<Frame>)
    requires Inv(c) && !c.stopped
    ensures Enabled(c, StartStream) && Inv(Step(c, StartStream))
    ensures var id := c.requestId + 1;
            var c' := Routed(Step(c, StartStream), frames);
            id in c'.queues && c'.queues[id].arrived == Own(frames, id)
  {
    InvIsConsistent(c);
    StartStreamKeeps(c);
    hide Inv, Routed;
    StreamHears(Step(c, StartStream), c.requestId + 1, frames);
  }

  /** How often a queue's consumer took a frame. */
  function Takes(events: seq<Event>, id: int): nat {
    if events == [] then 0
    else
      var n := |events| - 1;
      Takes(events[..n], id) + if events[n] == Take(id) then 1 else 0
  }

  lemma StepTakes(c: Client, e: Event, id: int)
    requires Inv(c) && Enabled(c, e)
    ensures id in c.queues ==>
              && id in Step(c, e).queues
              && Step(c, e).queues[id].taken == c.queues[id].taken + if e == Take(id) then 1 else 0
    ensures id !in c.queues ==> e != Take(id) && (id in Step(c, e).queues ==> Step(c, e).queues[id].taken == 0)
  {
    NewIdIsFresh(c);
    hide FutureRight, QueueRight;
  }

  ghost predicate Counted(c: Client, id: int, takes: nat) {
    takes == if id in c.queues then c.queues[id].taken else 0
  }

  lemma StepCounts(c: Client, e: Event, id: int, takes: nat)
    requires Inv(c) && Enabled(c, e) && Counted(c, id, takes)
    ensures Counted(Step(c, e), id, takes + if e == Take(id) then 1 else 0)
  {
    hide Inv, Enabled, Step;
    StepTakes(c, e, id);
  }

  lemma {:induction false} RunCounts(states: seq<Client>, events: seq<Event>, i: nat, id: int)
    requires IsRun(states, events) && states[0] == Initial() && i < |states|
    ensures Counted(states[i], id, Takes(events[..i], id))
  {
    hide Inv, Enabled, Step;
    if i > 0 {
      RunCounts(states, events, i - 1, id);
      InitiallyRight();
      RunKeeps(states, events, i - 1);
      assert Enabled(states[i - 1], events[i - 1]) && states[i] == Step(states[i - 1], events[i - 1]);
      assert events[..i][..i - 1] == events[..i - 1];
      hide Counted;
      StepCounts(states[i - 1], events[i - 1], id, Takes(events[..i - 1], id));
    }
  }

  /** A consumer takes its frames one by one, and never more than have come. */
  lemma TakesAreCounted(states: seq<Client>, events: seq<Event>, i: nat, id: int)
    requires IsRun(states, events) && states[0] == Initial() && i < |states|
    ensures id in states[i].queues ==>
              states[i].queues[id].taken == Takes(events[..i], id) <= |states[i].queues[id].arrived|
    ensures id !in states[i].queues ==> Takes(events[..i], id) == 0
  {
    RunCounts(states, events, i, id);
    InitiallyRight();
    RunKeeps(states, events, i);
    hide IsRun, Takes;
    assert id in states[i].queues ==> QueueRight(states[i], id);
  }

  lemma SomeoneWaits(ids: set<int>)
    requires ids != {}
    ensures exists id :: id in ids
  {
    assert (forall id :: id !in ids) ==> ids == {};
  }

  method FailFutures(futures: map<int, Future>, pending: set<int>, reason: Reason) returns (after: map<int, Future>)
    requires pending <= futures.Keys
    ensures after == map id | id in futures :: if id in pending then FailIfWaiting(futures[id], reason) else futures[id]
  {
    after := futures;
    var rest := pending;
    while rest != {}
      invariant rest <= pending
      invariant after == map id | id in futures ::
                  if id in pending - rest then FailIfWaiting(futures[id], reason) else futures[id]
      decreases |rest|
    {
      SomeoneWaits(rest);
      var id :| id in rest;
      rest := rest - {id};
      if after[id] == Waiting {
        after := after[id := Failed(reason)];
      }
    }
  }

  method FailQueues(queues: map<int, Queue>, streams: set<int>, reason: Reason) returns (after: map<int, Queue>)
    requires streams <= queues.Keys
    ensures after == map id | id in queues ::
                       if id in streams then Put(queues[id], ConnectionError(reason)) else queues[id]
  {
    after := queues;
    var rest := streams;
    while rest != {}
      invariant rest <= streams
      invariant after == map id | id in queues ::
                  if id in streams - rest then Put(queues[id], ConnectionError(reason)) else queues[id]
      decreases |rest|
    {
      SomeoneWaits(rest);
      var id :| id in rest;
      rest := rest - {id};
      after := after[id := Put(after[id], ConnectionError(reason))];
    }
  }

  lemma FrameIsOwn(c: Client, id: int)
    requires FutureRight(c, id)
    ensures c.futures[id].Failed? ==> c.stopped
    ensures c.futures[id].Done? ==>
              && InRange(c.windows[id], |c.received|) && c.futures[id].frame.id == Some(id)
              && Mine(c.windows[id], c.received, id) == [c.futures[id].frame]
  {
    if c.futures[id].Done? {
      var w := c.windows[id];
      OwnHaveTheId(c.received[w.since..if w.until.Some? then w.until.value else |c.received|], id);
      assert c.futures[id].frame in Mine(w, c.received, id);
    }
  }

  /** A frame goes to the stream or the waiting future with its id, and to no one else. */
  lemma ReceiveReachesItsOwn(c: Client, frame: Frame)
    requires Inv(c)
    ensures var c' := ReceiveStep(c, frame);
            && c'.futures.Keys == c.futures.Keys && c'.queues.Keys == c.queues.Keys
            && (forall id :: id in c.futures ==>
                   c'.futures[id] == if Some(id) == frame.id && c.futures[id] == Waiting then Done(frame)
                                     else c.futures[id])
            && (forall id :: id in c.queues ==>
                   c'.queues[id] == if Some(id) == frame.id && id in c.streams then Put(c.queues[id], frame)
                                    else c.queues[id])
  {
    if frame.id.Some? && frame.id.value in c.futures {
      assert FutureRight(c, frame.id.value);
      WaitingIsInTable(c, frame.id.value);
    }
    hide FutureRight, QueueRight;
  }

  lemma StartsUnheard(c: Client)
    requires Inv(c)
    ensures var c' := StartRequestStep(c);
            var id := c'.requestId;
            && Inv(c')
            && id !in c.windows && (forall other :: other in c.windows ==> other < id)
            && id in c'.pending && c'.futures == c.futures[id := Waiting] && c'.queues == c.queues
            && id in c'.windows && InRange(c'.windows[id], |c'.received|) && Mine(c'.windows[id], c'.received, id) == []
  {
    StartRequestKeeps(c);
    NewIdIsFresh(c);
    NewWindowIsEmpty(c.requestId + 1, c.received, c.stopped);
    hide Inv, FutureOk, QueueOk;
  }

  /** What cuts a one-shot call's wait short, if anything. */
  datatype Interruption = Uninterrupted | TimedOut | WriteFailed(message: string) | CallerCancelled

  datatype Answer = Result(frame: Frame) | ErrorAnswer(message: string) | Raises

  class VirtioSerialAgentClient {
    var requestId: nat
    var pending: set<int>
    var streams: set<int>
    var futures: map<int, Future>
    var queues: map<int, Queue>
    var stopped: bool
    ghost var received: seq<Frame>
    ghost var windows: map<int, Window>

    ghost function State(): Client
      reads this
    {
      Client(requestId, pending, streams, futures, queues, stopped, received, windows)
    }

    constructor ()
      ensures State() == Initial() && Inv(State())
    {
      requestId, pending, streams, futures, queues, stopped := 0, {}, {}, map[], map[], false;
      received, windows := [], map[];
    }

    /** An id nobody has had, a waiting future in the table, nothing missed and nothing heard yet. */
    method RegisterRequest() returns (id: int)
      requires Inv(State())
      modifies this
      ensures Inv(State()) && State() == StartRequestStep(old(State()))
      ensures id !in old(windows) && forall other :: other in old(windows) ==> other < id
      ensures id in pending && futures == old(futures)[id := Waiting] && queues == old(queues)
      ensures id in windows && InRange(windows[id], |received|) && Mine(windows[id], received, id) == []
    {
      ghost var c := State();
      StartsUnheard(c);
      hide Inv, Mine, InRange;
      requestId := requestId + 1;
      id := requestId;
      pending := pending + {id};
      futures := futures[id := Waiting];
      windows := windows[id := Window(|received|, None)];
      assert State() == StartRequestStep(c);
      hide StartRequestStep;
    }

    method RegisterStream() returns (id: int)
      requires Inv(State())
      modifies this
      ensures Inv(State()) && State() == StartStreamStep(old(State()))
      ensures id !in old(windows) && forall other :: other in old(windows) ==> other < id
      ensures id in streams && queues == old(queues)[id := Queue([], 0)] && futures == old(futures)
    {
      ghost var c := State();
      StartStreamKeeps(c);
      NewIdIsFresh(c);
      hide Inv, Mine, InRange;
      requestId := requestId + 1;
      id := requestId;
      streams := streams + {id};
      queues := queues[id := Queue([], 0)];
      windows := windows[id := Window(|received|, None)];
      assert State() == StartStreamStep(c);
      hide StartStreamStep;
    }

    /**
     One turn of the reader: the frame goes to the stream or the waiting future with its id, and to
     no one else; a settled future is left as it is.
     */
    method Route(frame: Frame)
      requires Inv(State()) && !stopped
      modifies this
      ensures Inv(State()) && !stopped && State() == ReceiveStep(old(State()), frame)
      ensures futures.Keys == old(futures).Keys && queues.Keys == old(queues).Keys
      ensures forall id :: id in futures ==>
                 futures[id] == if Some(id) == frame.id && old(futures)[id] == Waiting then Done(frame)
                                else old(futures)[id]
      ensures forall id :: id in queues ==>
                 queues[id] == if Some(id) == frame.id && id in old(streams) then Put(old(queues)[id], frame)
                               else old(queues)[id]
    {
      ReceiveKeeps(State(), frame);
      ReceiveReachesItsOwn(State(), frame);
      InvIsConsistent(State());
      hide Inv;
      ghost var c := State();
      received := received + [frame];
      if frame.id.Some? {
        var id := frame.id.value;
        if id in streams {
          queues := queues[id := Put(queues[id], frame)];
        } else if id in pending {
          pending := pending - {id};
          if futures[id] == Waiting {
            futures := futures[id := Done(frame)];
            windows := windows[id := Closed(windows[id], |received|)];
          }
        }
      }
      assert State() == ReceiveStep(c, frame);
      hide ReceiveStep;
    }

    /** Wakes the registered callers one by one and empties the tables. */
    method FailPending(reason: Reason)
      requires Consistent(State())
      modifies this
      ensures State() == StopStep(old(State()), reason)
    {
      ghost var after := StopStep(State(), reason);
      futures := FailFutures(futures, pending, reason);
      pending := {};
      queues := FailQueues(queues, streams, reason);
      streams := {};
      stopped := true;
      windows := after.windows;
    }

    /** The reader's whole life: it routes what arrives and fails the rest when the connection ends. */
    method ReadLoop(frames: seq<Frame>, reason: Reason)
      requires Inv(State()) && !stopped
      modifies this
      ensures Inv(State())
      ensures State() == StopStep(Routed(old(State()), frames), reason)
    {
      hide Inv, Consistent, ReceiveStep, StopStep;
      ghost var c := State();
      assert frames[..0] == [];
      for i := 0 to |frames|
        invariant State() == Routed(c, frames[..i])
      {
        assert frames[..i + 1][..i] == frames[..i];
        Route(frames[i]);
      }
      assert frames[..|frames|] == frames;
      StopKeeps(State(), reason);
      InvIsConsistent(State());
      FailPending(reason);
    }

    /** `wait_for` gives up on the future; the call itself comes back to its `finally` later. */
    method CancelWait(id: int)
      requires Inv(State()) && id in futures
      modifies this
      ensures Inv(State()) && State() == CancelFutureStep(old(State()), id)
      ensures pending == old(pending) && streams == old(streams) && queues == old(queues)
      ensures id in futures && futures[id] == if old(futures)[id] == Waiting then Cancelled else old(futures)[id]
      ensures futures.Keys == old(futures).Keys && forall x :: x in futures && x != id ==> futures[x] == old(futures)[x]
    {
      CancelKeeps(State(), id);
      if futures[id] == Waiting {
        futures := futures[id := Cancelled];
        windows := windows[id := Closed(windows[id], |received|)];
      }
    }

    /**
     The end of a one-shot call: its entry is gone and its future settled.  A timeout, a failed
     write or a cancellation may come first although the future is done; a result is always the one
     frame that arrived under the call's id.
     */
    method FinishRequest(id: int, cut: Interruption) returns (answer: Answer)
      requires Inv(State()) && id in futures
      requires cut.Uninterrupted? ==> futures[id].Done? || futures[id].Failed?
      modifies this
      ensures Inv(State()) && State() == LeaveRequestStep(old(State()), id)
      ensures id !in pending && futures[id] != Waiting
      ensures answer.Result? ==> cut.Uninterrupted? && answer.frame.id == Some(id) && !answer.frame.body.Error?
      ensures answer.Result? ==> InRange(windows[id], |received|) && Mine(windows[id], received, id) == [answer.frame]
      ensures cut.TimedOut? || cut.WriteFailed? ==> answer.ErrorAnswer?
      ensures cut.CallerCancelled? ==> answer.Raises?
      ensures cut.Uninterrupted? && old(futures)[id].Failed? ==>
                answer == if old(futures)[id].reason.ConnectionLost?
                          then ErrorAnswer("Connection error: " + old(futures)[id].reason.message) else Raises
      ensures cut.Uninterrupted? && old(futures)[id].Done? ==>
                answer == if old(futures)[id].frame.body.Error? then ErrorAnswer(old(futures)[id].frame.body.message)
                          else Result(old(futures)[id].frame)
    {
      CancelKeeps(State(), id);
      assert FutureRight(State(), id);
      FrameIsOwn(State(), id);
      hide FutureRight, QueueRight;
      match cut {
        case TimedOut => answer := ErrorAnswer("Request timed out");
        case WriteFailed(message) => answer := ErrorAnswer("Connection error: " + message);
        case CallerCancelled => answer := Raises;
        case Uninterrupted =>
          match futures[id]
          case Failed(reason) =>
            answer := if reason.ConnectionLost? then ErrorAnswer("Connection error: " + reason.message) else Raises;
          case Done(frame) => answer := if frame.body.Error? then ErrorAnswer(frame.body.message) else Result(frame);
      }
      pending := pending - {id};
      if futures[id] == Waiting {
        futures := futures[id := Cancelled];
        windows := windows[id := Closed(windows[id], |received|)];
      }
    }

    method FinishStream(id: int)
      requires Inv(State()) && id in queues
      modifies this
      ensures Inv(State()) && State() == LeaveStreamStep(old(State()), id)
      ensures id !in streams && queues == old(queues) && futures == old(futures) && pending == old(pending)
    {
      LeaveStreamKeeps(State(), id);
      streams := streams - {id};
      windows := windows[id := Closed(windows[id], |received|)];
    }
  }
}
