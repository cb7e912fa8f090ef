/**
 The open handles of an SMB session and the operating system's descriptors behind them.

 `open` is what the operating system holds open for this session.  Its answers to one request are
 that request's parameters; closing a descriptor releases it even when an error is reported, and
 closing a number that is not open changes nothing.
 */
module HandleTable {
  import opened Wrappers

  type Path = string

  /** The counter half of the 16-byte file id. */
  type FileId = nat

  datatype HandleInfo = HandleInfo(fd: int, path: Path, isDir: bool, readonly: bool, deleteOnClose: bool)

  type Handles = map<FileId, HandleInfo>

  datatype Status =
    | Success | InvalidHandle | AccessDenied | ObjectNameCollision | ObjectNameNotFound | NoSuchFile | Unsuccessful
    | OtherError(code: nat)

  type Refusal = status: Status | status != Success witness AccessDenied

  /** The answer to `path.exists()`, which may itself fail. */
  datatype Existence = Exists | Missing | Fails

  ghost function Descriptors(handles: Handles): set<int> {
    set id | id in handles && handles[id].fd >= 0 :: handles[id].fd
  }

  ghost predicate Unshared(handles: Handles) {
    forall a, b :: a in handles && b in handles && a != b && handles[a].fd >= 0 ==> handles[a].fd != handles[b].fd
  }

  /** No descriptor is open without a live handle that has it. */
  ghost predicate Covered(handles: Handles, open: set<int>) {
    open <= Descriptors(handles)
  }

  /** The open descriptors are those of the live handles, each with its own. */
  ghost predicate Balanced(handles: Handles, open: set<int>) {
    open == Descriptors(handles) && Unshared(handles)
  }

  predicate WellFormedInfo(info: HandleInfo) {
    info.fd >= -1 && (info.isDir ==> info.fd == -1)
  }

  ghost predicate WellFormed(handles: Handles) {
    forall id :: id in handles ==> WellFormedInfo(handles[id])
  }

  function With(open: set<int>, fd: int): set<int> {
    if fd >= 0 then open + {fd} else open
  }

  /** Giving one handle a descriptor in place of the one it had, which is closed. */
  lemma CoveredExchanged(handles: Handles, open: set<int>, id: FileId, info: HandleInfo)
    requires Covered(handles, open)
    ensures Covered(handles[id := info], With(open - (if id in handles then {handles[id].fd} else {}), info.fd))
  {
    var handles' := handles[id := info];
    forall fd | fd in open && (id in handles ==> fd != handles[id].fd) ensures fd in Descriptors(handles') {
      var other :| other in handles && handles[other].fd == fd;
      assert other in handles' && handles'[other].fd == fd;
    }
    assert id in handles' && handles'[id] == info;
  }

  lemma CoveredRemoved(handles: Handles, open: set<int>, id: FileId)
    requires Covered(handles, open) && id in handles
    ensures Covered(handles - {id}, open - {handles[id].fd})
  {
    var handles' := handles - {id};
    forall fd | fd in open && fd != handles[id].fd ensures fd in Descriptors(handles') {
      var other :| other in handles && handles[other].fd == fd;
      assert other in handles' && handles'[other].fd == fd;
    }
  }

  /** If nobody else has the new descriptor, the books stay balanced. */
  lemma Exchanged(handles: Handles, open: set<int>, id: FileId, info: HandleInfo)
    requires Balanced(handles, open)
    requires info.fd >= 0 ==> info.fd !in open || (id in handles && info.fd == handles[id].fd)
    ensures Balanced(handles[id := info], With(open - (if id in handles then {handles[id].fd} else {}), info.fd))
  {
    CoveredExchanged(handles, open, id, info);
    forall other | other in handles && other != id && handles[other].fd >= 0
      ensures handles[other].fd in open && (id in handles ==> handles[other].fd != handles[id].fd)
    {
    }
  }

  lemma Removed(handles: Handles, open: set<int>, id: FileId)
    requires Balanced(handles, open) && id in handles
    ensures Balanced(handles - {id}, open - {handles[id].fd})
  {
    CoveredRemoved(handles, open, id);
  }

  /** A descriptor closed while its handle keeps the number: the books no longer balance. */
  lemma StaleDescriptor(handles: Handles, open: set<int>, id: FileId)
    requires Balanced(handles, open) && id in handles && handles[id].fd >= 0
    ensures !Balanced(handles, open - {handles[id].fd})
  {
    assert handles[id].fd in Descriptors(handles);
  }

  // ---------------------------------------------------------------------------------------------
  // Renaming
  // ---------------------------------------------------------------------------------------------

  /**
   The system's answers in the order of the questions: does the new path exist, does closing
   report an error, does renaming fail, what does opening the new path give, does the old path
   still exist, what does opening the old path give.
   */
  datatype Answers = Answers(newExists: Existence, closeFails: bool, renameFails: bool, newFd: Option<nat>,
                             oldExists: Existence, oldFd: Option<nat>)

  predicate Proceeds(replaceIfExists: bool, answers: Answers) {
    answers.newExists == Missing || (answers.newExists == Exists && replaceIfExists)
  }

  /** The rename gets as far as closing the handle's descriptor, and that reports an error. */
  predicate ClosingFails(info: HandleInfo, replaceIfExists: bool, answers: Answers) {
    Proceeds(replaceIfExists, answers) && info.fd >= 0 && answers.closeFails
  }

  /** The handle keeps the descriptor it has, closed or not. */
  predicate Untouched(info: HandleInfo, replaceIfExists: bool, answers: Answers) {
    info.fd >= 0 && (!Proceeds(replaceIfExists, answers) || answers.closeFails)
  }

  /** The system has renamed the file, whatever comes after. */
  predicate RenameDone(info: HandleInfo, replaceIfExists: bool, answers: Answers) {
    Proceeds(replaceIfExists, answers) && !ClosingFails(info, replaceIfExists, answers) && !answers.renameFails
  }

  /** What a rename answers, and what becomes of the handle. */
  ghost predicate RenameOutcome(before: HandleInfo, newPath: Path, replaceIfExists: bool, answers: Answers,
                                status: Status, after: HandleInfo)
  {
    var done := RenameDone(before, replaceIfExists, answers);
    var untouched := Untouched(before, replaceIfExists, answers);
    && (status == ObjectNameCollision <==> answers.newExists == Exists && !replaceIfExists)
    && (status == Success <==> done && (before.isDir || answers.newFd.Some?))
    && status in {Success, AccessDenied, ObjectNameCollision, Unsuccessful}
    && (status == Unsuccessful <==>
          && status !in {Success, ObjectNameCollision}
          && !untouched && !before.isDir && answers.oldExists == Fails)
    && after == before.(path := after.path, fd := after.fd)
    && after.path == (if done then newPath else before.path)
    && after.fd == if status == ObjectNameCollision || untouched then before.fd
                   else if before.isDir then -1
                   else if status == Success then answers.newFd.value
                   else if answers.oldExists == Exists && answers.oldFd.Some? then answers.oldFd.value
                   else -1
  }

  /**
   A rename succeeds when nothing stands at the new path or it may be replaced, and no call of the
   system fails; the handle then has the new path and a descriptor of it.  Once the file has the new
   path the handle has it too, whatever the answer, and no refusal of an existing target touches the
   handle.
   */
  lemma RenamedExactly(before: HandleInfo, newPath: Path, replaceIfExists: bool, answers: Answers, status: Status,
                       after: HandleInfo)
    requires WellFormedInfo(before) && RenameOutcome(before, newPath, replaceIfExists, answers, status, after)
    ensures status == Success <==>
            && (answers.newExists == Missing || (answers.newExists == Exists && replaceIfExists))
            && (before.fd >= 0 ==> !answers.closeFails)
            && !answers.renameFails && (before.isDir || answers.newFd.Some?)
    ensures status == Success ==>
              after == before.(path := newPath, fd := if before.isDir then -1 else answers.newFd.value)
    ensures status == ObjectNameCollision <==> answers.newExists == Exists && !replaceIfExists
    ensures status == ObjectNameCollision ==> after == before
    ensures status == AccessDenied || status == Unsuccessful ==>
              after.path == before.path || (after.path == newPath && !before.isDir && answers.newFd.None?)
    ensures status == Unsuccessful ==> answers.oldExists == Fails && after.fd == -1
    ensures status == AccessDenied && after.fd == -1 && !before.isDir ==>
              answers.oldExists == Missing || answers.oldFd.None?
  {
  }

  /** What is open after a rename: the old descriptor no longer if it was closed, a new one if one was opened. */
  function OpenAfter(open: set<int>, before: HandleInfo, after: HandleInfo, replaceIfExists: bool, answers: Answers)
    : set<int>
  {
    var rest := if Proceeds(replaceIfExists, answers) then open - {before.fd} else open;
    if Untouched(before, replaceIfExists, answers) then rest else With(rest, after.fd)
  }

  /** What opening a file gives: a descriptor, or the kind of the system's error. */
  datatype Opening = Opened(fd: nat) | Forbidden | Vanished | Unopened

  /** The system gives out no descriptor that is open, but the handle's own is closed by then. */
  predicate Unused(fd: Option<nat>, open: set<int>, info: HandleInfo) {
    fd.Some? && fd.value in open ==> fd.value == info.fd
  }

  // ---------------------------------------------------------------------------------------------
  // Sessions
  // ---------------------------------------------------------------------------------------------

  /** `issued` is every file id given out so far. */
  datatype Session = Session(handles: Handles, counter: nat, open: set<int>, issued: set<FileId>)

  /** A CREATE that succeeds, a CLOSE, a rename with what came of it, and the end of the connection. */
  datatype Event =
    | Opens(info: HandleInfo)
    | Closes(id: FileId)
    | Renames(id: FileId, newPath: Path, replaceIfExists: bool, answers: Answers, status: Status, after: HandleInfo)
    | Ends

  function NewSession(): Session {
    Session(map[], 0, {}, {})
  }

  ghost predicate Numbered(s: Session) {
    s.handles.Keys <= s.issued && forall id :: id in s.issued ==> 1 <= id <= s.counter
  }

  /** What every request keeps, whatever the system answers. */
  ghost predicate Sound(s: Session) {
    Covered(s.handles, s.open) && WellFormed(s.handles) && Numbered(s)
  }

  ghost predicate InBalance(s: Session) {
    Balanced(s.handles, s.open)
  }

  ghost predicate Enabled(s: Session, e: Event) {
    match e
    case Opens(info) => WellFormedInfo(info) && info.fd !in s.open
    case Closes(_) => true
    case Renames(id, newPath, replaceIfExists, answers, status, after) =>
      && id in s.handles && RenameOutcome(s.handles[id], newPath, replaceIfExists, answers, status, after)
      && Unused(answers.newFd, s.open, s.handles[id]) && Unused(answers.oldFd, s.open, s.handles[id])
    case Ends => true
  }

  ghost function Step(s: Session, e: Event): Session
    requires Enabled(s, e)
  {
    match e
    case Opens(info) =>
      var id := s.counter + 1;
      Session(s.handles[id := info], id, With(s.open, info.fd), s.issued + {id})
    case Closes(id) =>
      if id in s.handles then s.(handles := s.handles - {id}, open := s.open - {s.handles[id].fd}) else s
    case Renames(id, _, replaceIfExists, answers, _, after) =>
      s.(handles := s.handles[id := after],
         open := OpenAfter(s.open, s.handles[id], after, replaceIfExists, answers))
    case Ends => s.(handles := map[], open := s.open - Descriptors(s.handles))
  }

  /** A rename closes the handle's descriptor and is told that this failed. */
  ghost predicate CloseFails(s: Session, e: Event) {
    e.Renames? && e.id in s.handles && ClosingFails(s.handles[e.id], e.replaceIfExists, e.answers)
  }

  lemma RenameKeepsCover(s: Session, e: Event)
    requires Sound(s) && Enabled(s, e) && e.Renames?
    ensures Covered(Step(s, e).handles, Step(s, e).open) && WellFormedInfo(e.after)
  {
    assert WellFormedInfo(s.handles[e.id]) && -1 !in s.open;
    CoveredExchanged(s.handles, s.open, e.id, e.after);
    CoveredExchanged(s.handles, s.open, e.id, s.handles[e.id]);
  }

  /** Every request leaves no descriptor open that no handle has. */
  lemma StepKeepsSound(s: Session, e: Event)
    requires Sound(s) && Enabled(s, e)
    ensures Sound(Step(s, e))
  {
    match e
    case Opens(info) => CoveredExchanged(s.handles, s.open, s.counter + 1, info);
    case Closes(id) =>
      if id in s.handles {
        CoveredRemoved(s.handles, s.open, id);
      }
    case Renames(_, _, _, _, _, _) => RenameKeepsCover(s, e);
    case Ends =>
  }

  lemma RenameKeepsBalance(s: Session, e: Event)
    requires Sound(s) && InBalance(s) && Enabled(s, e) && e.Renames?
    ensures InBalance(Step(s, e)) <==> !CloseFails(s, e)
  {
    var before := s.handles[e.id];
    assert WellFormedInfo(before) && -1 !in s.open;
    assert before.fd >= 0 ==> before.fd in s.open;
    hide Balanced;
    if CloseFails(s, e) {
      assert s.handles[e.id := e.after] == s.handles;
      StaleDescriptor(s.handles, s.open, e.id);
    } else {
      Exchanged(s.handles, s.open, e.id, e.after);
      assert Step(s, e).open == With(s.open - {before.fd}, e.after.fd);
    }
  }

  /** From balanced books only one thing leads astray: a rename whose close is said to fail. */
  lemma StepKeepsBalance(s: Session, e: Event)
    requires Sound(s) && InBalance(s) && Enabled(s, e)
    ensures InBalance(Step(s, e)) <==> !CloseFails(s, e)
  {
    match e
    case Opens(info) => Exchanged(s.handles, s.open, s.counter + 1, info);
    case Closes(id) =>
      if id in s.handles {
        Removed(s.handles, s.open, id);
      }
    case Renames(_, _, _, _, _, _) => RenameKeepsBalance(s, e);
    case Ends =>
  }

  ghost predicate IsRun(states: seq<Session>, events: seq<Event>) {
    && |states| == |events| + 1 && states[0] == NewSession()
    && forall i :: 0 <= i < |events| ==> Enabled(states[i], events[i]) && states[i + 1] == Step(states[i], events[i])
  }

  lemma NewSessionIsSound()
    ensures Sound(NewSession()) && InBalance(NewSession())
  {
  }

  lemma {:induction false} RunsStaySound(states: seq<Session>, events: seq<Event>, i: nat)
    requires IsRun(states, events) && i < |states|
    ensures Sound(states[i])
  {
    hide Sound, Enabled, Step;
    if i == 0 {
      NewSessionIsSound();
    } else {
      RunsStaySound(states, events, i - 1);
      assert Enabled(states[i - 1], events[i - 1]);
      StepKeepsSound(states[i - 1], events[i - 1]);
    }
  }

  /** Whatever came before, failed closes included, the end of the session leaves nothing open. */
  lemma NothingIsLeaked(states: seq<Session>, events: seq<Event>, i: nat)
    requires IsRun(states, events) && i < |events|
    ensures states[i].open <= Descriptors(states[i].handles)
    ensures events[i] == Ends ==> states[i + 1].open == {} && states[i + 1].handles == map[]
  {
    RunsStaySound(states, events, i);
    assert states[i + 1] == Step(states[i], events[i]);
  }

  /** The books balance after each of the first requests if and only if no rename among them had its close fail. */
  lemma {:induction false} BalancedExactlyUntilACloseFails(states: seq<Session>, events: seq<Event>, n: nat)
    requires IsRun(states, events) && n <= |events|
    ensures (forall i :: 0 <= i <= n ==> InBalance(states[i]))
            <==> (forall i :: 0 <= i < n ==> !CloseFails(states[i], events[i]))
  {
    hide Sound, Enabled, Step, InBalance, CloseFails;
    if n == 0 {
      NewSessionIsSound();
    } else {
      BalancedExactlyUntilACloseFails(states, events, n - 1);
      RunsStaySound(states, events, n - 1);
      assert Enabled(states[n - 1], events[n - 1]) && states[n] == Step(states[n - 1], events[n - 1]);
      if InBalance(states[n - 1]) {
        StepKeepsBalance(states[n - 1], events[n - 1]);
      }
      assert (forall i :: 0 <= i <= n ==> InBalance(states[i]))
        <==> (forall i :: 0 <= i <= n - 1 ==> InBalance(states[i])) && InBalance(states[n]);
    }
  }

  lemma StepIssues(s: Session, e: Event)
    requires Sound(s) && Enabled(s, e)
    ensures s.issued <= Step(s, e).issued && s.counter <= Step(s, e).counter
    ensures forall id :: id in Step(s, e).handles && id in s.issued ==> id in s.handles
  {
  }

  /** A file id once issued is not the next one ever after, and once its handle is gone it stays gone. */
  lemma {:induction false} IdsAreNeverReused(states: seq<Session>, events: seq<Event>, i: nat, j: nat)
    requires IsRun(states, events) && i <= j < |states|
    ensures states[i].issued <= states[j].issued && states[j].counter + 1 !in states[i].issued
    ensures forall id :: id in states[j].handles && id in states[i].issued ==> id in states[i].handles
  {
    RunsStaySound(states, events, j);
    hide Enabled, Step;
    if i < j {
      IdsAreNeverReused(states, events, i, j - 1);
      RunsStaySound(states, events, j - 1);
      assert Enabled(states[j - 1], events[j - 1]) && states[j] == Step(states[j - 1], events[j - 1]);
      StepIssues(states[j - 1], events[j - 1]);
    }
  }

  /**
   A rename whose close is said to fail, and what can come of it: the next file gets the number
   that the first handle kept, and closing that handle closes the next file, whose handle lives on.
   */
  lemma FailedCloseTakesAnotherFile()
    ensures var first, next := HandleInfo(5, "a", false, false, false), HandleInfo(5, "c", false, false, false);
            var answers := Answers(Missing, true, false, None, Exists, None);
            var renames := Renames(1, "b", false, answers, AccessDenied, first);
            var s := Session(map[1 := first], 1, {5}, {1});
            && Enabled(NewSession(), Opens(first)) && Step(NewSession(), Opens(first)) == s
            && Enabled(s, renames) && CloseFails(s, renames)
            && var stale := Step(s, renames);
            && stale.handles == s.handles && stale.open == {} && InBalance(s) && !InBalance(stale)
            && Enabled(stale, Opens(next))
            && var closed := Step(Step(stale, Opens(next)), Closes(1));
            && closed.handles == map[2 := next] && closed.open == {}
  {
  }

  class HandleManager {
    var handles: Handles
    var counter: nat
    var open: set<int>
    /** Every file id given out so far. */
    ghost var issued: set<FileId>

    ghost function State(): Session
      reads this
    {
      Session(handles, counter, open, issued)
    }

    ghost predicate Valid()
      reads this
    {
      Sound(State())
    }

    constructor ()
      ensures Valid() && State() == NewSession()
    {
      handles, counter, open, issued := map[], 0, {}, {};
    }

    method Allocate(info: HandleInfo) returns (id: FileId)
      requires Numbered(State())
      modifies `handles, `counter, `issued
      ensures Numbered(State())
      ensures id !in old(issued) && id !in old(handles) && id == counter == old(counter) + 1
      ensures handles == old(handles)[id := info] && issued == old(issued) + {id}
    {
      counter := counter + 1;
      id := counter;
      handles := handles[id := info];
      issued := issued + {id};
    }

    /**
     CREATE.  `refusal` is the outcome of everything before the descriptor is opened, `opening` what
     the system gives: a descriptor is none of those open.
     */
    method Create(refusal: Option<Refusal>, path: Path, isDir: bool, readonly: bool, deleteOnClose: bool,
                  opening: Opening)
      returns (status: Status, id: FileId)
      requires Valid() && (opening.Opened? ==> opening.fd !in open)
      modifies this
      ensures Valid() && (old(InBalance(State())) ==> InBalance(State()))
      ensures status == Success <==> refusal.None? && (isDir || opening.Opened?)
      ensures refusal.Some? ==> status == refusal.value
      ensures refusal.None? && !isDir ==>
                && (status == AccessDenied <==> opening == Forbidden)
                && (status == ObjectNameNotFound <==> opening == Vanished)
                && (status == NoSuchFile <==> opening == Unopened)
      ensures status != Success ==> State() == old(State())
      ensures status == Success ==> id !in old(issued)
      ensures status == Success ==>
                var info := HandleInfo(if isDir then -1 else opening.fd, path, isDir, readonly, deleteOnClose);
                && handles == old(handles)[id := info]
                && Enabled(old(State()), Opens(info)) && State() == Step(old(State()), Opens(info))
    {
      id := 0;
      if refusal.Some? {
        return refusal.value, id;
      }
      var fd: int := -1;
      if !isDir {
        match opening {
          case Forbidden => return AccessDenied, id;
          case Vanished => return ObjectNameNotFound, id;
          case Unopened => return NoSuchFile, id;
          case Opened(newFd) => fd := newFd;
        }
      }
      var info := HandleInfo(fd, path, isDir, readonly, deleteOnClose);
      assert -1 !in open;
      ghost var before := State();
      StepKeepsSound(before, Opens(info));
      if fd >= 0 {
        open := open + {fd};
      }
      id := Allocate(info);
      status := Success;
      assert State() == Step(before, Opens(info));
      if InBalance(before) {
        StepKeepsBalance(before, Opens(info));
      }
    }

    /** CLOSE; an error of the system's close is ignored. */
    method Close(id: FileId) returns (status: Status)
      requires Valid()
      modifies this
      ensures Valid() && (old(InBalance(State())) ==> InBalance(State()))
      ensures status == if id in old(handles) then Success else InvalidHandle
      ensures handles == old(handles) - {id} && issued == old(issued) && counter == old(counter)
      ensures open == if id in old(handles) then old(open) - {old(handles)[id].fd} else old(open)
      ensures State() == Step(old(State()), Closes(id))
    {
      if id !in handles {
        assert handles - {id} == handles;
        return InvalidHandle;
      }
      ghost var before := State();
      StepKeepsSound(before, Closes(id));
      if InBalance(before) {
        StepKeepsBalance(before, Closes(id));
      }
      var info := handles[id];
      assert WellFormedInfo(info) && -1 !in open;
      handles := handles - {id};
      if info.fd >= 0 {
        open := open - {info.fd};
      }
      assert State() == Step(before, Closes(id));
      return Success;
    }

    /** At the end of the session nothing stays open, whatever numbers the handles keep. */
    method CloseAll()
      requires Valid()
      modifies this
      ensures Valid() && handles == map[] && open == {} && issued == old(issued)
      ensures State() == Step(old(State()), Ends)
    {
      var rest := handles.Keys;
      while rest != {}
        invariant rest <= handles.Keys && handles == old(handles) && issued == old(issued) && counter == old(counter)
        invariant open <= (set id | id in rest && handles[id].fd >= 0 :: handles[id].fd)
        decreases |rest|
      {
        var id :| id in rest;
        rest := rest - {id};
        if handles[id].fd >= 0 {
          open := open - {handles[id].fd};
        }
      }
      handles := map[];
    }

    /**
     The rename branch of SET_INFO, after the request has been parsed and the new path resolved.
     Balanced books stay so after every outcome but one: closing was reached and reported an error.
     */
    method Rename(id: FileId, newPath: Path, replaceIfExists: bool, answers: Answers) returns (status: Status)
      requires Valid()
      requires id in handles ==> Unused(answers.newFd, open, handles[id]) && Unused(answers.oldFd, open, handles[id])
      modifies `handles, `open
      ensures Valid()
      ensures status == InvalidHandle <==> id !in old(handles)
      ensures id !in old(handles) ==> State() == old(State())
      ensures id in old(handles) ==>
                && id in handles
                && RenameOutcome(old(handles)[id], newPath, replaceIfExists, answers, status, handles[id])
                && var event := Renames(id, newPath, replaceIfExists, answers, status, handles[id]);
                && Enabled(old(State()), event) && State() == Step(old(State()), event)
      ensures old(InBalance(State())) ==>
                (InBalance(State())
                 <==> !(id in old(handles) && ClosingFails(old(handles)[id], replaceIfExists, answers)))
    {
      if id !in handles {
        return InvalidHandle;
      }
      var info := handles[id];
      ghost var before := State();
      assert WellFormedInfo(info) && -1 !in open;
      var answer, after := RenameHandle(info, newPath, replaceIfExists, answers);
      status := answer;
      hide RenameOutcome, Descriptors, Unshared;
      handles := handles[id := after];
      ghost var event := Renames(id, newPath, replaceIfExists, answers, status, after);
      assert State() == Step(before, event);
      StepKeepsSound(before, event);
      if InBalance(before) {
        StepKeepsBalance(before, event);
      }
    }

    /** The steps on the handle itself; `failed` stands for the source's jump to `except OSError`. */
    method RenameHandle(before: HandleInfo, newPath: Path, replaceIfExists: bool, answers: Answers)
      returns (status: Status, info: HandleInfo)
      requires WellFormedInfo(before) && -1 !in open
      modifies `open
      ensures RenameOutcome(before, newPath, replaceIfExists, answers, status, info)
      ensures open == OpenAfter(old(open), before, info, replaceIfExists, answers)
    {
      info := before;
      if answers.newExists == Exists && !replaceIfExists {
        return ObjectNameCollision, info;
      }
      var failed, reopenPath := answers.newExists == Fails, false;
      if !failed && info.fd >= 0 {
        open := open - {info.fd};
        if answers.closeFails {
          failed := true;
        } else {
          info := info.(fd := -1);
        }
      }
      if !failed {
        if answers.renameFails {
          failed := true;
        } else {
          info := info.(path := newPath);
          if !info.isDir {
            reopenPath := true;
            if answers.newFd.Some? {
              info := info.(fd := answers.newFd.value);
              open := open + {info.fd};
            } else {
              failed := true;
            }
          }
        }
      }
      if failed {
        if reopenPath {
          info := info.(fd := -1);
        }
        if info.fd == -1 && !info.isDir {
          // This question stands in the handler itself, where no one catches its failure.
          if answers.oldExists == Fails {
            return Unsuccessful, info;
          }
          if answers.oldExists == Exists && answers.oldFd.Some? {
            info := info.(fd := answers.oldFd.value);
            open := open + {info.fd};
          }
        }
        return AccessDenied, info;
      }
      return Success, info;
    }
  }
}
