# Quicksand: a verified model

Quicksand runs sandboxes as QEMU virtual machines: a host library talks to an agent in the guest,
shares directories over an SMB server of its own, and saves and restores disks as chains of qcow2
overlays.  This project models the parts of it whose behaviour spans many steps, and proves what
those parts promise for every input, every schedule and every run.

- **Streaming stdin.**  `StdinRegistry` is the guest's registry of running commands as a state
  machine over its atomic steps: the lock section, the load and compare-and-swap of the exclusive
  flag shared with legacy commands, each stage of dropping a registration, and cancellation.
  `StdinHistory` traces what its tasks are told back to the states they looked at.
  `StdinInput` is one command's input: concurrent submissions, the one-slot queue, the writer and
  all its ends.  `StdinFeeder` adds the host's stop-and-wait feeder and composes the two sides.
  `StdinRun` is one execution's select loop and the events its receiver sees.
- **Output decoding.**  `Utf8Decoder` is the incremental lossy decoder, measured against a reference
  relation written from section 3 of RFC 3629 and section 3.9 of the Unicode Standard; `Utf16` is the
  encoding of the names the SMB server lists.
- **The serial line.**  `Framing` is length-prefixed frames over partial and blocking reads and
  writes; `ReplyRouting` is the host client that routes replies and streams by id.
- **The SMB server.**  `DirectoryPaging`, `HandleTable`, `SmbCompound` and `SmbServer` are directory
  enumeration with its cursor, the handle table with the descriptors behind it, compound messages,
  and the frame loop with related operations ([MS-SMB2] sections 2.2.1.2, 3.3.5.2.7 and 3.3.5.18;
  [MS-FSCC] section 2.4).
- **Disks.**  `OverlayChain` is the backing links and their repair, `SaveOrder` what a stack of
  layers denotes and what numbered names and sorted loading do to it, `SaveLoad` the running session
  with checkpoints, reverts, hot saves and the way back from a save to a booted sandbox.
- **Accounts.**  `AccountFiles`, over `Text`, is the guest's editing of passwd, group and shadow.

`Wrappers`, `Sequences` and `Bytes` hold what several of them use.

Code that changes state step by step is a class or a method with a loop, proved against a function
of its inputs or old state; what the source promises is proved about that function or kept as the
class's invariant.  Concurrency is modelled as sequences of atomic steps, and the results hold for
all of them.  Answers of the operating system, QEMU and `qemu-img` are parameters.

Six results say exactly where the code stops meeting its promise: a save keeps its disk up to ten
layers (`SaveOrder.LoadPreservesExactlyUpToTen`); a session booted from a save leaves that save's
layers behind in its next save, and keeps its disk only where they do not show
(`SaveLoad.ResaveKeepsDiskExactlyWhereNothingLostShows`); a rename whose close reports an error
leaves a handle with a closed descriptor, though it leaks none
(`HandleTable.BalancedExactlyUntilACloseFails`, `HandleTable.NothingIsLeaked`); a directory query of
an unsupported class uses up the listing, and one that comes to a name that is not valid Unicode
loses what it has packed and blocks those after it
(`DirectoryPaging.LosesNamesExactlyWhenUnsupported`,
`DirectoryPaging.LosesPackedNamesExactlyWhenRaising`, `DirectoryPaging.RaisingEntryBlocks`); a
created user may not be found (`AccountFiles.CreatedUserIsFound`); and deleting a user just created
may not restore the file (`AccountFiles.DeleteAfterCreateRestores`).  Each has a lemma at a concrete
input.  Where documentation and code differ the model follows
the code: `checkpoint` is documented as deleted by every save, but a save with live checkpoints is
refused unless deletion is asked for.

`dafny verify dfyconfig.toml` checks the whole project within the default limits.

## Model

| member | source | states |
|---|---|---|
| `StdinRegistry.ExclusiveSafety` | packages/dev/quicksand-image-tools/quicksand_image_tools/quicksand-guest-agent/src/stdin_execution.rs:312-335 | In every state reachable by any interleaving of stdin starts, legacy commands, executions and cancellations, the busy flag is up exactly when some admitted exclusive command has not yet released it, and there is at most one such command. |
| `StdinRegistry.RefusalLeavesNothing` | packages/dev/quicksand-image-tools/quicksand_image_tools/quicksand-guest-agent/src/stdin_execution.rs:203-227 | A refused start or legacy command holds neither the registry's lock nor the flag: if the flag is up, someone else holds it. |
| `StdinHistory.HeldFlagTurnsAway` | packages/dev/quicksand-image-tools/quicksand_image_tools/quicksand-guest-agent/src/stdin_execution.rs:312-327 | In every schedule, whoever looks at the flag while someone holds it, exclusive or not, start or legacy command, is turned away for good. |
| `StdinHistory.LetInLooked` | packages/dev/quicksand-image-tools/quicksand_image_tools/quicksand-guest-agent/src/stdin_execution.rs:312-327 | In every schedule, whoever registers, is registered, or runs as a legacy command looked at the flag when no one held it. |
| `StdinHistory.RefusalHasReason` | packages/dev/quicksand-image-tools/quicksand_image_tools/quicksand-guest-agent/src/stdin_execution.rs:213-216 | In every schedule a task is refused as busy only if someone held the flag when it looked, and as a conflict only if its id was registered then. |
| `StdinHistory.ExecutionsWereStarted` | packages/dev/quicksand-image-tools/quicksand_image_tools/quicksand-guest-agent/src/stdin_execution.rs:232-240 | Every execution was registered by a start that was let in. |
| `StdinHistory.RunsAsAsked` | packages/dev/quicksand-image-tools/quicksand_image_tools/quicksand-guest-agent/src/stdin_execution.rs:188-240 | Every start and every legacy command keeps through all its steps the id and the exclusiveness it was begun with, and so does the execution it registers. |
| `StdinRegistry.StartAlone` | packages/dev/quicksand-image-tools/quicksand_image_tools/quicksand-guest-agent/src/stdin_execution.rs:203-240 | A start that nothing comes between is refused for a registered id or a raised flag; otherwise its execution is registered as asked for and the flag is up exactly if it is exclusive. |
| `StdinRegistry.LegacyAlone` | packages/dev/quicksand-image-tools/quicksand_image_tools/quicksand-guest-agent/src/main.rs:1050-1082 | A legacy command that nothing comes between is refused for a raised flag, otherwise runs with the flag its own if it is exclusive, and leaves the flag down. |
| `StdinRegistry.CleanupPrecedesExitAndCancel` | packages/dev/quicksand-image-tools/quicksand_image_tools/quicksand-guest-agent/src/stdin_execution.rs:272-292 | By the time an execution's Exit is sent, and by the time any `cancel` that found it has returned, its entry is out of the registry, its claim is released and its stdin is closed. |
| `StdinRegistry.CleanForever` | packages/dev/quicksand-image-tools/quicksand_image_tools/quicksand-guest-agent/src/stdin_execution.rs:345-363 | What cleanup has established for an execution no later step of any schedule undoes. |
| `StdinRegistry.OnlyOwnEntryRemoved` | packages/dev/quicksand-image-tools/quicksand_image_tools/quicksand-guest-agent/src/stdin_execution.rs:345-363 | An entry disappears from the registry only by its own registration's drop; no step removes or replaces another execution's entry. |
| `StdinRegistry.AtMostOneCancelReturnsTrue` | packages/dev/quicksand-image-tools/quicksand_image_tools/quicksand-guest-agent/src/stdin_execution.rs:272-292 | Of all `cancel` calls on one execution at most one returns true. |
| `StdinHistory.CancelReturnsTrueIfFirst` | packages/dev/quicksand-image-tools/quicksand_image_tools/quicksand-guest-agent/src/stdin_execution.rs:272-292 | In every schedule a `cancel` that found its execution returns true only if it found it not done and then flagged it first, and false only if it found it done or someone else had flagged it before. |
| `StdinHistory.UnknownIdReturnsFalse` | packages/dev/quicksand-image-tools/quicksand_image_tools/quicksand-guest-agent/src/stdin_execution.rs:272-282 | A `cancel` answers without an execution only if the id was not registered, and then with false. |
| `StdinRegistry.CancelAlone` | packages/dev/quicksand-image-tools/quicksand_image_tools/quicksand-guest-agent/src/stdin_execution.rs:272-292 | A `cancel` of a registered execution that nobody has flagged flags it and waits as the first. |
| `StdinRegistry.WaitEnds` | packages/dev/quicksand-image-tools/quicksand_image_tools/quicksand-guest-agent/src/stdin_execution.rs:288-291 | Its wait ends once cleanup is done, with true exactly if it was the first. |
| `StdinHistory.CancelledBeforeSpawnNeverRuns` | packages/dev/quicksand-image-tools/quicksand_image_tools/quicksand-guest-agent/src/stdin_execution.rs:430-437 | An execution cancelled before its process was started never starts one, under any schedule. |
| `StdinRegistry.IdsAreNotShared` | packages/dev/quicksand-image-tools/quicksand_image_tools/quicksand-guest-agent/src/stdin_execution.rs:203-240 | Two executions that are both still registered have different stdin ids. |
| `StdinRegistry.RunKeepsInv` | packages/dev/quicksand-image-tools/quicksand_image_tools/quicksand-guest-agent/src/stdin_execution.rs:188-363 | The invariant behind these results (flag owner, lock owner, entries, execution phases, cancellation winners) is kept by every schedule. |
| `StdinRegistry.StartKeepsFlag` | packages/dev/quicksand-image-tools/quicksand_image_tools/quicksand-guest-agent/src/stdin_execution.rs:203-240 | Each step of a start, between the id check, the flag's load, the compare-and-swap and the insertion, keeps the flag owned by exactly one holder. |
| `StdinRegistry.LegacyKeepsFlag` | packages/dev/quicksand-image-tools/quicksand_image_tools/quicksand-guest-agent/src/main.rs:1050-1082 | So does each step of a legacy command, which shares only the flag. |
| `StdinRegistry.CleanupKeepsFlag` | packages/dev/quicksand-image-tools/quicksand_image_tools/quicksand-guest-agent/src/stdin_execution.rs:331-363 | So does each stage of dropping a registration. |
| `StdinRegistry.CleanupNext` | packages/dev/quicksand-image-tools/quicksand_image_tools/quicksand-guest-agent/src/stdin_execution.rs:345-363 | The drop's stages come one at a time in the fixed order: close input, leave the registry, give up the claim, report done; each changes exactly its own part. |
| `StdinRegistry.LifeAlone` | packages/dev/quicksand-image-tools/quicksand_image_tools/quicksand-guest-agent/src/stdin_execution.rs:435-470 | An execution that is neither cancelled nor disturbed runs with its stdin open, closes its input and stops; if its process cannot be started it goes straight to cleanup. |
| `StdinRegistry.CleanupAlone` | packages/dev/quicksand-image-tools/quicksand_image_tools/quicksand-guest-agent/src/stdin_execution.rs:345-363 | The whole drop, undisturbed: entry and claim are gone and the execution is done. |
| `StdinInput.ClosingIsPermanent` | packages/dev/quicksand-image-tools/quicksand_image_tools/quicksand-guest-agent/src/stdin_execution.rs:242-270 | Once any submission of an execution has resolved closed or with an I/O error, no submission that starts afterwards resolves `closed: false`, in any continuation. |
| `StdinInput.CancellingIsPermanent` | packages/dev/quicksand-image-tools/quicksand_image_tools/quicksand-guest-agent/src/stdin_execution.rs:242-270 | So is cancelling: in any reachable state, no submission that starts after a cancel is answered `closed: false`, in any continuation. |
| `StdinInput.AnswersAreFinal` | packages/dev/quicksand-image-tools/quicksand_image_tools/quicksand-guest-agent/src/stdin_execution.rs:162-173 | A submission that has resolved keeps its answer through every later step. |
| `StdinInput.OutstandingIsBounded` | packages/dev/quicksand-image-tools/quicksand_image_tools/quicksand-guest-agent/src/stdin_execution.rs:242-270 | Every unanswered accepted submission is the one being written or the one queued, so there are at most two. |
| `StdinInput.AcknowledgedMeansWritten` | packages/dev/quicksand-image-tools/quicksand_image_tools/quicksand-guest-agent/src/stdin_execution.rs:558-589 | The pipe has received exactly the payloads acknowledged `closed: false`, in full, once each, in order of completion, plus the part of the write in progress. |
| `StdinInput.AnswerExactly` | packages/dev/quicksand-image-tools/quicksand_image_tools/quicksand-guest-agent/src/stdin_execution.rs:558-589 | Which operation in which state gives a submission which answer, both ways: a broken pipe answers closed, another write error answers an error, a whole write answers open, a full queue answers conflict. |
| `StdinInput.AnswersHaveReasons` | packages/dev/quicksand-image-tools/quicksand_image_tools/quicksand-guest-agent/src/stdin_execution.rs:242-270 | In every run every answer was given for such a reason. |
| `StdinInput.NoErrorWithoutFailedWrite` | packages/dev/quicksand-image-tools/quicksand_image_tools/quicksand-guest-agent/src/stdin_execution.rs:576-586 | In a run without a write that fails other than by a broken pipe no submission is answered with an error. |
| `StdinInput.RunKeepsInv` | packages/dev/quicksand-image-tools/quicksand_image_tools/quicksand-guest-agent/src/stdin_execution.rs:242-589 | The invariants behind these results hold after every schedule of submissions, writes, failures, child exit and drops in any order. |
| `StdinFeeder.SizeAcceptedExactly` | packages/dev/quicksand-image-tools/quicksand_image_tools/quicksand-guest-agent/src/stdin_execution.rs:104-138 | The guest accepts a chunk exactly up to 65536 bytes: both the base64 length limit of 87384 and the decoded limit are accounted for. |
| `StdinFeeder.CutPiece` | packages/quicksand-core/quicksand_core/host/_stdin.py:38-41 | Cutting a byte string yields nonempty chunks of at most 65536 bytes whose concatenation is the string. |
| `StdinFeeder.StdinChunks` | packages/quicksand-core/quicksand_core/host/_stdin.py:35-53 | So for a whole source, whatever pieces it comes in; every chunk is one the guest accepts. |
| `StdinFeeder.Feed` | packages/quicksand-core/quicksand_core/host/_stdin.py:101-109 | The requests sent are, in order, a prefix of all chunks followed by end of input, and nothing beyond the chunks of a source that raises; each but the last was acknowledged open before the next was sent; why the feeder stopped is what its replies, the source and the output task say. |
| `StdinFeeder.RunWithStdin` | packages/quicksand-core/quicksand_core/host/_stdin.py:111-138 | A result is returned only if the output task gave it and neither task raised; whatever a task raised is raised; the guest's execution is left uncancelled only when its output task returned a result without error; a deadline that expires in either wait gives the timeout error if no task raised. |
| `StdinFeeder.SourceReachesChild` | packages/dev/quicksand-image-tools/quicksand_image_tools/quicksand-guest-agent/src/stdin_execution.rs:558-589 | Host and guest together, in every interleaving: what the child's stdin has received is a prefix of the source, and once the guest has processed the end-of-input request it is the whole source. |
| `StdinFeeder.WholeSourceCanArrive` | packages/quicksand-core/quicksand_core/host/_stdin.py:101-109 | And for any chunks there is a run at whose end the child has got all of the source and its stdin is closed. |
| `StdinFeeder.SendingFindsRoom` | packages/quicksand-core/quicksand_core/host/_stdin.py:104-109 | With stop-and-wait the guest's one-slot queue is always free when a submission reaches it, so no chunk is ever refused. |
| `StdinFeeder.RunSystemKeepsInv` | packages/quicksand-core/quicksand_core/host/_stdin.py:101-109 | The joint invariant of feeder, transit and guest is kept by every sequence of their steps. |
| `StdinRun.CompleteRunsLookRight` | packages/dev/quicksand-image-tools/quicksand_image_tools/quicksand-guest-agent/src/stdin_execution.rs:430-488 | A complete run's events are Ready, then output, at most one error message, one Exit at the end; or, without Ready, one message and Exit -1. |
| `StdinRun.Drive` | packages/dev/quicksand-image-tools/quicksand_image_tools/quicksand-guest-agent/src/stdin_execution.rs:443-548 | For any order in which the selects pick: an interruption found before the loop is first polled ends the run with no event; otherwise the events are Ready and then exactly the output picked up, in order, each pipe until it is drained; the run goes on exactly until both pipes are drained and the exit is known, an interruption, or a failing choice whose guard is on, and that decides the outcome. |
| `StdinRun.Round` | packages/dev/quicksand-image-tools/quicksand_image_tools/quicksand-guest-agent/src/stdin_execution.rs:518-546 | One pick: the error it ends with, if any, is that of the history of picks, and the loop's flags follow it. |
| `StdinRun.Finish` | packages/dev/quicksand-image-tools/quicksand_image_tools/quicksand-guest-agent/src/stdin_execution.rs:468-488 | After cleanup come the outcome's final events, cut off only where the receiver stops accepting. |
| `StdinRun.Run` | packages/dev/quicksand-image-tools/quicksand_image_tools/quicksand-guest-agent/src/stdin_execution.rs:421-489 | Whatever happens, the acts are the start of a complete run, and a run that ends with its receiver there is complete; Ready comes first exactly if the driving loop was reached, and otherwise cleanup does; after cleanup come exactly the decided outcome's final events, as far as the receiver takes them; an exit code other than -1 is the child's own, nothing had failed and all output was drained, and a healthy run of a started and reaped child does end with it. |
| `StdinRun.HeardIsDelivered` | packages/dev/quicksand-image-tools/quicksand_image_tools/quicksand-guest-agent/src/stdin_execution.rs:518-546 | Of each pipe the receiver has got exactly the pieces that the pipe delivered until it was drained, in order, whatever the other pipe, the writer and the child did in between. |
| `StdinRun.ExitMeansNothingFailed` | packages/dev/quicksand-image-tools/quicksand_image_tools/quicksand-guest-agent/src/stdin_execution.rs:443-548 | A run that ends with an exit code: both pipes were drained, the code is the status in the first report of the child's exit with its descendants killed, no interruption was picked, the writer had not failed while it was polled and no pipe failed before it was drained. |
| `StdinRun.ExitsExactly` | packages/dev/quicksand-image-tools/quicksand_image_tools/quicksand-guest-agent/src/stdin_execution.rs:443-548 | The driving loop ends with the child's exit code if and only if, with the receiver still there, the child exits with it and both pipes are drained before anything fails or interrupts; failures of what is no longer polled do not count. |
| `Utf8.LossyMeetsStandard` | packages/dev/quicksand-image-tools/quicksand_image_tools/quicksand-guest-agent/src/stdin_execution.rs:591-633 | One-shot decoding of a byte string is a text exactly when that text is what section 3.9 of the Unicode Standard prescribes: the scalar values whose encodings (section 3 of RFC 3629) stand there, and one U+FFFD for each maximal subpart. |
| `Utf8.GrammarIsEncoding` | packages/dev/quicksand-image-tools/quicksand_image_tools/quicksand-guest-agent/src/stdin_execution.rs:602-612 | The byte patterns the validator accepts as a character are exactly the encodings of scalar values: no overlong form, no surrogate, nothing past U+10FFFF. |
| `Utf8.HeadMeaning` | packages/dev/quicksand-image-tools/quicksand_image_tools/quicksand-guest-agent/src/stdin_execution.rs:604-629 | What the scan finds at the front of a byte string is, in the standard's own terms, a character, a maximal ill-formed subpart, or an unfinished character of at most three bytes. |
| `Utf8.FeedStep` | packages/dev/quicksand-image-tools/quicksand_image_tools/quicksand-guest-agent/src/stdin_execution.rs:597-632 | Decoding a piece after earlier pieces, starting from the bytes left pending, continues the decoding of everything together. |
| `Utf8.StreamAppend` | packages/dev/quicksand-image-tools/quicksand_image_tools/quicksand-guest-agent/src/stdin_execution.rs:597-632 | The bytes left undecoded are all that later input needs to know of earlier input. |
| `Utf8.FromUtf8` | packages/dev/quicksand-image-tools/quicksand_image_tools/quicksand-guest-agent/src/stdin_execution.rs:604-612 | The validator's verdict: how much is a sequence of characters, and whether what follows is ill-formed (and how long) or unfinished. |
| `Utf8.Utf8Decoder.Decode` | packages/dev/quicksand-image-tools/quicksand_image_tools/quicksand-guest-agent/src/stdin_execution.rs:597-632 | The loop over `consumed`: it ends, holds back at most three bytes that begin a character, none after the end, and its output is the lossy decoding of what was pending and what came. |
| `Utf8.ReadOutput` | packages/dev/quicksand-image-tools/quicksand_image_tools/quicksand-guest-agent/src/stdin_execution.rs:635-663 | For any cutting of a pipe's bytes into reads, the nonempty events sent are a prefix of the lossy decoding of all bytes delivered, and all of it when the pipe's end was reached. |
| `Utf8.LossyOfEncoded` | packages/dev/quicksand-image-tools/quicksand_image_tools/quicksand-guest-agent/src/stdin_execution.rs:591-633 | Well-formed UTF-8 decodes to the characters it encodes. |
| `AccountFiles.CreatedUserIsFound` | packages/dev/quicksand-image-tools/quicksand_image_tools/quicksand-guest-agent/src/main.rs:229-242 | A created user looks up to its own fresh uid if and only if the file's last line was terminated and no earlier line already matched the name (one with unreadable ids can, because it makes the lookup fail). |
| `AccountFiles.CreatesExactly` | packages/dev/quicksand-image-tools/quicksand_image_tools/quicksand-guest-agent/src/main.rs:321-339 | A create succeeds exactly for a valid name that is not found while ids up to 59999 are left; otherwise nothing changes. |
| `AccountFiles.CreatedRecords` | packages/dev/quicksand-image-tools/quicksand_image_tools/quicksand-guest-agent/src/main.rs:336-349 | What it appends, field by field: passwd with the id twice, home and shell, group with the id, shadow with a locked password. |
| `AccountFiles.ValidUsernameExactly` | packages/dev/quicksand-image-tools/quicksand_image_tools/quicksand-guest-agent/src/main.rs:246-254 | A valid name is one to 32 characters, a small letter or underscore and then small letters, digits, underscores and dashes. |
| `AccountFiles.CreateKeepsOthers` | packages/dev/quicksand-image-tools/quicksand_image_tools/quicksand-guest-agent/src/main.rs:321-360 | Creating a user keeps another user's lookup if and only if the new record is not glued to a short unfinished last line that thereby becomes the other's first entry; so always in a terminated file. |
| `AccountFiles.DeleteForgetsOnlyThatUser` | packages/dev/quicksand-image-tools/quicksand_image_tools/quicksand-guest-agent/src/main.rs:282-297 | Rewriting a file without a user forgets that user and changes no other's lookup. |
| `AccountFiles.RemovedFromFile` | packages/dev/quicksand-image-tools/quicksand_image_tools/quicksand-guest-agent/src/main.rs:282-297 | A rewritten file has no line that begins with the name and a colon, and every other nonempty line, less a carriage return at its end. |
| `AccountFiles.DeleteRemovesEverywhere` | packages/dev/quicksand-image-tools/quicksand_image_tools/quicksand-guest-agent/src/main.rs:364-382 | A delete succeeds exactly for a valid name that is found, and then none of the three files has a line of that user; otherwise nothing changes. |
| `AccountFiles.DeleteAfterCreateRestores` | packages/dev/quicksand-image-tools/quicksand_image_tools/quicksand-guest-agent/src/main.rs:282-297 | Removing a just appended record gives back the file's lines if and only if its last line was terminated, no earlier line began with the name and a colon, no line ended in a carriage return, and the file was not a single empty line. |
| `AccountFiles.DeleteUndoesCreate` | packages/dev/quicksand-image-tools/quicksand_image_tools/quicksand-guest-agent/src/main.rs:364-382 | After a successful create, delete restores passwd line for line if and only if passwd meets those conditions, and passwd together with group, or with shadow, if and only if both do. |
| `AccountFiles.CreatedUserIsLost` | packages/dev/quicksand-image-tools/quicksand_image_tools/quicksand-guest-agent/src/main.rs:276-280 | In a passwd file of one record without its newline every other user is created but not found afterwards, and not undone by a delete. |
| `AccountFiles.BobIsLost` | packages/dev/quicksand-image-tools/quicksand_image_tools/quicksand-guest-agent/src/main.rs:276-280 | For instance bob after root. |
| `AccountFiles.NextFreeIsFresh` | packages/dev/quicksand-image-tools/quicksand_image_tools/quicksand-guest-agent/src/main.rs:257-274 | The next id is above every managed id in passwd and group, and is the least such. |
| `AccountFiles.RunsStayConsistent` | packages/dev/quicksand-image-tools/quicksand_image_tools/quicksand-guest-agent/src/main.rs:321-382 | Every run of creates and deletes keeps the files well-formed and their managed ids distinct. |
| `AccountFiles.RunsKeepOthers` | packages/dev/quicksand-image-tools/quicksand_image_tools/quicksand-guest-agent/src/main.rs:321-382 | A user that a run never names looks up the same before and after it. |
| `AccountFiles.CreatedUserStays` | packages/dev/quicksand-image-tools/quicksand_image_tools/quicksand-guest-agent/src/main.rs:321-382 | A created user keeps looking up to its own uid through every run that does not name it. |
| `AccountFiles.UidsAreDistinct` | packages/dev/quicksand-image-tools/quicksand_image_tools/quicksand-guest-agent/src/main.rs:257-274 | In consistent files two different users in the managed range never share a uid. |
| `AccountFiles.Accounts.LookupUser` | packages/dev/quicksand-image-tools/quicksand_image_tools/quicksand-guest-agent/src/main.rs:229-242 | The line loop computes the lookup: the first line with seven fields and the name decides. |
| `AccountFiles.Accounts.NextFreeId` | packages/dev/quicksand-image-tools/quicksand_image_tools/quicksand-guest-agent/src/main.rs:257-274 | The scan over both files computes one more than the greatest managed id. |
| `AccountFiles.Accounts.CreateUser` | packages/dev/quicksand-image-tools/quicksand_image_tools/quicksand-guest-agent/src/main.rs:321-360 | The files after a create, on success and on each error, and the answer. |
| `AccountFiles.Accounts.RemoveLinesForUser` | packages/dev/quicksand-image-tools/quicksand_image_tools/quicksand-guest-agent/src/main.rs:282-297 | The filter loop computes the rewritten file. |
| `AccountFiles.Accounts.DeleteUser` | packages/dev/quicksand-image-tools/quicksand_image_tools/quicksand-guest-agent/src/main.rs:364-382 | The files after a delete, and the answer. |
| `Text.LinesOfAppended` | packages/dev/quicksand-image-tools/quicksand_image_tools/quicksand-guest-agent/src/main.rs:276-280 | Appending a line to a terminated file adds exactly that line. |
| `Text.LinesOfGlued` | packages/dev/quicksand-image-tools/quicksand_image_tools/quicksand-guest-agent/src/main.rs:276-280 | Appending to a file whose last line is unfinished glues the new text onto that line. |
| `Text.LinesOfJoin` | packages/dev/quicksand-image-tools/quicksand_image_tools/quicksand-guest-agent/src/main.rs:282-297 | Joining lines and splitting again gives them back, less a trailing carriage return each. |
| `Text.StartsWithField` | packages/dev/quicksand-image-tools/quicksand_image_tools/quicksand-guest-agent/src/main.rs:282-297 | Beginning with a name and a colon is the same as having that name as first of several fields. |
| `Text.DecimalRoundTrip` | packages/dev/quicksand-image-tools/quicksand_image_tools/quicksand-guest-agent/src/main.rs:321-360 | A printed uid parses back to itself and contains no separator. |
| `Text.ParseU32Exactly` | packages/dev/quicksand-image-tools/quicksand_image_tools/quicksand-guest-agent/src/main.rs:229-242 | A field reads as a number exactly if it is digits, perhaps after a plus sign, with a value below 2 to the 32. |
| `Text.LineWithCr` | packages/dev/quicksand-image-tools/quicksand_image_tools/quicksand-guest-agent/src/main.rs:229-242 | A carriage return before the newline is no part of the line. |
| `OverlayChain.RestoreRepairs` | packages/quicksand-core/quicksand_core/qemu/overlay.py:143-189 | From any links whatever, stale and cyclic ones included: after restoring, the walk from the new overlay yields the chain with the overlay on top if and only if the files are distinct and the base is not among the chain's. |
| `OverlayChain.ChainIsDistinct` | packages/quicksand-core/quicksand_core/qemu/overlay.py:119-137 | A walk that ends never passes the same file twice. |
| `OverlayChain.ChainIsUnique` | packages/quicksand-core/quicksand_core/qemu/overlay.py:119-137 | From one top there is at most one chain to the base. |
| `OverlayChain.LongWalkRepeats` | packages/quicksand-core/quicksand_core/qemu/overlay.py:119-137 | A walk longer than there are files has passed one of them twice. |
| `OverlayChain.OverlayManager.GetOverlayChain` | packages/quicksand-core/quicksand_core/qemu/overlay.py:119-137 | For any links: the walk returns a chain if and only if there is one from the top down to the base or to a file without backing, and then exactly that, bottom to top; otherwise it reaches a file that is missing or passes a file twice, which the source does for ever. |
| `OverlayChain.OverlayManager.PrepareRestoredChain` | packages/quicksand-core/quicksand_core/qemu/overlay.py:143-189 | The loop sets each overlay's link to the one below it, skipping those already right, and leaves every other file's link alone; it fails exactly when a file is missing. |
| `OverlayChain.OverlayManager.CreateOverlay` | packages/quicksand-core/quicksand_core/qemu/overlay.py:25-83 | With and without a restore chain: it fails exactly when the base image or a file of the chain is missing; the links afterwards, what is untouched, and that the result is a chain. |
| `SaveOrder.LoadPreservesExactlyUpToTen` | packages/quicksand-core/quicksand_core/qemu/image_resolver.py:127-133 | Saving under numbered names and loading in sorted order preserves every disk of n layers if and only if n is at most ten; with eleven, "10.qcow2" sorts before "2.qcow2". |
| `SaveOrder.NamesSortedExactlyUpToTen` | packages/quicksand-core/quicksand_core/qemu/save.py:82-88 | The numbered file names are in sorted order exactly for up to ten layers. |
| `SaveOrder.LoadedOutOfOrder` | packages/quicksand-core/quicksand_core/qemu/image_resolver.py:127-133 | For every n above ten, a stack of n layers whose loaded disk differs from the saved one. |
| `SaveOrder.SortedIsUnique` | packages/quicksand-core/quicksand_core/qemu/image_resolver.py:131-131 | Sorting the directory listing has one answer, whatever order the listing came in. |
| `SaveOrder.SortSorts` | packages/quicksand-core/quicksand_core/qemu/image_resolver.py:131-131 | The sorted listing is in order and has the same names. |
| `SaveOrder.PackedStackKeepsDisk` | packages/quicksand-core/quicksand_core/qemu/save.py:105-135 | Packing every layer against its true backing leaves the disk as it was, whatever of the sectors that the backing shows already `qemu-img` keeps or drops. |
| `SaveLoad.SaveAndLoad` | packages/quicksand-core/quicksand_core/sandbox/_saves.py:78-165 | Saving a session of at most ten layers, resolving the save where the package it is named after is installed, and booting it, uncompressed or with any conversion, with stale links: the old guest has lost nothing; the new guest's disk is the old guest's at the pivot if the image was the package's, and if more layers lay below the session, if and only if at every sector a stored layer holds it or those layers did not change what the package shows. |
| `SaveLoad.LoadedDiskIsSavedDisk` | packages/quicksand-core/quicksand_core/qemu/image_resolver.py:118-177 | For an image resolved from an installed package the resolved chain shows the disk as it was at the pivot. |
| `SaveLoad.ResolvedLayers` | packages/quicksand-core/quicksand_core/qemu/image_resolver.py:118-177 | A save resolves to the named package's chain and on it the stored layers in order, whatever else lay below the session. |
| `SaveLoad.ResolvesExactly` | packages/quicksand-core/quicksand_core/qemu/image_resolver.py:118-160 | Saves up to version 6 are taken and newer ones refused; then overlays must be there and the named package installed. |
| `SaveLoad.ResaveKeepsDiskExactlyWhereNothingLostShows` | packages/quicksand-core/quicksand_core/sandbox/_saves.py:136-150 | What a session on a package and earlier layers saves, one booted from a save above all, resolves to the same disk if and only if at every sector either a stored layer holds it or the earlier layers did not change what the package shows; for uncompressed saves and for every conversion of compressed ones. |
| `SaveLoad.CompressedResaveKeepsDisk` | packages/quicksand-core/quicksand_core/qemu/save.py:105-135 | What can be told of a compressed save beforehand: it keeps the disk under every conversion if and only if the session wrote a new value wherever the earlier layers show, and under some conversion if and only if it wrote any value there. |
| `SaveLoad.ResaveLosesDisk` | packages/quicksand-core/quicksand_core/sandbox/_saves.py:136-150 | Concrete sessions on an earlier save: an idle one loses the disk; one that writes the same value again keeps it uncompressed, and compressed there is a conversion that loses it and one that keeps it. |
| `SaveLoad.StoredKeepsDisk` | packages/quicksand-core/quicksand_core/qemu/save.py:82-88 | What is stored of a session, as it is or under any conversion, shows on the layers it was on what the session showed. |
| `SaveLoad.StoredBetween` | packages/quicksand-core/quicksand_core/qemu/save.py:105-135 | Under any conversion a stored sector is one the session wrote, and one to which it gave a new value is stored; what it wrote without changing anything is the converter's choice. |
| `SaveLoad.Collect` | packages/quicksand-core/quicksand_core/sandbox/_saves.py:138-148 | The filter keeps exactly the session's overlays, and the parallel list holds the file directly below each. |
| `SaveLoad.Write` | packages/quicksand-core/quicksand_core/qemu/save.py:82-88 | The numbered files hold the session's layers, or what the conversion made of each against its true backing. |
| `SaveLoad.ConvertedAgainstTrueBacking` | packages/quicksand-core/quicksand_core/qemu/save.py:105-135 | What the conversion is given as the backing is the whole stack below the layer. |
| `SaveLoad.Sandbox.Save` | packages/quicksand-core/quicksand_core/sandbox/_saves.py:58-76 | Refused, with nothing changed, exactly when a checkpoint is live and its deletion was not asked for; otherwise the save's contents, the frozen disk, and the guest going on unchanged on a new overlay. |
| `SaveLoad.Sandbox.Freeze` | packages/quicksand-core/quicksand_core/sandbox/_saves.py:100-165 | Checkpoints deleted, active overlay frozen under a new one, the session's layers written with the image's name. |
| `SaveLoad.Sandbox.DeleteCheckpoints` | packages/quicksand-core/quicksand_core/sandbox/_saves.py:101-109 | After the `delvm` loop no tag and no snapshot is left, and the disk is unchanged. |
| `SaveLoad.Sandbox.Pivot` | packages/quicksand-core/quicksand_core/sandbox/_saves.py:118-129 | The pivot puts an empty overlay on top, changes no other file, and happens only with no tag live. |
| `SaveLoad.WriteSession` | packages/quicksand-core/quicksand_core/sandbox/_saves.py:136-165 | Walk from the frozen overlay, filter and write together store the session's layers. |
| `SaveLoad.Sandbox.WriteChain` | packages/quicksand-core/quicksand_core/sandbox/_saves.py:136-165 | So for the running session: what lies below its newest overlay is stored. |
| `SaveLoad.Sandbox.PivotAndWrite` | packages/quicksand-core/quicksand_core/sandbox/_saves.py:118-165 | The pivot leaves the disk as it was, and what is written is the disk as it was. |
| `SaveLoad.Sandbox.Checkpoint` | packages/quicksand-core/quicksand_core/sandbox/_checkpoints.py:36-45 | The tag list stays exactly the snapshots in the active overlay, and the tag now stands for the machine as it is. |
| `SaveLoad.Sandbox.Revert` | packages/quicksand-core/quicksand_core/sandbox/_checkpoints.py:47-71 | Succeeds exactly on a live tag, and then brings back RAM and disk of the latest checkpoint under it; an unknown tag changes nothing. |
| `SaveLoad.Boot` | packages/quicksand-core/quicksand_core/sandbox/_lifecycle.py:118-126 | Booting a resolved image puts an empty overlay on its chain whatever the stored links were, and fails exactly when a file is missing. |
| `SaveLoad.BootedIsConsistent` | packages/quicksand-core/quicksand_core/qemu/overlay.py:41-63 | The restored chain with the new overlay is linked file by file over the base and shows the image's layers. |
| `DirectoryPaging.PagingIsTheListing` | packages/quicksand-smb/quicksand_smb/_query.py:583-681 | Over any sequence of calls on one scan, with any buffer sizes, flags and classes: the responses together are the listing up to the cursor, in order, each name once, less the entries that could not be built when reached and those passed by a call that raised; "no more files" means the cursor is at the end. |
| `DirectoryPaging.WalkChained` | packages/quicksand-smb/quicksand_smb/_query.py:671-679 | A client following NextEntryOffset reads back exactly the packed names, in order. |
| `DirectoryPaging.LosesNamesExactlyWhenUnsupported` | packages/quicksand-smb/quicksand_smb/_query.py:635-669 | A call that passes some entry that can be stat'ed loses one if and only if its information class is not supported or it raises. |
| `DirectoryPaging.LosesPackedNamesExactlyWhenRaising` | packages/quicksand-smb/quicksand_smb/_query.py:639-666 | A call raises if and only if there is an entry that raises (one whose name is the UTF-16 encoding of no text, above all) which it reaches with room for all before it; and it loses what it has packed if and only if there is such an entry with something packed before. |
| `Utf16.EncodableExactly` | packages/quicksand-smb/quicksand_smb/_query.py:480-480 | The strict encoder takes a name exactly if it is the UTF-16LE encoding of some sequence of Unicode scalar values, characters beyond the first plane as surrogate pairs. |
| `DirectoryPaging.BuildEntry` | packages/quicksand-smb/quicksand_smb/_query.py:450-567 | Building raises exactly on such names or if asking about the entry does, and yields an entry exactly for one that is there, with a name that is text, in a supported class. |
| `DirectoryPaging.RaisingEntryBlocks` | packages/quicksand-smb/quicksand_smb/_query.py:639-666 | As long as that entry raises, every later call on the scan ends there too and returns nothing. |
| `DirectoryPaging.NamesAreLost` | packages/quicksand-smb/quicksand_smb/_query.py:635-669 | For instance on a directory's two dots: a query of class 2, and a query of class 12 with a name behind them that is not UTF-8. |
| `DirectoryPaging.UnsupportedClassUsesUpTheListing` | packages/quicksand-smb/quicksand_smb/_query.py:651-669 | A call of an unsupported class returns nothing; unless an entry is left on which it raises, it passes all that is left and answers "no more files". |
| `DirectoryPaging.SelectedOnce` | packages/quicksand-smb/quicksand_smb/_query.py:639-666 | Of a listing without repetitions every name is returned at most once, and exactly if its entry could be built. |
| `DirectoryPaging.SelectEverything` | packages/quicksand-smb/quicksand_smb/_query.py:639-666 | If every entry can be built the names returned are the listing. |
| `DirectoryPaging.Entry` | packages/quicksand-smb/quicksand_smb/_query.py:480-580 | An entry has the class's fixed size, the name's length at its place, the name after it, and is padded to a multiple of eight. |
| `DirectoryPaging.Fixed` | packages/quicksand-smb/quicksand_smb/_query.py:485-562 | The fixed part has the size section 2.4 of [MS-FSCC] gives for the class, with FileNameLength where a client looks for it. |
| `DirectoryPaging.ClassSizes` | packages/quicksand-smb/quicksand_smb/_query.py:485-567 | The classes answered are 1, 3, 12, 37 and 38, with fixed parts of 64, 94, 12, 104 and 80 bytes. |
| `DirectoryPaging.FixedLayout` | packages/quicksand-smb/quicksand_smb/_query.py:485-562 | Which bytes of the fixed part are zero, which hold time stamps, sizes and attributes, and which the file id. |
| `DirectoryPaging.ChainEntries` | packages/quicksand-smb/quicksand_smb/_query.py:671-679 | The patch loop computes the chained entries. |
| `DirectoryPaging.DirectoryHandle.Fill` | packages/quicksand-smb/quicksand_smb/_query.py:635-666 | The loop packs, from the cursor on, as many buildable entries as fit (one if asked), and stops at the first that does not fit or on which it raises. |
| `DirectoryPaging.DirectoryHandle.QueryDirectory` | packages/quicksand-smb/quicksand_smb/_query.py:607-694 | Each status exactly in its case; a response fits the buffer and reads back as the names passed; a too-small buffer loses nothing; and since the last scan the calls together have returned the listing up to the cursor, less what calls that raised had passed. |
| `HandleTable.NothingIsLeaked` | packages/quicksand-smb/quicksand_smb/__init__.py:323-325 | In every run of CREATEs, CLOSEs and renames with any answers by the system, failed closes included, no descriptor is open that no live handle has; so the end of the session leaves nothing open. |
| `HandleTable.BalancedExactlyUntilACloseFails` | packages/quicksand-smb/quicksand_smb/_query.py:834-858 | In every run the open descriptors are exactly those of the live handles, unshared, after each of the first n requests if and only if no rename among them had its close report an error. |
| `HandleTable.IdsAreNeverReused` | packages/quicksand-smb/quicksand_smb/_files.py:119-125 | In every run an id once issued is never the next one, and once its handle is gone it stays gone. |
| `HandleTable.RunsStaySound` | packages/quicksand-smb/quicksand_smb/_files.py:119-138 | Every run keeps the invariant: open descriptors belong to live handles, live ids were issued, issued ids are at most the counter. |
| `HandleTable.StepKeepsBalance` | packages/quicksand-smb/quicksand_smb/_query.py:834-858 | From balanced books every request keeps them balanced but one: a rename whose close reports an error. |
| `HandleTable.FailedCloseTakesAnotherFile` | packages/quicksand-smb/quicksand_smb/_query.py:834-858 | A concrete run: after such a rename the handle keeps a closed descriptor; the next file opened gets its number, and closing the first handle closes that file under its own live handle. |
| `HandleTable.HandleManager.Rename` | packages/quicksand-smb/quicksand_smb/_query.py:827-860 | In any session, for every combination of answers by the system, questions that fail included: status, path and descriptor afterwards; nothing is open that no handle has; and balanced books stay balanced if and only if closing the old descriptor was not reached or did not report an error. |
| `HandleTable.HandleManager.RenameHandle` | packages/quicksand-smb/quicksand_smb/_query.py:827-860 | The steps and the exception branch on the handle itself, with the change they make to the open descriptors. |
| `HandleTable.RenamedExactly` | packages/quicksand-smb/quicksand_smb/_query.py:820-860 | A rename succeeds if and only if nothing stands at the new path or it may be replaced and no call fails, and then the handle has the new path and its descriptor; an existing target refuses it with the handle untouched; after a failure the handle has the new path only where the file was already renamed and could not be reopened, and no descriptor only where the old path could not be opened either. |
| `HandleTable.HandleManager.Create` | packages/quicksand-smb/quicksand_smb/_files.py:306-330 | A handle appears exactly on success, with a never-issued id and the descriptor opened for it; otherwise nothing changes and the status is the refusal, or that of the error opening gave; the invariant is kept, and balance if there was. |
| `HandleTable.HandleManager.Close` | packages/quicksand-smb/quicksand_smb/_files.py:388-406 | Exactly the named handle and its descriptor go, even if closing reports an error; the invariant is kept, and balance if there was. |
| `HandleTable.HandleManager.CloseAll` | packages/quicksand-smb/quicksand_smb/_files.py:133-138 | Nothing is left open, whatever numbers earlier requests left in the handles. |
| `HandleTable.HandleManager.Allocate` | packages/quicksand-smb/quicksand_smb/_files.py:119-125 | The id handed out was never issued before and names no live handle. |
| `HandleTable.CoveredExchanged` | packages/quicksand-smb/quicksand_smb/_files.py:119-125 | Giving a handle any descriptor in place of its own, which is closed, leaves none open without a handle. |
| `HandleTable.Exchanged` | packages/quicksand-smb/quicksand_smb/_files.py:119-125 | Giving a handle a descriptor nobody else has, in place of its own, keeps descriptors and handles in balance. |
| `HandleTable.Removed` | packages/quicksand-smb/quicksand_smb/_files.py:399-406 | So does removing a handle together with its descriptor. |
| `HandleTable.StaleDescriptor` | packages/quicksand-smb/quicksand_smb/_query.py:835-837 | A descriptor closed while its handle keeps the number breaks the balance. |
| `SmbCompound.SplitOfJoin` | packages/quicksand-smb/quicksand_smb/__init__.py:306-322 | Splitting the joined responses gives them back, all but the last padded to eight bytes with NextCommand set to their length, if and only if the last one's NextCommand does not point into itself. |
| `SmbCompound.SplitCoversTheFrame` | packages/quicksand-smb/quicksand_smb/_protocol.py:245-258 | Splitting any byte string yields consecutive slices from its start; less than a header is left over. |
| `SmbCompound.SplitLengths` | packages/quicksand-smb/quicksand_smb/_protocol.py:245-258 | Each slice is as long as its NextCommand says, cut at the frame's end; NextCommand zero only in the last, which takes the rest. |
| `SmbCompound.SplitCompound` | packages/quicksand-smb/quicksand_smb/_protocol.py:245-258 | The offset loop terminates and computes the split. |
| `SmbCompound.JoinResponses` | packages/quicksand-smb/quicksand_smb/__init__.py:306-322 | The response loop, and its case of one response, compute the join. |
| `SmbCompound.ChainedKeepsTheRest` | packages/quicksand-smb/quicksand_smb/__init__.py:312-321 | Outside NextCommand a chained response is the response followed by zeros. |
| `SmbServer.FrameIsAnswered` | packages/quicksand-smb/quicksand_smb/__init__.py:264-322 | The client that splits the answer frame finds exactly one answer per message of the longest prefix whose headers parse, in order, each with its message's id and command. |
| `SmbServer.RelatedActsOnLatestCreate` | packages/quicksand-smb/quicksand_smb/__init__.py:273-292 | In a related operation the first run of sixteen 0xFF bytes of the payload becomes the file id that the answer to the frame's latest successful CREATE gave out, or sixteen zeros without one; nothing else of the payload changes. |
| `SmbServer.RelatedIsWireBit` | packages/quicksand-smb/quicksand_smb/__init__.py:273-273 | An operation is related exactly if bit 2 of byte 16 of its message is set. |
| `SmbServer.UnrelatedIsUnchanged` | packages/quicksand-smb/quicksand_smb/__init__.py:268-287 | A message without that bit is dispatched with its own header and payload unchanged. |
| `SmbServer.RelatedInheritsTreeId` | packages/quicksand-smb/quicksand_smb/__init__.py:274-275 | A related operation with TreeId zero goes to the tree in the header of the frame's latest handled answer, or to tree zero without one; any other keeps its own; the rest of the header stays, and the payload too if it holds no sentinel. |
| `SmbServer.RelatedInheritsFileId` | packages/quicksand-smb/quicksand_smb/__init__.py:273-283 | That place takes the id the loop carries. |
| `SmbServer.LastFileIdIsLatestCreate` | packages/quicksand-smb/quicksand_smb/__init__.py:289-292 | The chain's file id is the one in the response of the latest successful CREATE of the frame. |
| `SmbServer.LastFileIdWithoutCreate` | packages/quicksand-smb/quicksand_smb/__init__.py:265-265 | Without such a CREATE it is sixteen zeros. |
| `SmbServer.CreateResponseCarriesFileId` | packages/quicksand-smb/quicksand_smb/_files.py:346-385 | The CREATE response has the file id where the chain looks for it, is long enough and has status success. |
| `SmbServer.HeaderRoundTrip` | packages/quicksand-smb/quicksand_smb/_protocol.py:205-228 | A header built for a request parses to the request's message id, command, tree and session with the given status, nothing chained. |
| `SmbServer.ParsedAsSent` | packages/quicksand-smb/quicksand_smb/_protocol.py:174-203 | Every field of a client's header, laid out as section 2.2.1.2 of [MS-SMB2] says, is parsed as it was sent. |
| `SmbServer.ResponseBytes` | packages/quicksand-smb/quicksand_smb/_protocol.py:205-228 | The response header's other bytes: magic, structure size, credit charge and credits, server flag with the related bit handed back, zeros. |
| `SmbServer.CreatedOnTheWire` | packages/quicksand-smb/quicksand_smb/__init__.py:289-292 | The chain takes a file id from a message exactly if its command bytes are 5, 0, its handler answered with at least 146 bytes, and the status is zero. |
| `SmbServer.HandlerAnswerIsSent` | packages/quicksand-smb/quicksand_smb/__init__.py:286-287 | What a handler answers is what is sent, and the session it leaves is the next message's. |
| `SmbServer.FailureIsReported` | packages/quicksand-smb/quicksand_smb/__init__.py:293-304 | When a handler raises the answer's status is 0xC0000001. |
| `SmbServer.ExchangeAnswers` | packages/quicksand-smb/quicksand_smb/__init__.py:268-304 | Whether the handler answered or raised, the response carries its message's id and command. |
| `SmbServer.FindSentinel` | packages/quicksand-smb/quicksand_smb/__init__.py:277-281 | The first place of the sentinel, or that there is none. |
| `SmbServer.ServeMessage` | packages/quicksand-smb/quicksand_smb/__init__.py:268-304 | One turn of the loop: the exchange, and the file and tree id carried on. |
| `SmbServer.ServeFrame` | packages/quicksand-smb/quicksand_smb/__init__.py:243-322 | The frame's loop: an SMB1 frame is skipped; otherwise every message up to the first unparsable one is served in order on the session the one before left, and the answers are joined. |
| `ReplyRouting.AnswersAreOwn` | packages/quicksand-core/quicksand_core/host/virtio_serial_agent_client.py:235-259 | In every interleaving a one-shot caller's answer has the caller's id and is the only frame with it that arrived between its registration and its future being settled. |
| `ReplyRouting.CompletesAtMostOnce` | packages/quicksand-core/quicksand_core/host/virtio_serial_agent_client.py:255-257 | A future that has an answer, a failure or is cancelled never changes again, also while its entry is still in the table. |
| `ReplyRouting.SettledWhileRegistered` | packages/quicksand-core/quicksand_core/host/virtio_serial_agent_client.py:332-343 | Between a timeout and the caller's `finally` the table holds a cancelled future; a frame for it, or the reader's end, leaves it cancelled. |
| `ReplyRouting.StopWakesEveryone` | packages/quicksand-core/quicksand_core/host/virtio_serial_agent_client.py:271-279 | When the reader stops, in any run, everyone then registered is woken for good: a call still waiting has failed with the reason, one already settled keeps what it has, and a stream's queue ends in one error after all it had got. |
| `ReplyRouting.LateCallersAreNotWoken` | packages/quicksand-core/quicksand_core/host/virtio_serial_agent_client.py:303-325 | A call registered after the reader has stopped never receives anything. |
| `ReplyRouting.RequestIsAnswered` | packages/quicksand-core/quicksand_core/host/virtio_serial_agent_client.py:235-259 | A call can start in any sound state, and left alone it is answered by the first frame with its id that the reader routes, however many others come. |
| `ReplyRouting.StreamIsFed` | packages/quicksand-core/quicksand_core/host/virtio_serial_agent_client.py:235-259 | So can a stream, and its queue then holds every routed frame with its id, in order. |
| `ReplyRouting.TakesAreCounted` | packages/quicksand-core/quicksand_core/host/virtio_serial_agent_client.py:408-442 | In every run a stream's consumer has taken as many frames as it took steps, and never more than had arrived. |
| `ReplyRouting.LateFramesAreDropped` | packages/quicksand-core/quicksand_core/host/virtio_serial_agent_client.py:247-259 | A frame reaches no caller if and only if no stream in the table and no waiting future has its id; a settled future in the table only loses its entry. |
| `ReplyRouting.StreamTextIsWhatWasSent` | packages/quicksand-core/quicksand_core/host/virtio_serial_agent_client.py:408-442 | A completed stream's stdout and stderr are the in-order concatenation of the text received under its id up to the exit frame. |
| `ReplyRouting.RunKeeps` | packages/quicksand-core/quicksand_core/host/virtio_serial_agent_client.py:235-346 | Every interleaving of calls, frames, cancelled waits, leaving callers and the reader's end keeps: futures hold the one frame of theirs, queues exactly their frames in order. |
| `ReplyRouting.ConsumeStream` | packages/quicksand-core/quicksand_core/host/virtio_serial_agent_client.py:408-442 | The consumer's loop: result, callbacks and ready flag from the frames before the first exit or error. |
| `ReplyRouting.FailFutures` | packages/quicksand-core/quicksand_core/host/virtio_serial_agent_client.py:273-276 | The loop over the pending futures fails each that is still waiting and no other. |
| `ReplyRouting.FailQueues` | packages/quicksand-core/quicksand_core/host/virtio_serial_agent_client.py:277-279 | The loop over the streams puts one error into each of their queues and no other. |
| `ReplyRouting.VirtioSerialAgentClient.RegisterRequest` | packages/quicksand-core/quicksand_core/host/virtio_serial_agent_client.py:318-323 | An id above all earlier ones, a waiting future in the table under it with nothing heard yet, and no other call touched. |
| `ReplyRouting.VirtioSerialAgentClient.Route` | packages/quicksand-core/quicksand_core/host/virtio_serial_agent_client.py:247-259 | One turn of the reader: the frame goes to the stream or the waiting future with its id, every other future and queue stays as it is, and the invariant is kept. |
| `ReplyRouting.VirtioSerialAgentClient.CancelWait` | packages/quicksand-core/quicksand_core/host/virtio_serial_agent_client.py:332-334 | A wait that runs out cancels an open future and leaves a settled one; the entry stays, and no other call is touched. |
| `ReplyRouting.VirtioSerialAgentClient.FailPending` | packages/quicksand-core/quicksand_core/host/virtio_serial_agent_client.py:271-279 | Waking everyone is the stop step. |
| `ReplyRouting.VirtioSerialAgentClient.ReadLoop` | packages/quicksand-core/quicksand_core/host/virtio_serial_agent_client.py:235-269 | The reader's life is the routing of its frames in order, then the stop. |
| `ReplyRouting.VirtioSerialAgentClient.FinishRequest` | packages/quicksand-core/quicksand_core/host/virtio_serial_agent_client.py:327-346 | A one-shot call's end: a timeout, failed write or cancellation decides even if the future is done; otherwise the caller gets its frame, or the error in it, or the reader's failure; a result is always the one frame under its id; the entry is gone and the future settled. |
| `Framing.FramesComeBackExactlyWithinLimit` | packages/quicksand-core/quicksand_core/host/virtio_serial_agent_client.py:38-49 | Encoded payloads come back exactly and in order if and only if none is over the receiver's limit. |
| `Framing.LimitIsExact` | packages/dev/quicksand-image-tools/quicksand_image_tools/quicksand-guest-agent/src/main.rs:924-924 | The limit is 67108864 bytes of payload. |
| `Framing.PartialWireGivesPrefix` | packages/dev/quicksand-image-tools/quicksand_image_tools/quicksand-guest-agent/src/main.rs:920-930 | Of any beginning of the byte stream the receiver makes the first payloads and nothing else. |
| `Framing.Transfer` | packages/dev/quicksand-image-tools/quicksand_image_tools/quicksand-guest-agent/src/main.rs:866-939 | Both ends together, for any schedule of partial, blocked and failing writes and reads: the receiver takes a prefix of the payloads in order, and all of them if neither end stops early. |
| `Framing.SerialChannel.ReadExact` | packages/dev/quicksand-image-tools/quicksand_image_tools/quicksand-guest-agent/src/main.rs:867-893 | The `filled` loop takes exactly the next bytes of the stream, or stops short of them; it fails only on a failing read or at the stream's end. |
| `Framing.SerialChannel.WriteAll` | packages/dev/quicksand-image-tools/quicksand_image_tools/quicksand-guest-agent/src/main.rs:896-916 | The `sent` loop puts out exactly the buffer, or a prefix of it; it fails only on a failing write. |
| `Framing.SerialChannel.ReadFrame` | packages/dev/quicksand-image-tools/quicksand_image_tools/quicksand-guest-agent/src/main.rs:920-930 | The first frame of the remaining stream; a length over the limit is refused after four bytes. |
| `Framing.SerialChannel.WriteFrame` | packages/dev/quicksand-image-tools/quicksand_image_tools/quicksand-guest-agent/src/main.rs:933-939 | The encoded frame, or a prefix of it. |
| `Framing.SerialChannel.ReadFrames` | packages/quicksand-smb/quicksand_smb/_protocol.py:126-141 | Whatever pieces the bytes arrive in, the frames are taken in order, and all complete ones once everything has arrived. |
| `Framing.SerialChannel.WriteFrames` | packages/dev/quicksand-image-tools/quicksand_image_tools/quicksand-guest-agent/src/main.rs:991-1003 | The writer task puts whole frames on the wire one after another. |
| `Bytes.PutLE32` | packages/quicksand-smb/quicksand_smb/__init__.py:319-319 | `struct.pack_into` changes the four bytes and nothing else, and they read back as the number. |

## Left out

- The HTTP guest client and server: they repeat the serial logic behind libraries.
- JSON and base64 as such: frames carry values, and only base64's length is computed.
- Legacy commands with negative or non-finite timeouts, which panic after claiming the exclusive flag; legacy commands are assumed to have valid ones.
- Waiting time, fairness and scheduling: schedules are arbitrary, so nothing is said about when a step happens, only about what holds whenever it does.
- A caller of `run_with_stdin` cancelled a second time while its cleanup is under way.
- Process groups: killing and reaping are one step that may report failure.
- I/O errors while an account file is appended to or rewritten, and home directory work beyond whether it succeeded.
- Account files that are not UTF-8, which the code takes for unreadable, as if empty, and still appends to.
- The search pattern of QUERY_DIRECTORY, which the code decodes and ignores.
- The metadata inside directory entries (time stamps, sizes, attributes), which is an opaque string of the right length; a time stamp outside its field, on which packing raises, is not modelled.
- SMB negotiation, authentication, tree connect, reads, writes, locks and file information: mostly constants or single branches; the handlers are a parameter of the frame loop.
- CREATE's dispositions and access checks: their outcome before the descriptor is opened is a parameter of `HandleManager.Create`.
- Handles as shared objects: a handle is a value in the table, because no two entries ever hold the same object.
- Descriptors that stay open after a close that reports an error: closing is taken to release the descriptor, as on Linux.
- The 64-bit limit of the file id counter.
- Disk resizing, kernels and architectures in image resolution, and finding a save's directory.
- Saving into the directory that the running session was itself loaded from.
- Checkpoint tags across a stop and restart of the same sandbox object.
- Monitor commands that fail, and tags that the monitor would read as something else.
- Crash safety of writing a save: the temporary directory and the final rename.
- Reconnecting a client object: one connection from its authentication on; stale authentication replies are taken as drained.
- A walk of `get_overlay_chain` round in a circle as such: the model stops at a repetition where the source goes on for ever.
- `qemu-img convert` beyond its meaning: it is any function that writes nothing but what a layer holds and leaves out nothing but what the backing already shows.
- The stdio `write_frame` of the SMB server, which does not complete partial writes.
