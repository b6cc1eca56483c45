# Residuum: verified models of its analysers, its mock hub and its workbench SDK

Residuum runs agents and serves a web interface for them. This project models the parts of the
repository whose behaviour is hardest to read off the code, and proves what they are for:

- two source analysers: the cycle finder of the manifest scan (`CycleFinder`), and the source
  scan's worklist of test files (`TestFiles`) and its lexer for strings, raw strings and nested
  comments (`LiteralLexer`);
- the mock's simulated time (`SimulatedTime`, `Environment`) and the hold on simulated turns
  (`TurnGate`), its chat queue (`Chat`), the turn journal that rebuilds the queue and the turn from
  broadcast frames (`TurnJournal`), and the streaming of a text in pieces (`Pieces`);
- the workbench SDK's request lanes (`Lane`), its routing of session frames (`SessionRouter`), and
  the two cuts a batch of file changes goes through on its way to a watcher (`Watches`);
- checkpoint histories (`Checkpoints`) and their diffs (`UnifiedDiff`), mail refs, threads, pages and
  attachment names (`MailRefs`, `MailThreads`, `MailPages`, `Filenames`), the settings merge
  (`JsonPatch`), and when a pulse next runs (`PulseSchedule`).

`Util`, `Text` (the order of strings), `Reading` (splitting and numbers) and `Protocol` (the frames
of a turn) are shared. `dafny verify dfyconfig.toml` checks everything.

Objects the source updates in place are classes here (`Search`, `MockEnv`, `MockGate`,
`MockTurnJournal`, `ChatSimulator`, `Limiter`, `SessionRoutes`, `Repository`, `WatchLink`). Each
method's contract ties the new state to a step function on a state value; what the source promises
is then proved about those steps, over every run.

## What turned out otherwise

Some properties hold only under a condition. The code is modelled as it is; each of these comes with
an input that shows it, or with exactly when the property holds, and most with both.

- A move of simulated time never ends when an action sets itself again after no delay
  (`ZeroDelayNeverRests`). The comment at `web/mock/env.ts:198-203` says a limit stops that; the
  limit bounds one wait inside the move, not the move. Every action waiting some positive time is
  enough (`EveryDelayedMoveRests`).
- Switching to scaled time and back keeps what timers had left to wait exactly when the scale is
  not zero or nothing was left (`SwitchAndBack`, `SwitchForgetsDelay`).
- A turn's stage that one released before it cancels runs all the same, because a release goes through
  the stages that waited when it began (`CancelledStillRuns`, and at a run `CancelledRuns`);
  `CancelledNeverRunsIff` says when every cancellation is honoured. This is about the gate's interface:
  no stage in `web/mock/chat.ts` cancels another one that waits.
- The lexer takes the first three characters of `'\''` for the whole literal and meets its last
  apostrophe as if it opened something. One space on, that apostrophe swallows the next token's own
  (`SwallowedApostrophe`), so a quote a literal holds there opens a string for the lexer, whatever
  follows (`QuoteOpensString`, `MisreadQuote`).
  `MarksExactlyInsideLines` allows `'\''` anywhere, and after it lifetimes, more such literals, and
  character literals without a quote (for an escape, of plain characters). That condition is enough,
  not exact: what else follows on the line can make up for a quote.
- A raw byte string is read as an ordinary one with escapes, because its `r` stands in a word
  (`RawOnlyApart`), so one that ends in a backslash is not over at its quote (`ByteRawMisread`).
- A live tree can hold a file under a file: a write to `a/b` is accepted while `a` is a file
  (`web/mock/workspace.ts:223-230`, `web/mock/workspace.ts:304-312`). So an undo that removes an added
  file takes along what was written under it, which it reports neither as reverted nor as skipped
  (`UndoTakesMore`). An undo puts back the right paths and changes no other exactly when it removes no
  file with another live file under it (`UndoneExactlyIff`).
- Undoing a checkpoint and then that undo is the identity exactly when the first undo puts no file
  back over a live folder with a file in it that it leaves alone (`UndoingUndoIsIdentityIff`,
  `UndoLosesFile`).
- A reply joins the thread it answers and moves no other message exactly when no message already
  answers a ref the reply takes (`ReplyJoinsIff`, `AwaitedReplyMoves`). Every message is listed
  exactly once exactly when no chain of replies loops through two messages
  (`PartitionIffNoLoopOfTwo`, `LoopListsTwice`); one that answers itself does no harm.
- The order of refs is transitive on refs, and can run in a circle once a string that is no ref takes
  part, such as one of the same shape refused for its dots (`NotTransitiveOffRefs`). Being refs is
  enough for the order, not needed: strings none of which is a ref are in order by name.
- `nextPulseRun` drops the milliseconds of the last run, so the next run can be up to a second before
  the interval is over; `KeepsIntervalIff` says exactly when it is not. The comment at
  `web/mock/scheduled.ts:299-302` promises the whole interval.
- The settings merge is the standard merge with empty tables removed exactly when no empty table
  stands where the diff does not reach (`PatchIsPrunedMergeIff`, `UntouchedEmptyTable`).
- The page accepts a watch prefix such as `./b:c`, which it sends as `b:c`; the server refuses that,
  and with it every prefix the page sends along (`NormalizedIsAccepted`, `RefusedKeepsOld`,
  `DeafWatcher`). A watcher hears everything it is due exactly when the server keeps a prefix that
  holds its own (`TwoStagesIff`).
- A session's handle is given exactly the frames since its start was counted exactly when no earlier
  frame of its key was still kept (`GivenExactlySinceStart`, `GivenFromBefore`).
- The journal's queue stays right exactly when an id that leaves the queue is held by no message that
  stays (`StepSynced`, `SharedIdForgotten`). The journal holds all of a turn that goes on exactly when
  no frame of another turn came that does not end that one (`ForgetsExactlyForOtherTurn`).
- The comment at `web/mock/chat.ts:409` says that every message of a turn carries the turn's id. A
  stopped turn's own message is recorded without it (`CancelledLosesId`). What an operation records of
  the turn it ends carries the id exactly when the turn ran to its end or was a rerun
  (`StepCarriesIdIff`), and all messages of history carry one exactly when no turn but reruns was
  stopped in the run (`AllCarryIff`).
- A thread that moves to the front of the list while its page is to come is in no page
  (`MovedIsMissed`). One that stays under its key in every list asked is given, whatever else comes,
  goes or moves (`StayingIsGiven`), and none is given twice as long as latest messages only get later
  (`NoThreadTwice`).

## Model

| member | source | states |
|---|---|---|
| CycleFinder.FindCycle | src/testing/manifest_scan.rs:258-293 | for every graph: a returned walk is a cycle along dependencies, first and last equal and nothing else repeated, self-loops included; `None` exactly when no closed walk exists |
| CycleFinder.Search.Visit | src/testing/manifest_scan.rs:260-283 | the recursive search ends, keeps the stack a path and the finished packages ranked, and answers only real cycles |
| CycleFinder.RankedIsAcyclic | src/testing/manifest_scan.rs:274-282 | packages ranked so that each depends on earlier ones only admit no closed walk: why an exhausted search means acyclic |
| TestFiles.FindTestFiles | src/testing/source_scan.rs:423-464 | the worklist ends with the least set that holds the test directories' files and the gated modules and is closed under what its members declare |
| TestFiles.Classify | src/testing/source_scan.rs:486-487 | both classifications are the least sets of their gates, and every own-test file is a test file |
| TestFiles.MonotoneInGate | src/testing/source_scan.rs:35-46 | a gate that accepts more lines finds at least the same files |
| TestFiles.GateIff | src/testing/source_scan.rs:35-46 | the texts of the two gates, with whitespace around them alone |
| TestFiles.AddGated | src/testing/source_scan.rs:435-449 | the files gated declarations name all join, and nothing else does |
| TestFiles.FollowAll | src/testing/source_scan.rs:454-461 | following one file keeps the set within every closed set and takes in all the file declares |
| TestFiles.ItemStart | src/testing/source_scan.rs:240-262 | the loops over attributes, comments and blank lines end where the recursive reading of them does |
| TestFiles.SkipsToItem | src/testing/source_scan.rs:240-262 | what stands before the line found comes apart into whole attributes, each to the line that closes its brackets, comments and blank lines; the line itself is none of them |
| TestFiles.SkipsOnlyToItem | src/testing/source_scan.rs:240-262 | no other line has that, so the line found is the item's first |
| TestFiles.LinesBeforeItem | src/testing/source_scan.rs:240-262 | attributes begin with `#[` past whitespace; the other lines skipped are empty, whitespace, or begin with `//` |
| TestFiles.ItemPastComment | src/testing/source_scan.rs:240-262 | a gate, a comment, a blank line and the item they belong to |
| LiteralLexer.StartsInsideLiteral | src/testing/source_scan.rs:279-361 | the line loop marks each line by the state carried to it from the lines before |
| LiteralLexer.LexLine | src/testing/source_scan.rs:284-358 | the character loop, with its jumps, leaves a line in the state the step-by-step reading does |
| LiteralLexer.MarksExactlyInsideLines | src/testing/source_scan.rs:276-361 | for any text of plain code, strings, raw strings with any number of hashes, character literals, lifetimes, line comments and comments nested to any depth, a line is marked exactly when the newline before it lies inside a string or block comment; one space after `'\''` no literal may hold a quote |
| LiteralLexer.StrayScan | src/testing/source_scan.rs:311-321 | after the apostrophe that `'\''` leaves over, lifetimes and literals without a quote are read right, and all that comes after them |
| LiteralLexer.SwallowedApostrophe | src/testing/source_scan.rs:317-321 | such an apostrophe, a space and an apostrophe are taken for one literal, whatever follows |
| LiteralLexer.QuoteOpensString | src/testing/source_scan.rs:293-321 | a character literal that holds a quote leaves the lexer in a string there, whatever follows |
| LiteralLexer.FlagsFromScan | src/testing/source_scan.rs:279-361 | reading line by line with only the state carried over gives the flags of reading the whole text at once, across any line split |
| LiteralLexer.SpacedScan | src/testing/source_scan.rs:288-357 | any token before a space or newline is read as one, its newlines marked as inside for strings and block comments alone, and the lexer is back in code after it |
| LiteralLexer.StrScan | src/testing/source_scan.rs:324-328 | a string ends at its closing quote, past any escapes |
| LiteralLexer.RawScan | src/testing/source_scan.rs:329-342 | a raw string, whose text holds no quote with as many hashes as opened it, ends at the first one that has them |
| LiteralLexer.RawOnlyApart | src/testing/source_scan.rs:296-310 | an `r`, hashes and a quote open a raw string exactly when no word goes on into the `r`; otherwise, as in a byte string, its quote opens a string with escapes |
| LiteralLexer.ByteRawMisread | src/testing/source_scan.rs:296-310 | so the line after the whole literal `br"\"` is marked |
| LiteralLexer.CommentScan | src/testing/source_scan.rs:343-355 | a comment with comments nested in it to any depth ends exactly where it closes |
| LiteralLexer.MisreadQuote | src/testing/source_scan.rs:311-321 | two well-formed character literals one space apart that the lexer takes for the start of a string |
| SimulatedTime.AdvanceTwice | web/mock/env.ts:332-344 | if a move by `a + b` ends, so do the moves by `a` and then `b`, and they fire the same timers in the same states, whatever the actions set and cancel |
| SimulatedTime.AdvanceOnce | web/mock/env.ts:332-344 | conversely, if the moves by `a` and `b` end, so does the move by `a + b`, in the same state |
| Environment.EveryMoveInOrder | web/mock/env.ts:332-344 | at any point of any run of setting and removing timers, moves, steps, switches of mode, changes of scale, resets and firings on the wall clock, with no time to wait negative, a move fires timers by due time and then by the order they were set in, none before its start or after its target, leaves nothing due, and moves the clock by its length |
| Environment.LivedKept | web/mock/env.ts:242-354 | in every such run timers keep orders of their own, and manual time is in order, with nothing due in its past |
| SimulatedTime.FiresOrderly | web/mock/env.ts:227-231 | timers fire by due time and then by the order they were set in, none before the move's start or after its target, and the clock keeps step |
| SimulatedTime.AdvancedOrderly | web/mock/env.ts:332-344 | after a move nothing due by its target remains, and clock and simulated time moved by exactly its length |
| SimulatedTime.AdvancedIsOne | web/mock/env.ts:332-344 | where a move leads is one state, however many firings it is given to end |
| SimulatedTime.EveryDelayedMoveRests | web/mock/env.ts:336-341 | when actions set timers a positive time ahead, every move ends |
| SimulatedTime.ZeroDelayNeverRests | web/mock/env.ts:198-204 | an action that sets itself again at once keeps every move from ending |
| SimulatedTime.ThroughWallClock | web/mock/env.ts:316-331 | out of manual time, a wait, and back: each timer has what it had left less its share of the wait at the scale |
| SimulatedTime.SwitchAndBack | web/mock/env.ts:316-331 | a switch and back at one instant keeps all delays if and only if the scale is positive or none was left |
| SimulatedTime.SwitchForgetsDelay | web/mock/env.ts:316-331 | at scale zero a timer with a wait of 5 comes back with none |
| SimulatedTime.NextDueIs | web/mock/env.ts:256-268 | the timer picked is due by the limit and none due runs before it; none is picked exactly when none is due |
| Environment.MockEnv.FindNextDue | web/mock/env.ts:257-268 | the loop over the timers finds that timer |
| Environment.MockEnv.AddTimer | web/mock/env.ts:242-249 | the new timer's due time in either mode, and an order of its own |
| Environment.SetsTimer | web/mock/env.ts:234-249 | a timer set is due that much later in manual time, and in scaled time the delay at the scale later on the wall clock |
| Environment.SetThenStepped | web/mock/env.ts:234-249 | set in manual time where no other waits, it runs at the next step, just that much later |
| Environment.SetThenManual | web/mock/env.ts:316-331 | set in scaled time and switched to manual time after a wait, it has its delay left, less the wait over the scale |
| Environment.SwitchedTimer | web/mock/env.ts:316-331 | what each timer has left after a switch either way, none for an overdue one |
| SimulatedTime.WithoutTakesOne | web/mock/env.ts:251-254 | removing a timer takes out the one with its order and leaves the others as they were; with no such timer, nothing goes |
| Environment.MockEnv.MoveClockTo | web/mock/env.ts:280-284 | clock and simulated time move together |
| Environment.MockEnv.RunTimer | web/mock/env.ts:227-231 | the timer goes before its action sets and cancels others |
| Environment.MockEnv.Advance | web/mock/env.ts:332-344 | refused in scaled time; otherwise the state the firings up to the target lead to, and how many there were |
| Environment.MockEnv.Step | web/mock/env.ts:345-353 | runs the first timer of all, moving time forward to it but never back |
| Environment.SteppedIs | web/mock/env.ts:345-353 | no timer runs before the one a step runs, and time stays where it is when that one is overdue |
| Environment.MockEnv.SetTimeMode | web/mock/env.ts:316-331 | every timer is put on the other clock; the same mode again changes nothing |
| Environment.MockEnv.Reset | web/mock/env.ts:380-394 | no timer is left, time is scaled, and clock and scale are those of the start |
| Environment.ResetBegins | web/mock/env.ts:380-394 | after any run, a reset leaves the environment as it began, but for the application and the order the next timer gets |
| TurnGate.RunGoing | web/mock/env.ts:360-378 | in every run, whatever the stages' actions come to and cancel, only stages the hold holds wait, in the order they came |
| TurnGate.HoldsIff | web/mock/env.ts:176-183 | which stages each hold stops |
| TurnGate.RunFreely | web/mock/env.ts:139-140 | in every run no stage runs while the hold holds it |
| TurnGate.RunOnce | web/mock/env.ts:362-366 | in every run a stage that waited runs at most once, and waits no more |
| TurnGate.ReleasesInOrder | web/mock/env.ts:129-137 | easing the hold runs exactly the waiting stages it lets through, in the order they waited |
| TurnGate.CancelledNeverRunsIff | web/mock/env.ts:360-367 | a release runs only stages that still wait if and only if none it lets through cancels a later one |
| TurnGate.CancelledStillRuns | web/mock/env.ts:362-366 | of two waiting stages let through, the second runs although the first cancels it |
| TurnGate.CancelledRuns | web/mock/env.ts:360-378 | a run that comes to two such stages under a hold and lifts it |
| TurnGate.MockGate.WhenTurnReleased | web/mock/env.ts:368-378 | a stage runs at once or waits, with its cancel |
| TurnGate.MockGate.HoldTurns | web/mock/env.ts:360-367 | the loop over the stages that waited comes to the release of them |
| TurnJournal.JournalMeansRaw | web/mock/turn-journal.ts:17-50 | for any frames, the compacted journal and the uncompacted one agree on the turn, its frames once streamed pieces are joined and usage set aside, and the newest usage alone is kept |
| TurnJournal.BelongsIff | web/mock/turn-journal.ts:69-87 | the frames that belong to a turn, by kind |
| TurnJournal.FrameBegins | web/mock/turn-journal.ts:33-35 | a frame of another turn than the one kept begins that turn with it alone |
| TurnJournal.FrameFollows | web/mock/turn-journal.ts:36-49 | a frame of the turn comes last; a usage takes the place of earlier ones |
| TurnJournal.PieceJoins | web/mock/turn-journal.ts:39-49 | a piece of a stream is put to the last one exactly when kind and call are the same |
| TurnJournal.OthersLeaveTurn | web/mock/turn-journal.ts:26-31 | a frame of no turn and another turn's end leave the turn as it is; its own end leaves none |
| TurnJournal.KeepSays | web/mock/turn-journal.ts:35-49 | one frame kept preserves that agreement |
| TurnJournal.OneTurnKeepsAll | web/mock/turn-journal.ts:25-34 | over the frames of one turn, nothing of it is dropped |
| TurnJournal.ForgetsExactlyForOtherTurn | web/mock/turn-journal.ts:25-34 | over any log in which a turn goes on, all its frames are held if and only if no frame of another turn came since that does not end that one |
| TurnJournal.MockTurnJournal.RecordFrame | web/mock/turn-journal.ts:17-50 | the method's early returns and in-place edits come to the recording step |
| Pieces.CutPieces | web/mock/chat-scenarios.ts:89-101 | the loop over the words gives the packing of them |
| Pieces.PiecesConcat | web/mock/chat-scenarios.ts:88-101 | the pieces together are the text without its leading whitespace |
| Pieces.PiecesOk | web/mock/chat-scenarios.ts:85-101 | a piece of more than 28 characters is one word with its whitespace, and no piece is empty |
| Pieces.PiecesGreedy | web/mock/chat-scenarios.ts:92-98 | no piece but the last had room for the next word |
| Pieces.IsWordIff | web/mock/chat-scenarios.ts:85-101 | a word is characters that are no whitespace, and then whitespace |
| Pieces.StreamedTextIsOneDelta | web/mock/chat-scenarios.ts:104-115 | a text streamed without interruption stands in the journal as one delta holding it |
| Chat.RunOrderly | web/mock/chat.ts:662-781 | in every run at most one turn is in flight, messages wait only while one is, and a failure can be retried only when none is |
| Chat.TurnEnds | web/mock/chat.ts:372-421 | how any turn ends: it fails, with an error and no response, if and only if it is the first run of a page's message whose first five letters are "error" in any case; it can then be retried, unless another message waits, whose turn starts |
| Chat.FirstRunEnds | web/mock/chat.ts:372-421 | all that is broadcast from a message that finds nothing running to the end of its turn, and whether it can be retried |
| Chat.TurnRecorded | web/mock/chat.ts:411-421 | what a finished turn leaves in history, and where sessions' messages stand in it |
| Chat.TurnStops | web/mock/chat.ts:749-759 | what a stopped turn tells and leaves in history, and that the next message's turn starts |
| Chat.MessageComes | web/mock/chat.ts:656-683 | a message starts its turn when none runs, and otherwise waits last, with all it carries told to every page |
| Chat.SessionMessageComes | web/mock/chat.ts:708-733 | a session's message starts a turn when none runs, and is otherwise told and recorded as one of the running turn |
| Chat.RetryIff | web/mock/chat.ts:735-747 | a retry runs the latest failure again if and only if it has the id and nothing runs |
| Chat.OnTheWayTells | web/mock/chat.ts:341-358 | what a turn sends on its way reaches every page and changes nothing else |
| Chat.SentNowRuns | web/mock/chat.ts:765-772 | a message sent now stops the turn that runs and is the next one to; the others keep their order, and the stopped turn is recorded |
| Chat.SentNowTells | web/mock/chat.ts:765-772 | what pages are told and history gets when a message is sent now |
| Chat.WithdrawnTells | web/mock/chat.ts:775-781 | a message withdrawn leaves its place, which pages are told |
| Chat.UnknownDoesNothing | web/mock/chat.ts:749-781 | an id of no message or turn has nothing happen |
| Chat.RetryRunsAgain | web/mock/chat.ts:741-747 | a retry runs the failed message again and its end records no second copy of it |
| Chat.StepCarriesIdIff | web/mock/chat.ts:406-421 | history only grows, and what an operation adds to it carries the id of the turn it ends, if and only if the turn ran to its end or was a rerun |
| Chat.AllCarryIff | web/mock/chat.ts:749-772 | in every run, all messages of history name their turn if and only if no turn but reruns was stopped, by a cancel or by sending another message now |
| Chat.CancelledLosesId | web/mock/chat.ts:749-759 | a message whose turn is cancelled stands in history without the turn's id |
| Chat.RunFolded | web/mock/chat.ts:726-732 | in every run what sessions sent into a turn carries its id |
| Chat.StepPlaces | web/mock/chat.ts:257-265 | each operation moves messages between history, the turn, the queue and the withdrawn ones without losing or doubling any |
| Chat.EveryMessageInOnePlace | web/mock/chat.ts:662-781 | in every run a message is in exactly as many of those places as the times it came |
| Chat.StepSynced | web/mock/chat.ts:662-690 | an operation keeps the journal's queue equal to the waiting messages if and only if no staying message has the leaving one's id |
| Chat.SharedIdForgotten | web/mock/chat.ts:775-781 | two messages under one id wait; withdrawing one leaves the journal with neither |
| Chat.JournalHoldsQueue | web/mock/agent-socket.ts:144-145 | in every run of messages with ids of their own, the queue rebuilt from broadcast frames is the waiting messages in order, send-now included |
| Chat.JournalQueueIs | web/mock/turn-journal.ts:17-24 | that rebuilt queue is the one the turn journal holds |
| Chat.ChatSimulator.MessageArrives | web/mock/chat.ts:662-683 | starts a turn when idle, else queues and announces |
| Chat.ChatSimulator.ReceiveFromSession | web/mock/chat.ts:715-733 | starts a turn when idle, else folds the message into the running turn |
| Chat.ChatSimulator.TurnFinishes | web/mock/chat.ts:406-421 | the turn's end, its record, and the start of the next |
| Chat.ChatSimulator.CancelRunning | web/mock/chat.ts:749-759 | the stop of a turn and the start of the next |
| Chat.ChatSimulator.RetryTurn | web/mock/chat.ts:741-747 | refused unless it is the latest failure and nothing runs |
| Chat.ChatSimulator.SendWaitingNow | web/mock/chat.ts:765-772 | the splice, unshift and cancels come to the send-now step; false exactly when the message does not wait |
| Chat.ChatSimulator.WithdrawWaiting | web/mock/chat.ts:775-781 | the message leaves the queue; false exactly when it does not wait |
| Lane.RunValid | assets/workbench/sdk.js:165-184 | in every interleaving, `active` counts the callers holding a slot and stays within the limit, callers wait only while all slots are held, and slots are granted in order of arrival |
| Lane.Drains | assets/workbench/sdk.js:178-182 | with a limit of at least 1, tasks ending one after the other serve every waiting caller |
| Lane.ServesEveryoneIffSlots | assets/workbench/sdk.js:165-184 | everyone can be served if and only if the limit is at least 1 |
| Lane.Limiter.Enter | assets/workbench/sdk.js:168-175 | a caller takes a free slot or waits behind the others |
| Lane.Limiter.Leave | assets/workbench/sdk.js:178-182 | an ending task hands its slot to the caller that waited longest, else frees it |
| SessionRouter.RouterValid | assets/workbench/sdk.js:602-623 | in every run the buffer is empty while no start is in flight, and each route leads to a handle of its key |
| SessionRouter.BufferHoldsWaited | assets/workbench/sdk.js:615-623 | the buffer holds an unclaimed key's frames since starts were last all over, in order |
| SessionRouter.HandleIsGiven | assets/workbench/sdk.js:731-752 | early frames and then routed ones are the frames of the session since its start was counted, in order and once each, after those already kept for its key |
| SessionRouter.GivenExactlySinceStart | assets/workbench/sdk.js:731-752 | they are exactly the frames since the start if and only if none of its key was kept before |
| SessionRouter.GivenFromBefore | assets/workbench/sdk.js:731-752 | a frame kept because of another start, given to a session whose start is counted only after it |
| SessionRouter.LastHandleIsGiven | assets/workbench/sdk.js:602-623 | a key's latest handle gets every later frame of it; that of a followed session is given those alone |
| SessionRouter.SessionRoutes.Route | assets/workbench/sdk.js:615-623 | a frame goes to its route, into the buffer, or nowhere |
| SessionRouter.SessionRoutes.FinishStart | assets/workbench/sdk.js:742-752 | the end of a start, its early frames, and the buffer emptied after the last |
| SessionRouter.SessionRoutes.FollowSession | assets/workbench/sdk.js:784-804 | a followed session gets a handle of its own without early frames |
| UnifiedDiff.FindBlock | web/mock/checkpoints.ts:286-292 | the loops find what the longest common start and end leave |
| UnifiedDiff.Diff | web/mock/checkpoints.ts:282-310 | for any two contents, the text names the file's sides and one hunk, which takes the old lines to the new and whose reverse takes them back, with the counts of its body; unless the path breaks a line, such a hunk is what the text reads back as |
| UnifiedDiff.LinesJoin | web/mock/checkpoints.ts:283-285 | the lines joined by newlines give the content back, but for a last newline |
| UnifiedDiff.HunkSpans | web/mock/checkpoints.ts:294-302 | the hunk reaches three lines to either side of the changed block, cut off at the ends of the content |
| UnifiedDiff.TextBegins | web/mock/checkpoints.ts:303-309 | the two lines that name the sides |
| UnifiedDiff.DiffReads | web/mock/checkpoints.ts:302-309 | the text, header numbers and body lines included, reads back as the hunk it was written from |
| UnifiedDiff.PatchGivesNew | web/mock/checkpoints.ts:293-301 | carrying out the hunk of a changed block gives the new lines |
| UnifiedDiff.ReversedGivesOld | web/mock/checkpoints.ts:293-301 | carrying out its reverse gives the old ones |
| UnifiedDiff.CountsAre | web/mock/checkpoints.ts:302-306 | the header's numbers count the body's lines |
| Checkpoints.ChangedPaths | web/mock/checkpoints.ts:121-130 | every path whose content differs, once, sorted, with the right kind |
| Checkpoints.WrittenAll | web/mock/checkpoints.ts:99-116 | writing sorted paths back sets each as asked, unless a path above a later file was removed with all in it |
| Checkpoints.UnderIff | web/mock/workspace-tree.ts:130-133 | what lies in a folder has the folder's name up to a slash; names that only start the same do not |
| Checkpoints.CoversIff | web/mock/checkpoints.ts:473-474 | a restore is about the path asked for and what lies in it, a slash at its end or not |
| Checkpoints.UndoneSplits | web/mock/checkpoints.ts:509-517 | reverted and skipped paths split a checkpoint's changes: those still as it left them, and the others |
| Checkpoints.UndoneIs | web/mock/checkpoints.ts:509-517 | what an undo leaves at every path, whatever the live files: one goes with a removed file only when cutting it off before a slash gives that file |
| Checkpoints.UndoneExactlyIff | web/mock/checkpoints.ts:509-517 | undo puts back exactly the checkpoint's paths that are still as it left them and changes no other, if and only if it removes no file with another live file under it |
| Checkpoints.UndoTakesMore | web/mock/checkpoints.ts:509-517 | two writes and an undo of the first that loses the second |
| Checkpoints.UndoneTwice | web/mock/checkpoints.ts:497-527 | where undoing an undo leaves every path, whatever the live files |
| Checkpoints.UndoingUndoIsIdentityIff | web/mock/checkpoints.ts:497-527 | undoing any checkpoint and then that undo gives the live files back if and only if no file was restored over a folder with a live file the undo leaves alone |
| Checkpoints.UndoLosesFile | web/mock/checkpoints.ts:497-527 | a history in which it does not |
| Checkpoints.Repository.Record | web/mock/checkpoints.ts:147-165 | appends the live tree and counts the paths it changes |
| Checkpoints.Repository.BeforeAction | web/mock/checkpoints.ts:172-179 | always names a checkpoint equal to the live tree, a new one only when the newest differs |
| Checkpoints.Repository.Undo | web/mock/checkpoints.ts:497-527 | the tree, the two path lists and the new checkpoint of an undo |
| Checkpoints.Repository.Restore | web/mock/checkpoints.ts:459-495 | every path at or under the one asked for is as the checkpoint has it and no other changes; refused exactly when the checkpoint has none there |
| MailRefs.CompareRefsTotal | web/mock/mail-threads.ts:208-215 | on refs the comparison is antisymmetric, and zero for equal refs alone |
| MailRefs.CompareRefsIs | web/mock/mail-threads.ts:203-215 | refs go by agent, then `user` before `agent`, then id |
| MailRefs.ParseRefIff | web/mock/mail-threads.ts:192-201 | which strings are refs, and their parts |
| Text.LessIff | web/mock/mail-threads.ts:211-214 | the order of names: by the first place where they part, the shorter first when none does |
| MailRefs.CompareRefsTransitive | web/mock/mail-threads.ts:208-215 | on refs it is transitive |
| MailRefs.ParseInjective | web/mock/mail-threads.ts:192-201 | different refs have different parts |
| MailRefs.NotTransitiveOffRefs | web/mock/mail-threads.ts:211 | three strings of a ref's shape, one refused for its dots, that it orders in a circle |
| MailThreads.ChainOf | web/mock/mail-threads.ts:236-245 | the loop ends even when replies loop, with the chain of the recursive definition |
| MailThreads.BuildThreads | web/mock/mail-threads.ts:229-258 | the two maps filled entry by entry give each root its replies, sorted |
| MailThreads.PartitionIffNoLoopOfTwo | web/mock/mail-threads.ts:246-253 | every message is in exactly one thread if and only if no chain of replies loops through two different messages |
| MailThreads.LooplessPartition | web/mock/mail-threads.ts:246-253 | so it is whenever no chain of replies loops |
| MailThreads.ThreadInOrder | web/mock/mail-threads.ts:224-257 | a thread holds exactly the messages whose chain reaches its root, no time before an earlier one, at one time by the length of the chain and then by agent, side and id of the first ref, each before its replies of the same instant, even when replies loop |
| MailThreads.ReplyJoinsIff | web/mock/mail.ts:356-390 | a delivered reply joins the answered message's thread and moves no other message if and only if none awaits the refs it takes |
| MailThreads.AwaitedReplyMoves | web/mock/mail.ts:356-390 | a reply that takes an awaited ref moves the message that awaited it into its own thread |
| MailThreads.DeliveredReplyJoins | web/mock/mail.ts:458-470 | a reply to all keeps the thread's id and participants and adds that message alone |
| MailThreads.LatestOf | web/mock/mail-threads.ts:292-298 | the loop finds the message with the greatest time, the later listed one of a tie |
| MailThreads.LoopListsTwice | web/mock/mail-threads.ts:236-253 | of two messages answering each other, one at least is not listed exactly once |
| MailPages.CursorRoundTrip | web/mock/mail.ts:60-70 | a rendered cursor parses back to its key if and only if the thread's id is a ref on one line |
| MailPages.CursorText | web/mock/mail.ts:60-62 | the text of a cursor |
| MailPages.OneLineIff | web/mock/mail.ts:66 | where a line ends |
| MailPages.CompareKeysTotal | web/mock/mail.ts:73-76 | the list's order is antisymmetric and zero for equal keys alone |
| MailPages.CompareKeysIs | web/mock/mail.ts:73-76 | the later latest message first, and at one time the ref before |
| MailPages.CompareKeysTransitive | web/mock/mail.ts:73-76 | and transitive |
| MailPages.AfterRow | web/mock/mail.ts:125-126 | what comes after a row's cursor is the list from the next row on |
| MailPages.FollowGivesAll | web/mock/mail.ts:118-132 | following `next` from any place with any limit of at least 1 gives all that the list had after it, in order and once, even when newer threads come in between |
| MailPages.FollowAscends | web/mock/mail.ts:118-132 | however the list changes between requests, the rows given come in its order, past the place asked from, no key twice |
| MailPages.NoThreadTwice | web/mock/mail.ts:118-132 | so no thread is given twice while latest messages only get later |
| MailPages.StayingIsGiven | web/mock/mail.ts:118-132 | a thread under one key in every list asked is given, once the last page is |
| MailPages.MovedIsMissed | web/mock/mail.ts:118-132 | a thread that moves to the front between two requests, which both lists hold and no page does |
| MailPages.FollowGivesWholeList | web/mock/mail.ts:118-132 | from the first page, the whole list |
| Filenames.FreeFilename | web/mock/mail.ts:283-293 | the name itself if free, else the first free numbered one, found within as many tries as names are taken |
| Filenames.NameUploads | web/mock/mail.ts:368-373 | no two attachments of a message get one name, and each keeps its own unless an earlier one has it |
| Filenames.NumberedApart | web/mock/mail.ts:290 | different numbers give different names, whatever dots the name has |
| Filenames.NumberedWithin | web/mock/mail.ts:285-291 | the number stands before the last dot, with a space and brackets |
| Filenames.NumberedAfter | web/mock/mail.ts:285-291 | or at the end of a name with no dot past its first character |
| JsonPatch.ApplyJsonPatch | web/mock/config.ts:64-86 | the key-by-key edit comes to one result whatever order the keys are taken in |
| JsonPatch.PatchTwice | web/mock/config.ts:64-86 | applying any diff, `$inline` included, a second time changes nothing |
| JsonPatch.EveryPath | web/mock/config.ts:60-63 | at every path of keys the document then holds what the diff says: what it held where the diff is silent, nothing where it removes, the value where it sets one outright, and never an empty table where it merges |
| JsonPatch.PatchIsPrunedMergeIff | web/mock/config.ts:54-86 | without `$inline` it is MergePatch of section 2 of RFC 7396 followed by the removal of empty tables, if and only if no empty table stands outside the diff's reach |
| JsonPatch.TidyDocument | web/mock/config.ts:81 | so it is on every document without empty tables |
| JsonPatch.MergedStaysTidy | web/mock/config.ts:81 | and the merge leaves none behind in such a document |
| JsonPatch.UntouchedEmptyTable | web/mock/config.ts:64-86 | a document whose empty table the merge keeps and the removal would take |
| PulseSchedule.NextRunIsLeast | web/mock/scheduled.ts:284-319 | the run reported is the least instant not before the current minute, not before the interval since the last run's second, and inside the hours, overnight ones included; none exactly for a pulse that is disabled, has a refused schedule or hours, or a window that never opens |
| PulseSchedule.IntoHoursIsLeast | web/mock/scheduled.ts:284-292 | the moment found is the first inside the window from the one given, on that day or the next |
| PulseSchedule.ReportStands | web/mock/scheduled.ts:304-319 | asked again before the minute it named, it names the same instant |
| PulseSchedule.KeepsIntervalIff | web/mock/scheduled.ts:312-318 | the whole interval is kept if and only if the last run was on a whole second, or it was over by the current minute, or it ends outside the hours |
| PulseSchedule.HalfASecondEarly | web/mock/scheduled.ts:312-318 | an hourly pulse reported half a second early |
| PulseSchedule.ScheduleRead | web/mock/scheduled.ts:119-127 | a written duration reads as its milliseconds, and a zero one is refused |
| PulseSchedule.ScheduleAcceptedIff | web/mock/scheduled.ts:119-127 | a schedule is accepted exactly when it is digits, not all zero, and `s`, `m`, `h` or `d` |
| PulseSchedule.HoursRead | web/mock/scheduled.ts:265-278 | written hours read as their window, and times of no day are refused |
| PulseSchedule.HoursForm | web/mock/scheduled.ts:265-278 | hours are refused unless they are two times with a dash between, each two numbers with a colon, and then mean those times |
| Watches.SameWithin | web/mock/sockets.ts:113-116 | the page's and the server's tests for a path under another agree on all strings |
| Watches.ConcernsIff | web/mock/sockets.ts:135-141 | a change concerns a prefix at, above or under it, by whole names |
| Watches.NormalizePrefix | assets/workbench/sdk.js:369-387 | the loop over the segments, refusals included, gives the normal prefix |
| Watches.NormalIs | assets/workbench/sdk.js:369-387 | the normal prefix has the segments but the empty and `.` ones |
| Watches.RefusedIff | web/mock/sockets.ts:87-111 | which prefixes the page refuses and which the server |
| Watches.NormalizedIsAccepted | web/mock/sockets.ts:87-111 | what the page sends is already normal for the server, which refuses it if and only if the prefix holds a NUL or its first name a colon |
| Watches.NormalizeTwice | assets/workbench/sdk.js:369-387 | normalizing is idempotent but for a colon that moved to the front |
| Watches.SortIsStable | web/mock/sockets.ts:137-139 | the changes come out by path, those of one path as they came |
| Watches.DeliverToWatchers | assets/workbench/sdk.js:407-417 | the loop calls each watcher with its cut, in order, and skips empty cuts |
| Watches.TwoStagesIff | web/mock/sockets.ts:135-141 | cut by the server for all prefixes and then by the page for one, a watcher hears exactly the changes that concern it, sorted, if and only if the server keeps a prefix its own is within |
| Watches.NothingWatched | web/mock/sockets.ts:135-141 | a connection that watches nothing is sent nothing |
| Watches.EachCalledOnce | assets/workbench/sdk.js:407-417 | with watchers told apart, each is called once with its cut, or not at all when the cut is empty |
| Watches.EveryWatcherIsCalled | assets/workbench/sdk.js:403-427 | through any adding, removing and reconnecting, while the server refuses none of the prefixes, a frame calls every watcher once with exactly the changes that concern it |
| Watches.RunInStep | web/mock/agent-socket.ts:223-239 | in every run the server keeps the page's prefixes whenever it refuses none |
| Watches.Unwatched | assets/workbench/sdk.js:424-427 | in any run a watcher that stops goes alone, the others keep their order, and the server is sent what is left |
| Watches.UnwatchedBefore | assets/workbench/sdk.js:424-427 | one that has stopped before stops nothing |
| Watches.RefusedKeepsOld | web/mock/agent-socket.ts:223-239 | one refused prefix keeps the server on the old ones |
| Watches.DeafWatcher | web/mock/agent-socket.ts:223-239 | a page whose watcher of `d` goes unheard after it watches `./b:c` |
| Watches.WatchLink.AddWatcher | assets/workbench/sdk.js:420-427 | a watcher joins under its normal prefix and the prefixes are sent; a refused one changes nothing |
| Watches.WatchLink.RemoveWatcher | assets/workbench/sdk.js:424-427 | a watcher leaves and the prefixes are sent; again, nothing happens |
| Watches.WatchLink.Opened | assets/workbench/sdk.js:512-518 | after a reconnect the server has the prefixes again, if there are watchers |

## Left out

- SimulatedTime.AdvanceTwice: calls of `advance` that overlap, and what a fired action does after the firing, are not part of it; an action's timers are set and cancelled at its firing, where the source lets the event loop settle.
- Environment.EveryMoveInOrder: no timer is set a negative time ahead and no move goes back; that the mock's callers keep to it is not modelled.
- Environment.MockEnv.Reset: the rejection of what slept, and what the code that slept does then, are not part of it.
- SimulatedTime.ThroughWallClock: the wall clock only passes; that a scaled timer fires when its wall-clock moment comes is not modelled.
- MailPages.FollowGivesAll: a thread that moves across the place reached between two requests is excluded by its premise; `FollowAscends`, `NoThreadTwice` and `StayingIsGiven` are for lists that change in any way.
- PulseSchedule.NextRunIsLeast: the timezone keeps one offset of whole seconds; the time zone tables and the repeated or skipped hour of a change are not modelled.
- JsonPatch.ApplyJsonPatch: works on values, so it does not capture that the source edits the document's own nested objects; keys that JavaScript objects treat specially are plain keys.
- MailThreads.BuildThreads: a message is a value told apart by its refs, where the source compares objects.
- LiteralLexer.MarksExactlyInsideLines: texts are the renderings of tokens between spaces and newlines, as stated, without a quote in a literal one space after `'\''`; alphanumeric characters are the ASCII ones.
- Pieces.StreamedTextIsOneDelta: lengths are in characters rather than UTF-16 units, and whitespace is the ASCII set.
- TurnGate.RunGoing: an action that sets the hold itself is not part of it; what a `reset` does to the gate is left out too.
- The timing of a scenario's frames: a turn's timers are the events `Emit` and `Finish`; what it says is a parameter, and usage totals, busy and unread marks and hub events are left out.
- `item_end`, `gated_lines` and `resolve_from` of the source scan, the regular expression that reads a `mod` declaration, and the file a module name refers to (a parameter).
- How the manifest scan reads its graph from TOML; the graph is a parameter, its keys' order any order.
- Grouping the copies of one message across inboxes, mail previews, the archive, folders, and the sorting of participants; the entries are given.
- Checkpoint ids and times (a checkpoint's place in the history stands for its id), and the stores of the config and hub repositories.
- Session handlers' own replay of early frames by type, and resynchronisation after a lag.
- HTTP, WebSocket, process and command-line plumbing, and reading and writing JSON and TOML.
- Strings are sequences of characters; Unicode normalisation and surrogate pairs are not modelled.
