# Verified models of turbopaneld

A Dafny model of the parts of the TurboPanel daemon that have to survive crashes, lost
connections and repeated commands, and of two small languages its tooling reads. Each part is
modelled in the form the daemon has it in (loops and changing state as methods and classes, pure
code as functions) and proved for all inputs, all runs and all crash points.

- **Storage restore** (`RestoreSwap`, `RestoreServices`): the restore script that swaps an
  archive into a directory through a stage, an aside directory and a completion marker, and the
  intent file that remembers which containers were stopped. Every command may work, fail or be
  the last thing that happens; a method that meets a death returns at once, so its postcondition
  speaks about every moment at which the helper or the daemon can be killed.
- **Command outbox** (`Pacing`, `CommandAnswers`, `DeployProgress`, `OutboxBook`,
  `OutboxSession`, `OutboxRetention`, `OutboxFlush`, `Outbox`, `OutboxLife`):
  outcomes of commands are journaled, sent, kept until confirmed, resent at a bounded rate and
  answered for after a crash. `OutboxBook` is what the outbox knows, as a value with one
  consistency invariant per command, `OutboxSession` the socket and what was sent on it,
  `OutboxRetention` what is kept and for how long, `OutboxFlush` what is sent when outcomes are
  let go of, `Outbox` the code on them, and `OutboxLife`
  its runs. `DeployProgress` is the step
  plan from which an interrupted deploy tells whether the new release was made live.
- **Type language of the contract drift check** (`TypeSyntax`, `TypeParser`, `TypeCursor`,
  `TypePrinter`, `TypeWriting`, `TypeMeaning`, `TypeOrder`, `TypeRelation`, `TypeComplete`,
  `TypeNames`, `TypeAliases`, `TypePins`): parser, alias expansion, canonical printer and subtype
  test, with a meaning for types (the set of their values) that all of them are measured against.
  `TypeWriting` has the ways a type can be written, each with the type it means; the theorems go
  from there to the values an object of a declared type carries.
- **Fabric** (`Cidr`, `FabricPolicy`, `FabricRoutes`, `FabricTables`, `WgLines`, `WgConf`,
  `WgParse`, `Forwarding`): which ranges a payload may route, the two route planners that share
  one table and what the table holds after them,
  the WireGuard configuration with its filter and its two parsers, and the forwarding rules that
  follow the persisted state.
- **Copy queue** (`CopyQueue`): backup copies with their retry schedule and reports.
- **Licence expressions** (`Spdx`, `SpdxTrees`, `SpdxMeaning`): the classifier for SPDX
  expressions. `Text` and `Prelude` hold what several parts share.

`dafny verify dfyconfig.toml` checks the whole project.

## What the proofs found

Some promises hold only under a condition. Each has a failing case that is proved; where the
condition is proved to be the exact one, the entry says "exactly", and where it says "can" the
condition is proved to be necessary only.

- The restore script ignores whether line 120 of `src/backups/copy-restore.ts` removed a stale
  marker. If it did not, a later run can take a half-done swap for a finished one. When that run
  then ends with code 3 or 4, exactly the entries aside are lost (`MarkerGivesUpAside`), and that
  can be the whole of a restore that succeeded (`StaleMarkerLosesCopy`). When every such removal
  works nothing is ever lost (`RunMany`).
- It also ignores whether line 134 removed the aside directory. A run with code 0 leaves a copy
  that every later run refuses with code 6 exactly when that removal left the directory
  (`Copy.Run`, `RunInterrupted`, `RestoredThenStuck`).
- A restore forgets stopped containers: exactly the leftovers of an earlier one whose start failed
  and, after a refused stop, the containers that did not come back
  (`RestoreServices.Host.Restore`, `LeftoverForgotten`, `StuckForgotten`).
- A command accepted again on a socket on which it was answered before can lose its new outcome
  without a send: `flushHeld` takes the old mark for a send (`MarkedOutcomeIsLost`). Each flush
  loses exactly the held outcomes with such a mark (`Outbox.Outbox.FlushHeld`), and without such
  an acceptance nothing is ever lost this way (`OutboxLife.Life`).
- The pacing bound covers kept outcomes only; answers to repeated dispatches are not paced
  (`RepeatedDispatchesAreNotPaced`).
- A lost outcome write can change the answer after a crash (`LostWriteChangesTheAnswer`); with the
  writes working all answers agree (`OneAnswerPerAcceptance`).
- A step plan that shows the release live can be followed by one that denies it, exactly when a
  nested failure puts the only sign back to pending (`DeployProgress.Report`, `HealthPutBack`,
  `StartPutBack`).
- A union under an intersection prints ambiguously (`UnionUnderIntersectionIsAmbiguous`).
- The subtype test of the drift check accepts only what holds (`AssignableIsSound`), but not all of
  it. It is exact between types without named types, intersections, read-only arrays and the other
  shapes that `Source` and `Target` exclude (`AssignableExactly`); five lemmas of `TypeComplete`
  give a pair for the excluded shapes where it says no and the values are included
  (`BooleanSpelledOut`, `ReadonlyMatters`, `RequiredNever`, `OptionalUnknown`, `TwoObjects`).
- One reconcile is not always enough for the routes; `OnePassSettlesIff` says exactly when, and
  `OldLanRouteHoldsBack` gives a host.
- A pause cut short after its mark leaves the peer forwarding pairs in place through the next
  daemon start unless each is also a LAN pair (`PauseCutShort`, `PairOutlivesPause`).

## Assumptions

- Names in a restored archive are not the reserved `.tp-restore-*` names other than the
  temporary marker (`src/backups/copy-backup.ts` lines 227 to 232 leave the others out).
- Each exported call of the outbox is one step; a command's id is safe as a file name, and ids,
  containers and jobs are numbers since only equality matters.
- The intent file of a restore, when there is one, is as the daemon last wrote it. A restore helper
  that cannot be started is one killed at its first command.
- A step plan names each step once, and one plan is made per deploy.
- Clocks, sockets, failures and deaths are parameters: a function from the number of the
  operation to its fate, one function for each kind of operation. The order of sorted lists is
  any comparison.
- Generics are monotone in their arguments for the subtype test, and an object type names a
  field once.
- Both route tables are one table with one route per range.
- A WireGuard value is a single line; keys, endpoints and secrets have no blank at either end.
- Forwarding rules: every `iptables` call and state write succeeds. A payload without a tunnel
  carries no peers, as `src/contracts/commands-contracts.ts` lines 4161 to 4163 demand.

## Model

| member | source | states |
|---|---|---|
| RestoreSwap.GlobsPartitionNames | src/backups/copy-restore.ts:103 | every entry name other than `.` and `..` is matched by exactly one of the three globs, and no other name by any |
| RestoreSwap.ExpandGlob | src/backups/copy-restore.ts:124-125 | one glob lists each matching entry once, or stands for itself when nothing matches |
| RestoreSwap.ExpandAll | src/backups/copy-restore.ts:124 | the three-glob loops meet every entry of a directory, and nothing twice |
| RestoreSwap.Copy.UndoAside | src/backups/copy-restore.ts:102-108 | while the aside directory exists every entry from before is in the copy or aside; once it is gone the copy is exactly as before; the undo works exactly when none of its commands fails |
| RestoreSwap.Copy.UndoSwap | src/backups/copy-restore.ts:109-116 | undoing a half-done swap never loses an entry from before, ends with the copy exactly as before, and works exactly when none of its commands fails |
| RestoreSwap.Copy.ClearLeftovers | src/backups/copy-restore.ts:117-120 | an aside directory without a marker ends the run with code 6 and nothing changed; otherwise none is left, or the run ends here; a marker survives only when its removal failed and left it |
| RestoreSwap.Copy.Stage | src/backups/copy-restore.ts:121-123 | the stage holds the whole archive exactly when there was none before and all three commands work; after code 3 it is gone again unless its removal failed |
| RestoreSwap.Copy.Extract | src/backups/copy-restore.ts:121-123 | code 3 leaves no aside directory; otherwise the stage holds the whole archive, exactly when nothing was staged before and all three commands work |
| RestoreSwap.Copy.MoveAside | src/backups/copy-restore.ts:124-128 | at every death the entries are split between copy and aside directory; it goes on only when no move fails; code 4 needs a failed move and puts every entry back, and code 5 needs a second failure, one of the undo |
| RestoreSwap.Copy.MoveUp | src/backups/copy-restore.ts:129-132 | success leaves exactly the archive in the copy and everything from before aside; any other end loses nothing from before; a failed move is undone with code 4 unless the undo fails too, which is code 5 |
| RestoreSwap.Copy.Mark | src/backups/copy-restore.ts:133 | the marker is set exactly when both its commands take effect, over the finished swap; when one fails the copy is put back with code 4 unless the undo fails too, which is code 5 |
| RestoreSwap.Copy.CleanUp | src/backups/copy-restore.ts:134-135 | the aside directory stays exactly when its ignored removal left it, the marker exactly when its own did, and the last removal alone decides between code 0 and 1 |
| RestoreSwap.Copy.Run | src/backups/copy-restore.ts:96-136 | with the marker set the copy is exactly the archive; without it every entry from before is intact in the copy or aside, and exactly the copy unless the run stopped half way; codes 3, 4 and 6 leave the live entries as they were, 0 and 1 mean the archive, 4 needs a failed command of the swap and 5 a second one; a stale marker needs a failed removal; when the commands up to the marker work the archive is swapped in |
| RestoreSwap.RunMany | src/backups/copy-restore.ts:96-136 | over any sequence of runs, each failing or dying anywhere, with services writing in between, what the copy stands for follows the exit codes; unless a failed removal left an old marker, the copy holds exactly that or every entry of it is intact in the copy or aside |
| RestoreSwap.RunInterrupted | src/backups/copy-restore.ts:117-119 | a copy left half done is never touched again: every later run ends with code 6 |
| RestoreSwap.RestoredThenStuck | src/backups/copy-restore.ts:134-135 | one removal that fails unseen makes a restore report success and every later one end with code 6, for all contents and archives |
| RestoreSwap.OneFaultIsUndone | src/backups/copy-restore.ts:90-136 | when one move or one marker command fails, nothing else does and nothing kills the helper, the run ends with code 4 and the copy is as it was, with nothing staged and nothing aside |
| RestoreSwap.MarkerGivesUpAside | src/backups/copy-restore.ts:117-120 | a marker over a half-done swap: the next run never loses more than the entries aside, and exactly those when it ends with code 3 or 4 |
| RestoreSwap.StaleMarkerLosesCopy | src/backups/copy-restore.ts:117-124 | from a fresh copy, for all contents and archives: two removals leave a marker, a run is killed before its own, and the next deletes everything the last good restore put in place and reports code 3 |
| RestoreServices.Host.FindUsing | src/backups/copy-restore.ts:192-216 | exactly the running containers that mount the copy |
| RestoreServices.Host.TakeDown | src/backups/copy-restore.ts:483-492 | the found containers are listed on disk and stopped; or the restore ends here, with a refusal exactly when a stop was refused and nothing else went wrong |
| RestoreServices.Host.RestoreFound | src/backups/copy-restore.ts:483-524 | the answer is exactly what the deaths, failed writes, refused stops and the helper's exit code make it; after code 0 the copy is the archive, and a helper that did not run left the copy untouched |
| RestoreServices.Host.StartAll | src/backups/copy-restore.ts:219-228 | every listed container is tried, and runs afterwards except for exactly the returned failures |
| RestoreServices.Host.StopAll | src/backups/copy-restore.ts:234-253 | all are stopped; or, after a refusal, exactly the returned ones are not back up |
| RestoreServices.Host.ChangeIntent | src/backups/copy-restore.ts:332-350 | at every death the intent on disk is the old one or the new one |
| RestoreServices.Host.Recover | src/backups/copy-restore.ts:371-394 | the list on disk shrinks only by containers that run; nothing stopped becomes unlisted |
| RestoreServices.Host.StartAgain | src/backups/copy-restore.ts:503-524 | after the helper, unless the daemon dies, exactly the found containers whose start did not fail run again, and the others stay listed; it answers success exactly when the helper ended with code 0 and nothing died or failed to be written, and throws when the helper failed even if every container is back |
| RestoreServices.Host.Restore | src/backups/copy-restore.ts:462-524 | the answer is exactly: a death, an error (an earlier helper still runs, a write failed, or the helper did not end with code 0), a refusal, or success; after code 0 of the swap script the copy is the archive. With working file operations and no death, what is forgotten (stopped, not running, not listed) grows by exactly the leftovers whose start failed and, if a stop was refused, the containers that did not come back; whatever dies or fails it grows by nothing else; when all calls work everything runs again |
| RestoreServices.Lifetime | src/backups/copy-restore.ts:434-459 | over any sequence of restores, daemon starts and other users of Docker with any deaths, every stopped container is listed on disk unless a start of it failed |
| RestoreServices.LeftoverForgotten | src/backups/copy-restore.ts:462-475 | a run in which a leftover that does not start is forgotten |
| RestoreServices.StuckForgotten | src/backups/copy-restore.ts:234-253 | a run in which a container is forgotten after a refused stop |
| Pacing.AddSendOk | src/commands/command-outbox.ts:139-150 | recording a send keeps every window within its burst and the windows an interval apart |
| Pacing.AtMostSixtyInAnyMinute | src/commands/command-outbox.ts:62-68 | any 60 seconds, across window borders, hold at most 60 sends |
| OutboxSession.RoomIs | src/commands/command-outbox.ts:139-150 | a window carries 20 outcomes, and 30 seconds after it began a new one is free |
| OutboxSession.DueIs | src/commands/command-outbox.ts:422-434 | an unconfirmed outcome is due 30 seconds after its mark on this socket, or at once without one |
| CommandAnswers.WireShows | src/commands/command-outbox.ts:553-571 | a handler's answer reaches the wire with its result and error unchanged; an interrupted command is never reported as ok, and carries the facts of its plan and no others |
| CommandAnswers.LastStepShown | src/commands/command-outbox.ts:478-496 | the step reported is the one named as current if the plan has it, else the last that runs, is done or failed, else none |
| CommandAnswers.ReleaseShown | src/commands/command-outbox.ts:504-536 | exactly in which states of the four deciding steps the release is reported live, reported not live, or left open |
| CommandAnswers.TextShows | src/commands/command-outbox.ts:538-551 | the message names that step and says live or not live only when it is known |
| DeployProgress.Reporter.StartSteps | src/commands/deploy-progress.ts:274-306 | exactly the pending ones of the named steps run, the first of them is the current one, and what ran before is done unless nested |
| DeployProgress.Reporter.FinishSteps | src/commands/deploy-progress.ts:449-470 | running steps end; a failure puts the running step they were nested in, and no other, back to pending |
| DeployProgress.Reporter.SettleResume | src/commands/deploy-progress.ts:474-486 | after a failure the enclosing step goes back to pending if it runs; otherwise it is the current step again if there is none; no other step changes |
| DeployProgress.Reporter.Phase | src/commands/deploy-progress.ts:335-344 | a phase that comes round again has its step running, never pending, when the snapshot is taken |
| DeployProgress.Reporter.Finish | src/commands/deploy-progress.ts:346-364 | every running step ends, and unless the deploy succeeded no step stays pending |
| DeployProgress.EndedAs | src/commands/deploy-progress.ts:346-364 | the last snapshot shows a step as done, failed, skipped, ready or pending exactly when its state before and the ending of the deploy say so; nothing runs any more |
| DeployProgress.Report | src/commands/deploy-progress.ts:274-486 | a snapshot that shows the release live is followed by one that denies it if and only if a nested failure puts back the running step that was the only sign |
| DeployProgress.Follow | src/commands/command-outbox.ts:503-536 | in every run of calls, what was shown live is later denied only if one of the four deciding steps was put back, and after a run that ends with the end of the deploy nothing runs |
| DeployProgress.HealthPutBack | src/commands/deploy-progress.ts:474-486 | a run in which that happens |
| DeployProgress.StartPutBack | src/commands/deploy-progress.ts:335-344 | a run in which a done step is reopened and put back: live, unknown, then denied |
| OutboxBook.OneAnswerPerAcceptance | src/commands/command-outbox.ts:553-571 | all outcome frames ever sent for one acceptance of a command carry one answer when its journal writes worked: the handler's if it answered, and otherwise the interrupted one |
| OutboxBook.FrameTells | src/commands/command-outbox.ts:323-331 | every frame tells the control plane exactly what the handler answered, if it did; otherwise that the command was interrupted; ok only for a handler that answered ok |
| OutboxBook.OneRunPerCommand | src/commands/command-outbox.ts:230-262 | running, held and unacked are pairwise disjoint, and a handler starts once unless its outcome was let go of |
| OutboxBook.AcceptOk | src/commands/command-outbox.ts:230-234 | taking a command on keeps the book consistent, and nothing sent or lost before counts for the new acceptance |
| OutboxBook.SendOk | src/commands/command-outbox.ts:323-331 | a frame that may go out keeps every earlier promise about answers |
| OutboxBook.DieOk | src/commands/command-outbox.ts:460-476 | a death keeps the book consistent |
| OutboxSession.OwedForOrphan | src/commands/command-outbox.ts:557-571 | for a command of a dead daemon the outcome of its file is owed, else an interrupted answer with the facts of the plan in the file |
| OutboxRetention.PickOldest | src/commands/command-outbox.ts:422-434 | the outcome recorded longest ago, one without a time first |
| OutboxRetention.ChooseDrops | src/commands/command-outbox.ts:658-672 | everything stale goes, and beyond the cap only the oldest and no more than needed |
| OutboxRetention.RuleIs | src/commands/command-outbox.ts:658-672 | in numbers: what was recorded more than seven days ago goes; anything else only while more than 64 are left, the undated and the oldest first |
| OutboxSession.PaceUsing | src/commands/command-outbox.ts:132-137 | after a switch to another socket the windows hold exactly the paced frames of the new stay: none |
| OutboxSession.PaceFrame | src/commands/command-outbox.ts:139-150 | a frame keeps the windows equal to the paced frames of this stay on the socket, and each within its burst |
| OutboxRetention.AllOut | src/commands/command-outbox.ts:422-434 | when the session carries as many sends as there are unconfirmed outcomes, every one not marked before was sent |
| OutboxFlush.AllGiven | src/commands/command-outbox.ts:587-594 | when it carries as many as there are outcomes to be said to an older control plane, nothing stays held and all not marked before were sent |
| Outbox.Outbox.SendLive | src/commands/command-outbox.ts:334-340 | a live send is tried on the session socket and then on the socket the command came in on; it adds exactly that frame or nothing, and is marked only when the session socket took it |
| Outbox.Outbox.SendKept | src/commands/command-outbox.ts:351-357 | a kept outcome goes out exactly when there is a socket, room in the window and the send works, and is then a paced frame of that window |
| Outbox.Outbox.MarkInFlight | src/commands/command-outbox.ts:230-234 | the command is running, and journaled when that write works |
| Outbox.Outbox.Kinds | src/commands/command-outbox.ts:152-162 | a control plane confirms exactly if it said so; until it has said anything outcomes are kept as if it did |
| Outbox.Outbox.NoteProgress | src/commands/command-outbox.ts:301-321 | the newest plan of a running command is kept, and written exactly when it shows another step or state than the last one or that one is 30 seconds old; no other command changes |
| Outbox.UnwrittenSaysTheSame | src/commands/command-outbox.ts:288-321 | a plan that is not written is less than 30 seconds after the last one written, has its steps in the same states, and an interrupted answer made from that one says the same of the release; one that is 30 seconds later is always written |
| Outbox.Outbox.AnswerRepeatedDispatch | src/commands/command-outbox.ts:245-262 | a dispatch is answered exactly when the command is known: a running one with its latest plan, another by sending the answer kept or held for it, as a live send |
| Outbox.Outbox.Dispatch | src/commands/command-router.ts:347-358 | a handler starts exactly when the command is not known |
| Outbox.Outbox.Acknowledge | src/commands/command-outbox.ts:396-403 | a confirmed outcome is let go of and its file removed; a running command is left alone |
| Outbox.Outbox.Deliver | src/commands/command-outbox.ts:367-390 | the outcome is journaled, then sent, then kept or let go of, with every failure of these in its own place |
| Outbox.DeliveryKept | src/commands/command-outbox.ts:367-390 | it is kept until confirmed, or held until it was sent, and while it is kept its file holds the handler's answer if that write worked |
| Outbox.Outbox.PromoteHeld | src/commands/command-outbox.ts:580-586 | for a control plane that confirms, every held outcome becomes an unconfirmed one |
| Outbox.Outbox.FlushHeld | src/commands/command-outbox.ts:587-594 | held outcomes are sent, each once and as many as the session carries; each one let go of was marked on this socket before, or is sent now with the answer owed; exactly the marks from before a command was accepted again are lost |
| Outbox.Outbox.AnswerConfirming | src/commands/command-outbox.ts:607-631 | every journaled command nothing answers for is kept unconfirmed with the answer of its file; no file goes, and when the writes work each file holds that answer |
| Outbox.Outbox.AnswerOlder | src/commands/command-outbox.ts:607-633 | to one that does not confirm, every such command is held, or was sent the answer of its file on this socket in this call, or was marked there before; something stays held only if the session carries no more |
| Outbox.Outbox.PruneUnacked | src/commands/command-outbox.ts:658-679 | exactly the outcomes past the retention bound are dropped, with their files |
| Outbox.Outbox.ResendUnacked | src/commands/command-outbox.ts:422-434 | as many of the due outcomes are sent as the session carries (a socket, room in the window, tries that work), each once, those without a mark first and then by the age of the mark; the window loses that much room and no more |
| Outbox.Outbox.SessionOpen | src/commands/command-outbox.ts:688-696 | as many of the kept outcomes are sent as the session carries, each once; on a new socket all of them when a burst is enough and the tries work; every journal file stays |
| Outbox.Outbox.ReleaseForOlderPeer | src/commands/command-outbox.ts:703-709 | for a control plane that does not confirm, the unconfirmed outcomes go back to the held ones as they are |
| Outbox.Outbox.Attach | src/commands/command-outbox.ts:717-731 | on an open socket no file is left that nothing answers for, except where a removal failed; a control plane that confirms keeps all that was kept or left by a dead daemon but for what the retention bound drops, with what the files say, and is sent what was not marked on this socket, as much as the session carries; one that does not is sent the same way all that is not still held; on a new socket everything goes out when a burst is enough and the tries work |
| Outbox.Outbox.TimerFired | src/commands/command-outbox.ts:405-416 | exactly the due outcomes, and the held ones let go of without a mark, are sent on this socket with the answers owed, and some of either are left only if the session carries no more; with a control plane that confirms nothing is let go of |
| OutboxLife.Happen | src/commands/command-outbox.ts:230-731 | each step, whatever fails in it, keeps the book consistent; only a confirmation confirms, only an attach drops and only by the retention bound, and while the control plane confirms nothing is let go of as sent; what is let go of as sent has a frame of this stay, on the session socket unless a delivery found another one |
| OutboxLife.Life | src/commands/command-outbox.ts:230-731 | in every run of accepts, progress, outcomes, attaches, confirmations, timers and deaths, a file whose writes worked is gone only if its outcome was confirmed, dropped, sent for the current acceptance during a stay with a control plane that does not confirm, or lost by a mark from before that acceptance; and the last event has had its effect |
| OutboxLife.PacedSends | src/commands/command-outbox.ts:132-150 | during one stay on a socket with a forward clock at most 60 paced frames go out in any 60 seconds |
| OutboxLife.RepeatedDispatchesAreNotPaced | src/commands/command-outbox.ts:245-262 | answers to repeated dispatches are outside that bound: `n` of them go out at one instant |
| OutboxLife.MarkedOutcomeIsLost | src/commands/command-outbox.ts:587-594 | a run in which an outcome is never sent, its file goes, and nothing failed but one delivery |
| OutboxLife.LostWriteChangesTheAnswer | src/commands/command-outbox.ts:367-390 | a run in which the outcome write fails, the answer is sent, the daemon dies, and the next one sends a different answer for the same acceptance |
| TypeSyntax.DecodeEscape | scripts/check-contract-drift.ts:537-556 | decoding an escaped string gives it back |
| TypeSyntax.QuotedEndEscape | scripts/check-contract-drift.ts:507-519 | the end of a quoted literal is found whatever it holds and whatever follows |
| TypeSyntax.WordThen | scripts/check-contract-drift.ts:522-527 | a word is read whole |
| TypePrinter.UnionReads | scripts/check-contract-drift.ts:879-917 | parsing a printed type gives its flat form and stops exactly where it ends |
| TypePrinter.FieldReads | scripts/check-contract-drift.ts:699-715 | a printed field is read back with its name, mark and type |
| TypePrinter.NormalizedIsWords | scripts/check-contract-drift.ts:43-57 | normalised text is the words of the text with one blank between each two |
| TypeWriting.FormReads | scripts/check-contract-drift.ts:558-723 | every way to write a type (with `[]`, `readonly`, parentheses, a leading bar, either quotes and escapes, `;`, `,` or nothing between fields, white space and comments between tokens) is parsed to exactly the type that was meant, and no further |
| TypeWriting.TightReads | scripts/check-contract-drift.ts:613-637 | a type that takes brackets is read up to the brackets after it, and each pair makes one array |
| TypeWriting.FieldsWritten | scripts/check-contract-drift.ts:684-715 | fields are read with their names, marks and types whatever separates them, a `readonly` before the name dropped and one that is the name kept |
| TypeWriting.ArgsWritten | scripts/check-contract-drift.ts:667-682 | written type arguments are read one for one |
| TypeWriting.QuotedReads | scripts/check-contract-drift.ts:507-549 | quoted text is read back for both quotes, with every escape |
| TypeWriting.GapSkips | scripts/check-contract-drift.ts:473-505 | white space and both kinds of comment are skipped whole, and nothing after them |
| TypeWriting.WritingIsRead | scripts/check-contract-drift.ts:725-727 | the whole text of a written type parses to the type that was meant |
| TypeMeaning.PrintParseKeepsMeaning | scripts/check-contract-drift.ts:841-917 | print, parse and desugar again keep the set of values |
| TypeMeaning.RereadMeans | scripts/check-contract-drift.ts:841-877 | the flat form, desugared, admits exactly the values of the printed type |
| TypeNames.ParsedIsPrintable | scripts/check-contract-drift.ts:558-727 | for every text, a parse without opaque parts and ambiguous intersections prints unambiguously |
| TypeOrder.OrderMeans | scripts/check-contract-drift.ts:900-917 | sorting members and fields keeps the set of values, under any comparison |
| TypeOrder.CanonicalRoundTrip | scripts/check-contract-drift.ts:879-917 | the canonical text, parsed and desugared, has the type's meaning |
| TypeOrder.CanonicalDecides | scripts/check-contract-drift.ts:879-917 | equal canonical texts mean equal sets of values |
| TypeOrder.UnionUnderIntersectionIsAmbiguous | scripts/check-contract-drift.ts:900-902 | two types with different values share one canonical text when a union stands under an intersection |
| TypeAliases.ResolveMeans | scripts/check-contract-drift.ts:782-839 | expanding aliases, cyclic maps included, keeps the set of values under every solution of the alias equations |
| TypeAliases.ResolveIsComplete | scripts/check-contract-drift.ts:782-839 | without cycles no alias is left |
| TypeRelation.LiteralFits | scripts/check-contract-drift.ts:919-924 | a literal that fits a keyword only has values of that keyword |
| TypeRelation.AssignableIsSound | scripts/check-contract-drift.ts:926-972 | an assignable type's values are all values of the other, with generics monotone |
| TypeComplete.AssignableIsComplete | scripts/check-contract-drift.ts:926-972 | a plain type whose values are all values of another is assignable to it, for every environment |
| TypeComplete.AssignableExactly | scripts/check-contract-drift.ts:926-972 | between plain types the test decides inclusion of values: assignable if and only if every value of the one is a value of the other |
| TypeComplete.AssignableRules | scripts/check-contract-drift.ts:926-972 | for types of any shape: unions by their members, arrays, generics by their parts |
| TypeComplete.BooleanSpelledOut | scripts/check-contract-drift.ts:919-972 | outside: `boolean` is not assignable to the union of `true` and `false`, though the values are the same |
| TypeComplete.ReadonlyMatters | scripts/check-contract-drift.ts:926-972 | outside: a read-only array is not assignable to an array, though the values are the same |
| TypeComplete.RequiredNever | scripts/check-contract-drift.ts:926-972 | outside: an object type no value has is not assignable to everything |
| TypeComplete.OptionalUnknown | scripts/check-contract-drift.ts:926-972 | outside: a missing field is not taken for an optional one of type `unknown` |
| TypeComplete.TwoObjects | scripts/check-contract-drift.ts:926-972 | outside: an object with a union field is not assignable to the union of its two objects |
| TypePins.RelationIsSound | scripts/check-contract-drift.ts:974-983 | each relation reported between two field types holds of their values |
| TypePins.RelationExactly | scripts/check-contract-drift.ts:974-983 | between plain types the relation reported is exactly the one that holds of their values |
| TypePins.PinExactly | scripts/check-contract-drift.ts:1011-1041 | a pin shows no drift exactly when it holds of the live fields, and a drift it shows is true |
| TypePins.DriftExactly | scripts/check-contract-drift.ts:1011-1041 | no drift exactly when the type is there and every pin holds; a drift reported is the first, names its pin and is true |
| TypePins.NoDriftMeansServed | scripts/check-contract-drift.ts:1011-1041 | no drift means each pinned field is there, still required, and accepts every pinned value, and without an expansion mark nothing else |
| TypePins.DeclaredMeans | scripts/check-contract-drift.ts:985-1009 | the declared type, read from its text, resolved and desugared, admits exactly the values of the type that was written |
| TypePins.DesugarMeans | scripts/check-contract-drift.ts:841-877 | array sugar is the array type it stands for |
| TypePins.PinsHoldInTheSource | scripts/check-contract-drift.ts:993-1041 | from source text to promise: a declared type without drift serves every pinned field |
| TypePins.FormMeans | scripts/check-contract-drift.ts:558-723 | what each written form means: quoted text that text, brackets an array of the element, `readonly` and parentheses nothing, a union any and an intersection all of the members |
| TypePins.PinsHoldAsWritten | scripts/check-contract-drift.ts:985-1041 | when a declared type shows no drift, each value of it as written is an object that carries the pinned required field, with a value of the pinned type as written unless the pin is marked |
| TypePins.PinnedIsAccepted | scripts/check-contract-drift.ts:985-1041 | and it takes every pinned value: with one in that field the object is still of the declared type |
| TypeCursor.SkipLineComment | scripts/check-contract-drift.ts:473-477 | a line comment is skipped up to its line break |
| TypeCursor.SkipBlockComment | scripts/check-contract-drift.ts:480-488 | a block comment is skipped past its end, or to the end of the text |
| TypeCursor.SkipTriviaAt | scripts/check-contract-drift.ts:490-505 | the loop stops where the first thing that is neither white space nor comment starts |
| TypeCursor.ReadWordAt | scripts/check-contract-drift.ts:522-527 | exactly the longest word at the position |
| TypeCursor.SkipQuoted | scripts/check-contract-drift.ts:507-520 | the position after the closing quote, or past the end; elsewhere the next position |
| TypeCursor.DecodeString | scripts/check-contract-drift.ts:537-549 | the loop decodes as the recursive definition, a trailing backslash included |
| TypeCursor.Cursor.Eat | scripts/check-contract-drift.ts:578-583 | skips, then takes the token exactly when it comes next |
| TypeCursor.Cursor.ReadWord | scripts/check-contract-drift.ts:589-594 | reads the next word |
| TypeCursor.Cursor.ParseUnion | scripts/check-contract-drift.ts:596-604 | reads a union as the parser on the remaining text does, and leaves its rest |
| TypeCursor.Cursor.ParseIntersection | scripts/check-contract-drift.ts:606-611 | the same for an intersection |
| TypeCursor.Cursor.ParsePostfix | scripts/check-contract-drift.ts:613-619 | the same for array brackets, however many |
| TypeCursor.Cursor.ParsePrimary | scripts/check-contract-drift.ts:621-637 | the same for a primary type |
| TypeCursor.Cursor.ParseReadonly | scripts/check-contract-drift.ts:639-644 | the same after `readonly` |
| TypeCursor.Cursor.WordType | scripts/check-contract-drift.ts:646-654 | the same for a word, its type arguments included |
| TypeCursor.Cursor.ParseStringLiteral | scripts/check-contract-drift.ts:656-665 | the same for a string literal |
| TypeCursor.Cursor.ParseTypeArgs | scripts/check-contract-drift.ts:667-682 | the argument loop reads what the recursive definition reads |
| TypeCursor.Cursor.ParseObjectFields | scripts/check-contract-drift.ts:684-697 | the field loop ends on every text and reads what the recursive definition reads |
| TypeCursor.Cursor.ParseField | scripts/check-contract-drift.ts:699-715 | the same for one field, a field named `readonly` included |
| TypeCursor.ParseTypeText | scripts/check-contract-drift.ts:725-727 | the cursor parser ends on every text and gives the tree all theorems above are about |
| Cidr.NestOrDisjoint | src/commands/fabric-routes.ts:125-139 | two aligned ranges share an address exactly when one contains the other |
| Cidr.SmallerInside | src/commands/fabric-routes.ts:125-131 | the smaller of two ranges with a common address lies in the larger |
| Cidr.MutualInsideIsEqual | src/commands/fabric-routes.ts:125-131 | ranges inside each other are equal |
| FabricPolicy.OverlapsOtherPeer | src/commands/fabric-allowed-ips.ts:66-79 | none exactly when no earlier peer has a range that overlaps without being equal |
| FabricPolicy.AllowedIpsPolicyError | src/commands/fabric-allowed-ips.ts:86-103 | accepted exactly when every peer range is valid, private, not too broad, not this server's own and equal to or disjoint from earlier peers' |
| FabricPolicy.LanRoutesPolicyError | src/commands/fabric-lan-routes.ts:129-137 | accepted exactly when every LAN route is |
| FabricPolicy.PeersEqualOrDisjoint | src/commands/fabric-allowed-ips.ts:66-103 | accepted ranges of two peers are equal or have no address in common |
| FabricPolicy.LanRoutesDisjoint | src/commands/fabric-lan-routes.ts:91-137 | accepted LAN ranges have no address in common |
| FabricPolicy.AcceptedRangesArePrivate | src/commands/fabric-allowed-ips.ts:41-63 | every accepted range lies in a private block and has no address of this server's own ranges |
| FabricPolicy.AcceptedAddressesArePrivate | src/commands/fabric-allowed-ips.ts:22-53 | every address of an accepted range lies in 10/8, 172.16/12, 192.168/16, 100.64/10 or fc00::/7, by their first and last addresses |
| FabricPolicy.RangeOkExactly | src/commands/fabric-allowed-ips.ts:41-53 | a range is acceptable on its own exactly when it lies in one of those blocks and has at least 8 bits, for IPv6 48 |
| FabricPolicy.PeersOkExactly | src/commands/fabric-allowed-ips.ts:86-103 | the peer policy accepts exactly the payloads whose ranges are acceptable, share no address with this server's own, and are equal to or disjoint from those of the peers before |
| FabricPolicy.LanOkExactly | src/commands/fabric-lan-routes.ts:102-137 | the LAN policy accepts exactly the payloads whose LAN ranges are acceptable, share no address with this server's own or each other, and are no peer's range |
| FabricRoutes.PlanFabricRoutes | src/commands/fabric-routes.ts:251-274 | the loops add, remove and skip exactly the ranges of the plan that `FabricTables.Tp0Table` describes |
| FabricRoutes.Tp0PassSettles | src/commands/fabric-routes.ts:251-274 | planning again after a `tp0` pass changes nothing |
| FabricRoutes.ConnectedDevFor | src/commands/fabric-lan-routes.ts:169-186 | the interface of the most specific usable connected network that holds the next hop |
| FabricRoutes.BestIsUnique | src/commands/fabric-lan-routes.ts:169-186 | that network is unique, so the order of the table does not matter |
| FabricRoutes.PlaceLanRoute | src/commands/fabric-lan-routes.ts:282-303 | each wanted LAN route is placed or skipped as the definition says |
| FabricRoutes.PlanLanRoutes | src/commands/fabric-lan-routes.ts:311-326 | the loops add, keep and remove exactly the routes the definition says |
| FabricRoutes.StaleInstalledRoutes | src/commands/fabric-lan-routes.ts:328-339 | exactly the installed routes still in the table that nothing placed replaces |
| FabricRoutes.LanPassSettles | src/commands/fabric-lan-routes.ts:311-339 | planning again after a LAN pass changes nothing and places the same routes |
| FabricRoutes.LanLeavesTp0 | src/commands/fabric.ts:968-990 | a LAN pass never touches a `tp0` route |
| FabricRoutes.ConflictsAfterLan | src/commands/fabric.ts:968-990 | a LAN pass lifts a tunnel range's conflict exactly where the daemon's own old route was all of it |
| FabricRoutes.TwoPassesSettle | src/commands/fabric.ts:2432-2438 | from any table, two reconciles reach a state where both plans are empty |
| FabricRoutes.OnePassSettlesIff | src/commands/fabric.ts:2432-2438 | one reconcile is enough if and only if no wanted tunnel range is held back by nothing but a LAN route the daemon itself installed earlier |
| FabricRoutes.HeldBackForOnePass | src/commands/fabric.ts:2432-2438 | such a range has no route at all after one reconcile, and only the next one adds it |
| FabricRoutes.OldLanRouteHoldsBack | src/commands/fabric.ts:2432-2438 | a host and a request with such a range |
| FabricRoutes.OnePassSettlesWhenNothingSkipped | src/commands/fabric.ts:2432-2438 | one reconcile is enough when no tunnel range is skipped |
| FabricRoutes.AcceptedPayloadConverges | src/commands/fabric.ts:860-890 | every payload both policies accept converges in two reconciles |
| FabricTables.Tp0Table | src/commands/fabric-routes.ts:223-274 | after a pass `tp0` carries exactly the wanted ranges that nothing off `tp0` routes or is connected to, plus what was on it before and is a kernel route, has less than 8 bits (IPv6: 48), or lies in 169.254/16, 224/4, fe80::/10 or ff00::/8; every route off `tp0` is as it was |
| FabricTables.CarriedIsInTheTable | src/commands/fabric-lan-routes.ts:282-326 | a wanted LAN route is in the table after a pass, over the interface of the most specific usable network that holds its next hop, when it is IPv4, clear of the bridges and already there or free |
| FabricTables.OthersInTheTable | src/commands/fabric-lan-routes.ts:311-339 | any other range is as it was, except that the daemon's own recorded route of it is gone |
| FabricTables.PlacedIsCarried | src/commands/fabric-lan-routes.ts:282-326 | exactly the routes so carried are recorded as installed |
| FabricTables.NearestIsConnectedDev | src/commands/fabric-lan-routes.ts:148-186 | the interface chosen is that of the most specific network, written out: connected, with carrier, not `tp0`, `lo` or a container interface, no bridge, and the next hop not its first or last address |
| FabricTables.SettledIsAsAsked | src/commands/fabric.ts:2432-2438 | both plans are empty if and only if every wanted route that can be there is, and nothing of the daemon's own is left over |
| FabricTables.AcceptedPayloadIsInPlace | src/commands/fabric.ts:860-890 | from any table, two reconciles of an accepted payload leave the host so |
| FabricTables.PeerRangesAreRouted | src/commands/fabric-routes.ts:199-217 | every accepted peer range other than the own address is then on `tp0`, unless something off `tp0` has taken it |
| FabricTables.LanRoutesAreRouted | src/commands/fabric-lan-routes.ts:311-326 | every accepted LAN route is then in the table over the interface it goes over |
| WgLines.SplitJoin | src/commands/fabric.ts:649 | splitting the written text gives back its lines |
| WgLines.SettingReads | src/commands/fabric.ts:1505-1508 | a written setting is read back with its name and its exact value, an empty one included |
| WgConf.DecimalReads | src/commands/fabric.ts:2829-2832 | a printed number is parsed to itself |
| WgConf.ItemReads | src/commands/fabric.ts:621-650 | each written line is read as what it was written for |
| WgParse.ParsePeerPresharedKeys | src/commands/fabric.ts:1488-1514 | the loop computes the preshared keys of the text |
| WgParse.ParseDurablePeers | src/commands/fabric.ts:2799-2836 | the loop computes the peers of the text |
| WgParse.StripWgQuickConf | src/commands/fabric.ts:668-688 | the loop drops exactly the `wg-quick` settings of interface sections |
| WgParse.RenderWgConf | src/commands/fabric.ts:621-650 | the loops write the lines of the configuration in order |
| WgParse.StripKeepsParses | src/commands/fabric.ts:668-688 | on every text, filtering changes neither the preshared keys nor the peers read |
| WgParse.StripTakesTheAddress | src/commands/fabric.ts:668-688 | of a written configuration the filter removes the address line and nothing else |
| WgParse.SecretsRoundTrip | src/commands/fabric.ts:1488-1514 | a written configuration gives back exactly the preshared keys of its peers |
| WgParse.PeersRoundTrip | src/commands/fabric.ts:2799-2836 | a written configuration gives back every peer with its endpoint and keepalive, and of peers with one key the last |
| WgParse.RangesAreWritten | src/commands/fabric.ts:621-650 | the written text begins with the interface's key, address and port, and holds every peer's section with its key and, in the next line, its ranges |
| WgParse.CommasRead | src/commands/fabric.ts:621-650 | ranges written with commas are read back |
| Forwarding.FabricOwnedPeerPrefixes | src/commands/fabric.ts:1240-1254 | exactly the peer ranges shorter than 32 bits |
| Forwarding.FabricCrossSubnetForwardPairs | src/commands/fabric.ts:1257-1272 | exactly both directions of every local and remote range, none within one range |
| Forwarding.FabricLanForwardPairs | src/commands/fabric.ts:1289-1304 | the same for LAN routes, bound to the LAN interface |
| Forwarding.RemoteForwardPairs | src/commands/fabric.ts:1333-1348 | exactly the peer pairs and the LAN pairs |
| Forwarding.Host.RemoveForwardPairsExcept | src/commands/fabric.ts:1357-1368 | exactly the given pairs that are not kept are gone, whether they were there or not |
| Forwarding.Host.ReconcileForwarding | src/commands/fabric.ts:1445-1485 | adds every wanted pair and removes none |
| Forwarding.Host.Enable | src/commands/fabric.ts:2441-2471 | afterwards the rules are exactly the payload's; with the payloads the parser accepts they follow the new state |
| Forwarding.Host.Pause | src/commands/fabric.ts:2234-2262 | the peer pairs are gone and the LAN pairs stay; cut short after the mark it leaves the rules as they were |
| Forwarding.Host.Restore | src/commands/fabric.ts:2654-2667 | the rules follow the state with the LAN routes that came back, from a running or an emptied chain |
| Forwarding.Host.Reinstall | src/commands/fabric.ts:2623-2640 | the rules follow the state again |
| Forwarding.Life | src/commands/fabric.ts:1240-1485 | in every run of enables, pauses, restores, reinstalls, teardowns and reboots the rules follow the persisted state, from a reboot until the next rebuild excepted, and the host shows the last event |
| Forwarding.AcceptedExactly | src/commands/fabric.ts:1240-1348 | between two different ranges exactly this is let through: while the fabric is not paused, a network of this host and a peer range of 0 to 31 bits; always, such a network and a LAN route's range over that route's interface |
| Forwarding.PauseCutShort | src/commands/fabric.ts:2234-2262 | after a pause cut short after its mark and a daemon start, the rules follow the paused state if and only if every peer pair is also a LAN pair of the old or the new routes |
| Forwarding.PauseAgain | src/commands/fabric.ts:2234-2262 | a second pause puts the rules in step, whatever the routes |
| Forwarding.PairOutlivesPause | src/commands/fabric.ts:2234-2262 | a host on which they are not in step: a peer pair stands in a paused fabric |
| CopyQueue.EighthFailure | src/backups/copier.ts:35-53 | the delays before the eighth counted failure add up to 1161 minutes |
| CopyQueue.NextTry | src/backups/copier.ts:36-53 | the next try is 1, 5, 15, 60 and then 360 minutes later, in milliseconds, and one minute when the key could not be opened |
| CopyQueue.OneMoreFailure | src/backups/copier.ts:102-119 | a job is only tried when due, so its next failure comes after the delay the last one asked for |
| CopyQueue.SpacedSpan | src/backups/copier.ts:35-53 | failures so spaced reach from first to last over the sum of the delays |
| CopyQueue.Store.Enqueue | src/backups/copy-queue.ts:85-104 | a job already queued is kept; otherwise the copy is queued or the caller is told |
| CopyQueue.Store.Save | src/backups/copy-queue.ts:106-108 | the job file is the old one or the new one, and its failures with it |
| CopyQueue.Store.Finish | src/backups/copier.ts:215-247 | the report is on disk before the job is removed |
| CopyQueue.Store.Failed | src/backups/copier.ts:186-213 | a failure is counted with the time it happened unless the key could not be opened; the job waits its delay, or is given up at eight attempts, or at two when not retryable, with exactly its failures behind the report |
| CopyQueue.Store.Process | src/backups/copier.ts:130-168 | whatever the try meets and wherever it dies, only this job changes; a refused try is counted with its time and the job postponed or given up, and so is one whose report could not be written; a key that cannot be opened counts for nothing, and an upload or a missing file ends in its report when the disk works |
| CopyQueue.Store.RunDue | src/backups/copier.ts:102-119 | exactly the listed jobs that are due are tried, others are untouched, new failures happened during the run, and nothing owed is lost at any crash point |
| CopyQueue.Store.Acknowledge | src/backups/copy-queue.ts:205-209 | only an acknowledged report goes, and a job queued again stays owed |
| CopyQueue.AlwaysRefused | src/backups/copier.ts:130-213 | a job whose tries are all refused is reported as given up after at most eight, and the report says how many: eight if it may always be tried again, two or one more than before if never |
| CopyQueue.RefusedOnce | src/backups/copier.ts:186-213 | a refused try is one more counted failure; with the eighth, or the second if it may not be tried again, the job is gone and its report says so, else it waits with that count |
| CopyQueue.Life | src/backups/copier.ts:102-247 | in every run with any failures and deaths each owed copy is queued or reported, no stored job has eight attempts, every counted failure came 1, 5, 15, 60 and then 360 minutes after the one before, and a report has the failures it counts behind it: two when given up, and when it could be tried again eight, the last at least 1161 minutes after the first |
| Spdx.Balanced | scripts/lib/notices.ts:884-894 | true exactly when the first bracket closes at the very end |
| Spdx.UnwrapParens | scripts/lib/notices.ts:874-882 | removes outer blanks and brackets as often as they come |
| Spdx.SplitLoop | scripts/lib/notices.ts:896-922 | the loop cuts at exactly the operators outside brackets, in any case |
| Spdx.SplitTopLevel | scripts/lib/notices.ts:896-922 | every part is shorter than the text, so the classifier ends on every text |
| Spdx.ClassifySpdxExpression | scripts/lib/notices.ts:750-780 | the recursive classifier over the loops equals its definition |
| SpdxTrees.UnwrapPrinted | scripts/lib/notices.ts:874-894 | of a printed tree exactly the outer groups are removed |
| SpdxTrees.SplitPrinted | scripts/lib/notices.ts:896-922 | a printed tree is split into exactly the operands of its outermost chain |
| SpdxMeaning.StripLicence | scripts/lib/notices.ts:868-872 | stripping the exception leaves the licence name |
| SpdxMeaning.OperatorsInAnyCase | scripts/lib/notices.ts:896-922 | AND, OR and WITH are recognised in any mix of capital and small letters, and nothing else is |
| SpdxMeaning.AcceptedIffHolds | scripts/lib/notices.ts:750-780 | a tree's verdict is acceptance exactly when it holds over the accepted licences |
| SpdxMeaning.ClassifyPrinted | scripts/lib/notices.ts:750-780 | on every printed well-grouped tree the classifier gives the tree's verdict, the reason of a refusal included |
| SpdxMeaning.AcceptedExactly | scripts/lib/notices.ts:750-780 | every AND/OR tree printed with the brackets it needs is accepted exactly when it is true, AND binding tighter than OR as in Annex D of SPDX 2.3 |

## Left out

- Docker, `wg`, `ip`, `iptables`, systemd and S3 themselves: each call is a step that works or fails.
- Interleaving inside one exported call at its `await` points: an enqueue, a dispatch or an attach happens between calls, not inside them.
- Services that write to the copy while a restore is interrupted half way, and preflight checks before the helper starts.
- Text of messages, JSON, dates, file modes, key generation and secret decryption: values round-trip as they are.
- The parsing of address literals: a range arrives as version, base and prefix.
- Upper and lower case outside ASCII, and numbers beyond 2^53.
- Intersections with a union directly below and opaque types in the print and subtype theorems, since the printer is ambiguous there.
- Collecting the type aliases from source files; the alias map is a parameter.
- Rules from one range to itself that belong to removed networks, and networks pruned from the state when an environment stops: no rule is removed for them, so forwarding does not follow the state there.
- The order of forwarding rules in the chain, and the conntrack rule: rules are a set.
- The licence policy tables and the checks before the expression classifier: any policy is a parameter.
- Metrics and several routes for one range in the route table, and route commands that fail.
- Unreadable job files in the copy queue, upload progress and bucket retention.
- Deploy orchestration, managed services, and the command handlers themselves: long sequences of calls with little state of their own.
- RestoreServices.Host.FindUsing: takes the set of containers that mount the copy as given; the comparison of mount paths is not modelled.
- RestoreServices.Host.ChangeIntent: the temporary file and its rename are one step, because nothing reads the temporary file.
- CopyQueue.Store.Save: the temporary file and its rename are one step, for the same reason.
- Outbox.Outbox.Deliver: journal writes of one command do not overlap; their queue is not modelled.
- DeployProgress.Report: labels, notes, timers, the size cap and when a payload is sent are not modelled.
- Forwarding.Host.Restore: does not model the policy check that can end a restore early, because it changes nothing then.
- FabricRoutes.PlanLanRoutes: reads one table for both address families, because a LAN route is only ever IPv4.
