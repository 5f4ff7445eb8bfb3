# Projecta: verified models of its protocols and folds

Dafny models of six parts of the desktop application's Rust core, with proofs about whole runs, whole inputs and
whole interleavings. Everything verifies with `dafny verify dfyconfig.toml`.

- **The durable update journal** (`UpdateJournal`, `JournalRuns`, `UpdateCourse`, `JournalProtocol`,
  `DurableJournal`, `DurableOutcomes`). An in-app update moves through ten phases, and a journal file remembers
  how far it came. The class `UpdateJournal` performs each transition in place, as the source does.
  `JournalRuns` proves what holds of every journal reachable from an offer, and `UpdateCourse` tells by the
  operations alone what is accepted and offered next. `JournalProtocol` interleaves any number of handles on one
  file, step by step (working on a clone, lock, load and compare, replace, unlock, publish), with stale handles,
  failures and crashes anywhere, and proves that the file only ever holds one chain of legal transitions.
  `DurableJournal` holds the store and handle classes and shows that each call is a sequence of those steps;
  `DurableOutcomes` says exactly when a call succeeds and which error it names otherwise.
- **The core register** (`CoreRegister`, `RegisterRuns`, `RegisterRules`). Requests to change settings, first
  come, first served per key, with owners, policies and an append-only log. The class keeps the log and two
  caches. The proofs relate the caches to the log over every run, give rollback a meaning through the value each
  key holds, and show that every reachable register can be drained. `RegisterRules` states each rule in terms of
  the tables and requests, in both directions.
- **The worker forest** (`WorkerForest`, `BuildTree`, `ForestShape`, `SiblingOrder`, `ForestRoots`).
  `build_tree` turns arbitrary `spawned_by` declarations, rings and dangling parents included, into a forest.
  The loops are proved to show every worker exactly once, and the specification is proved to leave exactly one
  possible result.
- **The frontend error log** (`ErrorField`, `Utf8`, `ErrorLog`, `ErrorLogRuns`, `ErrorLines`). A bounded
  escaping printer and a sliding-window limiter, proved against an observer who only sees the printed lines.
- **The budget stop** (`BudgetLimits`, `BudgetStore`, `BudgetWatcher`, `BudgetRuns`, `PausedFleet`). Thresholds
  in a flat settings table, and the sweep that blocks profiles, pauses their agents and lifts its own expired
  blocks.
- **The critic's parser** (`Critic`, `CriticBlocks`, `CriticPrinting`, `CriticLines`). PATTERN/LEARNING blocks
  out of a model's free text, and the round trip through the printed format.
- **Database restore** (`RestoreSteps`, `RestoreNames`, `DbRestore`). The restore procedure as steps on the
  files, with any number of restores interleaved and each free to stop for good between any two steps.

`Basics` and `Text` hold what the components share.

How the models are built:

- Objects whose methods update fields are classes; their methods are proved equal to functions of the old state, and
  the theorems are about those functions and about runs of them.
- What the surroundings decide (whether a lock is free, how a write ends, what a file holds, the clock, the usage
  measured, the text after redaction) is an argument or a step, so that every answer is covered.
- Strings are sequences of Unicode scalar values; where bytes matter (`frontend_error_field`) their UTF-8 length is
  modelled (section 3 of RFC 3629). 64-bit counters are bounded where the source saturates or checks.
- Assumed: an atomic replace leaves the old or the new bytes, even when it reports an error; nobody but the modelled
  steps edits the journal file or, during a restore, the files involved; worker ids are unique; the error log's clock
  does not run backwards.

Where the documentation promises more than the code does, the model follows the code:

- `update_limits` is documented as writing both windows at once. It is not all or nothing:
  `BudgetStores.RefusedUpdateChangesNothingIff` says exactly when a refused update leaves a change behind, and
  `BudgetStores.AHalfWrittenUpdate` is such an update.
- The budget module says that the watcher clears its own block once its end has passed. The watcher does so only
  while the profile still has a threshold: `BudgetRuns.ABlockStandsUntilItIsDue` has the exact condition,
  `BudgetRuns.WithoutThresholdsABlockNeverEnds` the family of runs in which a block stays, and
  `BudgetRuns.AClearedThresholdLeavesABlock` is such a run. This is about the watcher alone: in the application the
  queue dispatcher also lifts expired blocks of any kind (`release_expired`, called at src-tauri/src/queue.rs:364), so
  a block stays only as long as nobody else changes the quota map.

Two conditions that the source itself points out are made exact:

- The register leaves it to its store adapter to fill in a request's old value (src-tauri/src/core_register.rs:11-14).
  `RegisterRuns.RollbackRestores` shows that a rollback restores the earlier value exactly if that was done, and
  `RegisterRuns.RollbackOfAWrongOldValue` what happens otherwise.
- The digests observed at the handshake are informational. Every run that reaches `Installed` records them, but a
  journal file without them still loads (`JournalRuns.LoadingIgnoresInstalled`).

## Model

| member | source | states |
|---|---|---|
| `UpdateJournals.UpdateJournal.RecordDownloaded` | src-tauri/src/delivery_recovery.rs:441-449 | accepted exactly in `Available` for the staged manifest of the offer; a refusal changes nothing |
| `UpdateJournals.UpdateJournal.WaitForIdle` | src-tauri/src/delivery_recovery.rs:451-456 | accepted exactly in `Downloaded`; moves the phase only |
| `UpdateJournals.UpdateJournal.EnterMaintenance` | src-tauri/src/delivery_recovery.rs:458-469 | accepted exactly for a valid drain of the recorded database path; records the drain and the quiesced database |
| `UpdateJournals.UpdateJournal.VerifyBackup` | src-tauri/src/delivery_recovery.rs:471-481 | accepted exactly for a snapshot that matches the quiesced database |
| `UpdateJournals.UpdateJournal.BeginInstall` | src-tauri/src/delivery_recovery.rs:483-493 | accepted exactly after a verified backup |
| `UpdateJournals.UpdateJournal.BeginValidation` | src-tauri/src/delivery_recovery.rs:495-500 | accepted exactly while installing |
| `UpdateJournals.UpdateJournal.AcceptHandshake` | src-tauri/src/delivery_recovery.rs:502-529 | accepted exactly for the offer's nonce, candidate paths and staged version; records the observed digests |
| `UpdateJournals.UpdateJournal.RecordHealthFailure` | src-tauri/src/delivery_recovery.rs:531-553 | accepted exactly while validating or installed, before writes resumed, with a reason; moves to `RecoveryNeeded` with the rollback pair |
| `UpdateJournals.UpdateJournal.Promote` | src-tauri/src/delivery_recovery.rs:555-572 | accepted exactly in `Installed`, after writes resumed, for the candidate and the same signed bytes |
| `UpdateJournals.UpdateJournal.ResumeWrites` | src-tauri/src/delivery_recovery.rs:574-585 | accepted exactly in `Installed` with evidence, also repeatedly; sets the flag only |
| `UpdateJournals.UpdateJournal.RecordPostResumeFailure` | src-tauri/src/delivery_recovery.rs:587-598 | accepted exactly after writes resumed, with a reason; moves to a quarantine, also repeatedly |
| `UpdateJournals.PathsCompareByComponent` | src-tauri/src/delivery_recovery.rs:1047-1049 | off Windows paths compare by component: a slash or dot at the end of a path changes nothing |
| `UpdateCourse.OffersAreTakenExactlyWhen` | src-tauri/src/delivery_recovery.rs:358-383 | an offer is taken up exactly if everything it names is there and the manifest announces the binary's version |
| `UpdateCourse.AcceptanceFollowsTheCourse` | src-tauri/src/delivery_recovery.rs:441-598 | after any run an operation is accepted exactly if it may follow the last one, with evidence that matches the offer and that last operation |
| `UpdateCourse.ActionsFollowTheCourse` | src-tauri/src/delivery_recovery.rs:409-438 | after any run the action offered is the one the last operation calls for, naming the offer's own facts |
| `UpdateCourse.WritesAreAcceptedExactlyAfter` | src-tauri/src/delivery_recovery.rs:402-407 | users may write exactly when the last accepted operation was a resumption or a promotion |
| `UpdateCourse.PromotionStemsFromTheOffer` | src-tauri/src/delivery_recovery.rs:555-572 | every update begins with a download of the offered manifest, and is promoted exactly by a receipt for its candidate and its two digests |
| `UpdateCourse.EveryOfferCanBePromoted` | src-tauri/src/delivery_recovery.rs:441-585 | nine operations with matching evidence take every offer that is taken up to its promotion |
| `UpdateCourse.LoadedJournalsAreSafe` | src-tauri/src/delivery_recovery.rs:612-722 | whoever wrote the file, a journal that loads offers only coherent rollbacks and installs and accepts no writes early |
| `JournalRuns.TransitionsKeepLoadable` | src-tauri/src/delivery_recovery.rs:612-722 | every accepted transition on any loadable journal yields a loadable one |
| `JournalRuns.EveryRunReloads` | src-tauri/src/delivery_recovery.rs:358-722 | every journal of every run from an offer passes the load check; a recovery action is recorded exactly in `RecoveryNeeded`, so the fallback of the next action is dead |
| `JournalRuns.RunsRecordFactsOnce` | src-tauri/src/delivery_recovery.rs:458-598 | each fact is recorded by the one transition that carries it and never changes afterwards |
| `JournalRuns.AcceptingWritesNeedsTheWholeSequence` | src-tauri/src/delivery_recovery.rs:402-407 | writes are accepted only after, in order, a drain, a backup of exactly the drained database, a handshake with the offer's nonce, paths and version, and a resumption |
| `JournalRuns.NoRollbackAfterResumption` | src-tauri/src/delivery_recovery.rs:409-438 | once writes resumed they stay so, and the previous runtime is never again offered for restoration |
| `JournalRuns.OfferedRollbackIsCoherent` | src-tauri/src/delivery_recovery.rs:531-553 | an offered rollback pairs the offered binary with the run's own drained database and a snapshot of that digest, and writes never resumed before |
| `JournalRuns.RollbackEndsTheRun` | src-tauri/src/delivery_recovery.rs:531-598 | a journal that offers a rollback accepts no transition at all |
| `JournalRuns.TransitionsRise` | src-tauri/src/delivery_recovery.rs:441-598 | phase and resumption strictly rise on every accepted transition but the two repeatable ones, which stand still |
| `JournalRuns.AtMostTenFreshSteps` | src-tauri/src/delivery_recovery.rs:441-598 | no run has more than ten transitions besides repetitions |
| `JournalRuns.InstallIsNotOfferedAgain` | src-tauri/src/delivery_recovery.rs:409-438 | from `Installing` on, the candidate is never again offered for installation |
| `JournalProtocol.StepsKeepSound` | src-tauri/src/delivery_recovery.rs:777-839 | the invariant of many handles over one file survives every step: one chain on file, memories are versions of it, the lock is held by one |
| `JournalProtocol.TheFileHoldsOneChain` | src-tauri/src/delivery_recovery.rs:777-839 | whatever is interleaved, failed or crashed, the contents of the file continue one run with revisions rising by one, and each handle's memory is the content of its own revision |
| `JournalProtocol.WriteBodyNeverRefuses` | src-tauri/src/delivery_recovery.rs:802-808 | the check before a write never refuses a transition's result |
| `JournalProtocol.PublishedChangesAreOnFile` | src-tauri/src/delivery_recovery.rs:926-939 | a successful change moved handle and file by exactly the transition that this handle began, from the memory it had then |
| `JournalProtocol.NoTwoChangesWinAtOneRevision` | src-tauri/src/delivery_recovery.rs:786-800 | two changes of any handles that replace the file did so at strictly rising revisions |
| `JournalProtocol.OfferedRollbackIsFinal` | src-tauri/src/delivery_recovery.rs:409-438 | a rollback offered to any handle is the newest content, leads nowhere, and no other handle has writes resumed |
| `DurableJournals.JournalStore.LoadJournal` | src-tauri/src/delivery_recovery.rs:764-775 | a missing, unreadable or invalid file is an error; anything else is the file's content |
| `DurableJournals.JournalStore.CompareAndWrite` | src-tauri/src/delivery_recovery.rs:786-800 | writes only over the expected revision, stamped one higher; every other outcome leaves file and journal alone |
| `DurableJournals.DurableJournal.Change` | src-tauri/src/delivery_recovery.rs:926-939 | applies the transition to the handle's own memory, persists it by compare-and-swap, and publishes it only then |
| `DurableJournals.OpenJournal` | src-tauri/src/delivery_recovery.rs:866-870 | a new handle holds what the file holds |
| `DurableJournals.CreateJournal` | src-tauri/src/delivery_recovery.rs:860-864 | creation succeeds only where no journal is |
| `DurableJournals.OpenFollowsTheProtocol` | src-tauri/src/delivery_recovery.rs:866-870 | a call of open is one step of the protocol, or none if the file does not load |
| `DurableJournals.CreateFollowsTheProtocol` | src-tauri/src/delivery_recovery.rs:860-864 | a call of create with a journal that stems from an offer is a sequence of the protocol's steps with the same file and result; a failed one leaves no handle |
| `DurableJournals.ChangeFollowsTheProtocol` | src-tauri/src/delivery_recovery.rs:926-939 | every call of change on a resting handle is a sequence of the protocol's steps with the same file, memory and result |
| `DurableOutcomes.LoadingAnswers` | src-tauri/src/delivery_recovery.rs:764-775 | loading yields exactly what a readable and valid file holds |
| `DurableOutcomes.ChangeSucceedsExactlyWhen` | src-tauri/src/delivery_recovery.rs:786-808 | a change succeeds exactly if the transition is accepted, the lock free, the file loadable at the handle's revision below the cap, and the write ends well; file and memory then hold the result one revision on, and a failure leaves the memory alone |
| `DurableOutcomes.ChangeErrorsNameTheirCause` | src-tauri/src/delivery_recovery.rs:786-839 | a busy lock, a stale handle and a refused transition are each answered by their own error and no other |
| `DurableOutcomes.OnlyTheCapRefuses` | src-tauri/src/delivery_recovery.rs:794-800 | at the handle's own revision the store refuses an accepted change only at the revision cap |
| `DurableOutcomes.CreateSucceedsExactlyWhen` | src-tauri/src/delivery_recovery.rs:777-784 | a creation succeeds exactly with a free lock, no file, a loadable journal and a write that ends well; each error names its cause |
| `CoreRegisters.Register.Submit` | src-tauri/src/core_register.rs:218-255 | a well-formed request is logged as `Requested` with its rollback; a refusal changes nothing |
| `CoreRegisters.Register.Transition` | src-tauri/src/core_register.rs:256-307 | one entry is appended and cached, and the revision counted, exactly if no guard refuses; a refusal changes nothing |
| `CoreRegisters.Register.EarlierIsOpen` | src-tauri/src/core_register.rs:275-281 | the scan finds an earlier open request of the same scope and key exactly if there is one |
| `RegisterRules.SettingsAreFoundExactly` | src-tauri/src/core_register.rs:179-195 | a setting is found exactly if it is the only one of its scope and key, complete, and owned; it is unregistered exactly if there is none |
| `RegisterRules.RequestsAreLoggedExactlyWhen` | src-tauri/src/core_register.rs:218-255 | a request is logged exactly if it is complete, its setting registered, and a core or rule has a policy that is not off; the entry carries the setting's risk, site and old value |
| `RegisterRules.SelfApplicationIsGatedExactly` | src-tauri/src/core_register.rs:196-214 | self-application is open exactly if the only policy grants it, the only effect of the key is ordinary at the setting's area and site, and the risk is ordinary |
| `RegisterRules.TransitionsAreAcceptedExactlyWhen` | src-tauri/src/core_register.rs:256-300 | a transition is accepted exactly if request, setting, actor, turn, move and revision all allow it |
| `RegisterRules.RefusalsNameTheObstacle` | src-tauri/src/core_register.rs:264-300 | each refusal is the first obstacle; `Forbidden` exactly if the actor is not the owner or may not self-apply |
| `RegisterRules.SelfAppliedChangesWereAllowed` | src-tauri/src/core_register.rs:267-274 | over any run under a fixed registry, whatever a core or rule checked or applied was its own setting, under the only policy, the only effect and an ordinary risk |
| `RegisterRules.RunsAreWellSubmitted` | src-tauri/src/core_register.rs:232-250 | over any run every entry carries its setting's risk and rollback site, and every request of a core or rule had a policy that is not off |
| `RegisterRuns.RunsStaySound` | src-tauri/src/core_register.rs:218-307 | the register's invariant holds after any calls, accepted or refused, under changing registries |
| `RegisterRuns.CachesRefineTheLog` | src-tauri/src/core_register.rs:238-306 | a cached request is its last log entry, a revision counts its applied and rolled-back entries, log ids count from one, payloads never change, and there are at most four entries per request |
| `RegisterRuns.JournalsOnlyExtend` | src-tauri/src/core_register.rs:302-305 | the log is only ever extended and requests only move forward |
| `RegisterRuns.AtMostOneInProgress` | src-tauri/src/core_register.rs:275-281 | per scope and key at most one request is checked or applied, and every earlier one has ended |
| `RegisterRuns.AppliedInSubmissionOrder` | src-tauri/src/core_register.rs:275-299 | per key, entries are applied in submission order with strictly increasing expected revisions |
| `RegisterRuns.RollbackRestores` | src-tauri/src/core_register.rs:288-299 | a rollback restores the value from before its application, whatever happened in between, if and only if the request named that value as the old one |
| `RegisterRuns.RollbackOfAWrongOldValue` | src-tauri/src/core_register.rs:238-254 | a request that names a wrong old value leaves, when rolled back, a value that differs from both the one before and the one after its apply |
| `RegisterRuns.RunsStayAuthorized` | src-tauri/src/core_register.rs:264-274 | under a fixed registry every move was made by the setting's owner |
| `RegisterRuns.ProtectedSettingsNeedTheUser` | src-tauri/src/core_register.rs:206-214 | a setting outside the ordinary risk class is only ever checked or applied by the user |
| `RegisterRuns.OnlyTheUserLetsOthersApply` | src-tauri/src/core_register.rs:52-71 | whatever policies were attempted, the core or a rule checks or applies something only if the user made one of them |
| `RegisterRuns.EveryLogCanBeDrained` | src-tauri/src/core_register.rs:264-306 | from every reachable register one accepted call per open request, oldest first, each a rejection or a confirmation, ends them all within four log entries per request |
| `ForestRoots.TopsAreExactly` | src-tauri/src/api.rs:936-1046 | at the top stand exactly the workers without another known controller and the earliest of each declared ring, orchestrators, queens and scouts apart from the rest |
| `ForestRoots.EachDeclaredRingHasOneTop` | src-tauri/src/api.rs:930-935 | each ring of declarations has exactly one member at the top |
| `WorkerForests.EachRingHasOneRoot` | src-tauri/src/api.rs:930-935 | each ring of controllers has exactly one root, its earliest member with ties broken by id |
| `WorkerForests.RingsCloseInOnePass` | src-tauri/src/api.rs:980-985 | a worker on a ring is reached again within as many steps as there are workers |
| `BuildTrees.NodeOf` | src-tauri/src/api.rs:959-978 | a subtree shows exactly the newly visited workers, all below its worker, each under its declared controller, siblings as they arrive |
| `BuildTrees.OnCycle` | src-tauri/src/api.rs:986-1002 | one pass answers whether the chain leads back: exactly for self-declared workers and members of a ring |
| `BuildTrees.FileWorkers` | src-tauri/src/api.rs:944-955 | the roots are exactly the workers without another known controller, everyone else is filed under theirs, all in input order |
| `BuildTrees.BuildTree` | src-tauri/src/api.rs:936-1046 | for all unique ids: every worker exactly once, children under their declared controllers, roots exactly those without a controller and the first of each ring, siblings and roots in the stated order |
| `ForestShapes.ChildrenAreExactly` | src-tauri/src/api.rs:959-978 | the children of a shown worker are exactly the workers that declare it and are no roots |
| `ForestShapes.InputOrderIsIrrelevant` | src-tauri/src/api.rs:930-935 | permuting the input changes nothing but the order of siblings |
| `SiblingOrders.TheTreeIsDetermined` | src-tauri/src/api.rs:936-1046 | there is exactly one tree that shows a list of workers in order |
| `ErrorFields.FrontendErrorField` | src-tauri/src/api.rs:200-224 | the loop yields the longest escaped prefix of the sanitised redacted text within the byte limit |
| `ErrorFields.CutAtBoundary` | src-tauri/src/api.rs:202-205 | the input is cut at the last character boundary within 8192 bytes |
| `ErrorFields.FieldsAreFaithful` | src-tauri/src/api.rs:200-224 | a field keeps its byte bound, holds no line break or dangling escape, and unescapes to the longest fitting prefix |
| `ErrorFields.FieldsShowTheRedactedText` | src-tauri/src/api.rs:200-224 | a field shows the longest fitting beginning of the redaction of the value's first 8192 bytes, with control characters and line separators as spaces and all else unchanged |
| `ErrorFields.EscapesAreMinimal` | src-tauri/src/api.rs:216-222 | exactly quotes and backslashes gain a backslash |
| `Utf8.CharactersDecode` | src-tauri/src/api.rs:216 | each character's bytes give it back, announce their number, and are the shortest (section 3 of RFC 3629) |
| `Utf8.BytesCountTheEncoding` | src-tauri/src/api.rs:216 | the bytes counted for a text are the length of its UTF-8 encoding |
| `ErrorLogs.FrontendErrorLog.Write` | src-tauri/src/api.rs:234-293 | the lines printed and the limiter's whole new state, for error and feedback reports |
| `ErrorLogs.EmitFrontendError` | src-tauri/src/api.rs:319-342 | a report is answered as accepted exactly if it is an error report or the swept minute holds fewer than ten feedback lines |
| `ErrorLogs.LinesReadBack` | src-tauri/src/api.rs:273-288 | the quoted fields of a printed line read back as exactly the escaped texts |
| `ErrorLogs.FeedbackLinesAreRecognised` | src-tauri/src/api.rs:338 | exactly the feedback lines begin with the prefix that acceptance looks for |
| `ErrorLines.LinesHoldTheReport` | src-tauri/src/api.rs:273-288 | every printed line holds the redacted message, stack, route without query and context, each in its own field within its own limit |
| `ErrorLines.SummariesArePrintedExactlyWhenDue` | src-tauri/src/api.rs:252-261 | a summary is printed exactly if reports are pending, the last minute has room and sixty seconds have passed since the last summary or the first call; it comes first and names all of them |
| `ErrorLogRuns.TheLogIsBoundedAndLosesNothing` | src-tauri/src/api.rs:234-293 | over any run: at most 50 ERROR and 10 FEEDBACK lines in any 60 seconds, equal messages 10 seconds and summaries 60 seconds apart, and every error report printed, summarised or still counted |
| `ErrorLogRuns.ErrorsPrintExactlyWhenAllowed` | src-tauri/src/api.rs:262-272 | an error report is printed if and only if the last minute has room and its message was not printed in the last ten seconds |
| `ErrorLogRuns.FeedbackPrintsExactlyWhenAllowed` | src-tauri/src/api.rs:243-250 | over any run feedback is printed and accepted if and only if the last minute holds fewer than ten feedback lines |
| `BudgetLimits.PercentsReadBack` | src-tauri/src/budget.rs:209-220 | a printed percentage is read as itself exactly between 1 and 100, and refused otherwise |
| `BudgetLimits.PercentsAreReadExactly` | src-tauri/src/budget.rs:209-220 | a text reads as a percentage exactly if it is whitespace, at most one plus sign, zeros, the decimal of 1 to 100, and whitespace |
| `BudgetLimits.SettingKeysAreInjective` | src-tauri/src/budget.rs:136-138 | a settings key names one profile and one window |
| `BudgetLimits.ClassifyInvertsSettingKey` | src-tauri/src/budget.rs:240-249 | a key is taken for a profile and rate window if and only if it is their settings key |
| `BudgetLimits.LimitsFromSettings` | src-tauri/src/budget.rs:237-266 | for any list: one row per profile with the last readable value of each window, no empty row, no missing profile, sorted by id |
| `BudgetLimits.TheLastReadableCounts` | src-tauri/src/budget.rs:237-263 | of several values listed for a key the last readable one counts |
| `BudgetStores.BothViewsAgree` | src-tauri/src/budget.rs:269-294 | folding the listing and looking keys up give every named profile the same limits, and a row exists exactly for profiles with a limit |
| `BudgetStores.SettingsStore.LimitsOf` | src-tauri/src/budget.rs:276-294 | the loop over the windows reads both keys, treating missing and unreadable values as no limit |
| `BudgetStores.SettingsStore.MonthLimitOf` | src-tauri/src/budget.rs:297-302 | the month threshold is the readable value of its own key |
| `BudgetStores.SettingsStore.SetLimit` | src-tauri/src/budget.rs:309-329 | stores a valid percentage or deletes the key; a blank profile or an invalid value changes nothing |
| `BudgetStores.SetLimitChangesOnlyItsKey` | src-tauri/src/budget.rs:309-329 | writing succeeds exactly for a named profile and valid value, reads back, and leaves every other profile, window and key alone |
| `BudgetStores.SetLimitChangesOnlyItsRow` | src-tauri/src/budget.rs:309-329 | in the folded listing only the profile's own row changes, only in the window written |
| `BudgetStores.SettingsStore.UpdateLimits` | src-tauri/src/budget.rs:337-356 | the table and the answer after both windows are written one after the other |
| `BudgetStores.AcceptedUpdateDoesWhatWasAsked` | src-tauri/src/budget.rs:331-356 | accepted exactly for a known profile and valid changes; answers with each window as asked or as it was, and touches no other profile |
| `BudgetStores.RefusedUpdateChangesNothingIff` | src-tauri/src/budget.rs:331-356 | a refused update leaves a change behind if and only if the profile is known and the five-hour change is valid and makes a difference |
| `BudgetStores.AHalfWrittenUpdate` | src-tauri/src/budget.rs:331-356 | an update to 90 and 200 percent is refused and the 90 stay |
| `BudgetWatchers.StopsExactlyWhenAWindowCrosses` | src-tauri/src/budget.rs:364-406 | a stop exactly if some window reaches its threshold, for the shortest such window, with its own figures |
| `BudgetWatchers.BlocksEndWithinTheWindow` | src-tauri/src/budget.rs:400-421 | a block ends no later than the window's length or a named future reset, and after now exactly if the clock is below its maximum |
| `BudgetWatchers.BlocksEndExactly` | src-tauri/src/budget.rs:400-421 | a block ends at the named reset if that lies ahead and within five hours or seven days, and otherwise a full window from now, saturating |
| `BudgetWatchers.BudgetReasonsAreRecognised` | src-tauri/src/budget.rs:185-192 | the budget mark survives the clamping of stored reasons, and real reasons survive whole |
| `BudgetWatchers.BudgetWatcher.PauseWorkers` | src-tauri/src/budget.rs:541-588 | unbinds, kills and notes the profile's running bound workers, one after the other |
| `BudgetWatchers.BudgetWatcher.CheckRow` | src-tauri/src/budget.rs:471-527 | one profile's release, stop or nothing, with every other profile's row and measurement left alone |
| `BudgetWatchers.BudgetWatcher.CheckOnce` | src-tauri/src/budget.rs:458-529 | a sweep treats each profile with a threshold by itself, nobody else, reports the actions in order of ids, and pauses exactly for its stops |
| `BudgetRuns.SweepsReadTheTable` | src-tauri/src/budget.rs:458-470 | a sweep over a listing of the settings goes by the thresholds stored in the table |
| `BudgetRuns.ASweepStopsExactlyWhen` | src-tauri/src/budget.rs:509-526 | a profile is stopped exactly if it is not blocked and a measurement newer than its last stop's reaches a threshold |
| `BudgetRuns.ASweepReleasesExactlyWhen` | src-tauri/src/budget.rs:473-507 | a profile is released exactly if it has a threshold and a block with the budget's mark whose end has come |
| `BudgetRuns.ASweepReportsWhatItDid` | src-tauri/src/budget.rs:458-529 | a sweep reports exactly what it did to each profile, once each, in the order of the ids |
| `BudgetRuns.StopsAndReleasesAlternate` | src-tauri/src/budget.rs:478-526 | over any run each profile's stops and releases alternate |
| `BudgetRuns.EveryBlockHasItsStop` | src-tauri/src/budget.rs:478-526 | a profile not blocked at first is blocked only by an earlier stop that was not released since |
| `BudgetRuns.ABlockStandsUntilItIsDue` | src-tauri/src/budget.rs:478-507 | a block stands until the first sweep at or after its end that still finds a threshold, and that sweep lifts it |
| `BudgetRuns.WithoutThresholdsABlockNeverEnds` | src-tauri/src/budget.rs:458-507 | once the thresholds are cleared, no sweep lifts the block |
| `BudgetRuns.AClearedThresholdLeavesABlock` | src-tauri/src/budget.rs:458-507 | a run in which a profile is stopped, its threshold is cleared, and the block stands long after its end |
| `BudgetRuns.StopsUseNewMeasurements` | src-tauri/src/budget.rs:509-517 | later stops of a profile rest on strictly newer measurements |
| `BudgetRuns.NoMoreStopsThanMeasurements` | src-tauri/src/budget.rs:509-517 | a profile is never stopped more often than it was measured |
| `BudgetRuns.BlocksDoNotOverlap` | src-tauri/src/budget.rs:478-526 | with a clock that does not go back, the next stop comes no earlier than the end of the last block |
| `BudgetRuns.ProviderBlocksStand` | src-tauri/src/budget.rs:484-491 | a block without the budget mark is never lifted |
| `PausedFleets.ASweepPausesExactlyItsStops` | src-tauri/src/budget.rs:541-588 | exactly the running bound workers of the stopped profiles lose their session, each killed once, and gain the note; every other row, session and agent is left alone |
| `Critics.PiecesComeFromTheirLine` | src-tauri/src/critic.rs:180-214 | whatever is taken from a line is a trimmed contiguous part of it |
| `CriticBlocks.LineEndings` | src-tauri/src/critic.rs:228 | a line may end in a carriage return and a line feed, and the last one in nothing |
| `CriticLines.MarkersAreReadExactly` | src-tauri/src/critic.rs:180-242 | a line is a pattern or a learning exactly if it is an optional bullet, the label in any case, a colon and the value, with any whitespace between them |
| `CriticLines.BlanksAreReadExactly` | src-tauri/src/critic.rs:243-247 | a line is blank exactly if it is whitespace and at most one bullet |
| `CriticLines.TextsAreRead` | src-tauri/src/critic.rs:249-254 | a bulleted or plain text that marks nothing wraps, without its bullet and outer whitespace |
| `CriticBlocks.PatternsAreInForceExactly` | src-tauri/src/critic.rs:231-242 | a pattern is in force exactly from its line to the next marker, across blank and other lines |
| `CriticBlocks.PiecesAreInOrder` | src-tauri/src/critic.rs:236-254 | a block consists of the learning's value, if any, and the lines that wrap it, in order |
| `CriticBlocks.BlocksAreAllInOrder` | src-tauri/src/critic.rs:223-264 | the blocks are those of all learning lines with any content, in order |
| `Critics.ParseCandidates` | src-tauri/src/critic.rs:223-264 | the loop with its carried state yields the first three non-empty blocks, each with the pattern in force and its wrapped lines joined |
| `Critics.Flush` | src-tauri/src/critic.rs:267-276 | a candidate is kept exactly if it has content |
| `Critics.ResultsArePrintable` | src-tauri/src/critic.rs:223-276 | at most three results, all fields non-empty, trimmed and on one line |
| `Critics.ContentComesFromConsecutiveLines` | src-tauri/src/critic.rs:216-222 | a content joins non-empty trimmed parts of consecutive input lines and nothing else |
| `CriticPrinting.WrappedLearningsReadBack` | src-tauri/src/critic.rs:216-264 | blocks printed with their learning broken over any number of lines read back as the first three, joined |
| `CriticPrinting.CandidatesReadBack` | src-tauri/resources/learning-critic/SKILL.md:45-56 | up to three printable candidates in the documented format read back unchanged |
| `CriticLines.LooselyWrittenCandidatesReadBack` | src-tauri/src/critic.rs:216-264 | candidates printed with any bullet, spacing and case of labels read back, the first three of them |
| `CriticPrinting.ParsingIsStable` | src-tauri/src/critic.rs:223-264 | for every input, parsing, printing and parsing again changes nothing |
| `RestoreNames.BackupsAreAcceptedExactly` | src-tauri/src/db_restore.rs:81-104 | a backup is accepted exactly if it is another file, named as a snapshot of the destination from before a migration or, where allowed, as the updater's |
| `RestoreNames.RefusalsNameTheirCause` | src-tauri/src/db_restore.rs:81-92 | a missing file name and the destination as its own backup are each refused as such |
| `RestoreSteps.StepsKeepSound` | src-tauri/src/db_restore.rs:75-136 | the invariant of interleaved restores survives every step, successful or failing |
| `RestoreSteps.TheDestinationIsNeverMixed` | src-tauri/src/db_restore.rs:75-136 | at every moment the destination is as before or holds all bytes of one accepted restore, and the latter once one is done |
| `RestoreSteps.TheDestinationEqualsABackup` | src-tauri/src/db_restore.rs:52-63 | if readers yield their backups, the destination is as before or equals a backup still in place |
| `RestoreSteps.EverythingElseIsPreserved` | src-tauri/src/db_restore.rs:106-136 | every file there before, except the destination and its sidecars, keeps its bytes, backups included; new files are temporary ones |
| `RestoreSteps.TempsAreNeverShared` | src-tauri/src/db_restore.rs:168-188 | two restores never hold the same temporary file, nor one that was there before |
| `RestoreNames.SlotsAreApart` | src-tauri/src/db_restore.rs:168-171 | every process and slot has a temporary file of its own |
| `RestoreSteps.OccupancyWasFound` | src-tauri/src/db_restore.rs:168-191 | allocation reports occupancy only after this restore's own attempt at each of the 32 slots found it occupied |
| `RestoreSteps.SidecarsOutliveTheOldDatabase` | src-tauri/src/db_restore.rs:126-135 | the sidecars are untouched until the destination is replaced |
| `RestoreSteps.SidecarsGoOnlyByUnlinking` | src-tauri/src/db_restore.rs:134-166 | at every moment a sidecar is there, with its old bytes, exactly if it was there at first and no restore's unlink of it has succeeded |
| `RestoreSteps.SidecarsMaySurviveARestore` | src-tauri/src/db_restore.rs:126-135 | every accepted restore whose first slot is free has a run that stops right after its replace, with the new database beside both old sidecars |
| `DbRestores.Disk.CreateRestoreTemp` | src-tauri/src/db_restore.rs:168-191 | exactly the path of the first free slot is created, exclusively; occupancy is reported exactly if all 32 exist and none is denied |
| `DbRestores.Disk.FillAndReplace` | src-tauri/src/db_restore.rs:108-133 | on success the destination holds the source and the temporary file is gone; on failure nothing but it may remain |
| `DbRestores.Disk.RestoreFromReader` | src-tauri/src/db_restore.rs:75-136 | succeeds exactly if checks, directory, slot, reader and replace do; the whole new contents of the disk either way; each call is a run of the steps |

## Left out

- The HTTP server, its routes, tokens and error codes: plumbing around the modelled functions.
- The driver, installer, staging and startup code around the journal: it only calls the modelled transitions.
- JSON encoding and the checks on the journal's location and path aliases: a file holds a journal value or is unreadable.
- The text of error messages: errors carry their kind and the facts that decide it.
- The redaction rules: an arbitrary function, so that the field and log results hold for whatever it returns.
- Symbolic and hard links, and the canonical-path half of `same_file`: a path in the restore model is already resolved, so that two paths are one file exactly if they are equal.
- The bounded retry inside `replace_file` on Windows, file permissions and what survives a power failure: a replace either happens or does not.
- Restores of different destinations at once: the interleaved restores of one run share their destination.
- `list_pre_migration_backups`: lists and sorts file names.
- Failures of single settings reads and writes: the settings table answers every single call; only the sweep's listing may fail.
- Threads, sleeping, killing processes, logging, the message log and status events: a kill is an entry in the list of killed sessions.
- The other callers of the quota map (`release_expired`, `apply_probe`, ordinary agent output): runs of the watcher assume that only it changes the map.
- `head_budget`, `tail_budget`, `render_diff` and `build_instruction`: they only assemble the critic's input.
- The user interface and the build, configuration and documentation files.
