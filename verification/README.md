# Verified models of the execlaw core protocols

A Dafny project that models the parts of execlaw in which a mistake loses data, sends to the
wrong owner or leaks text, and proves what each keeps over all inputs, runs or interleavings.

`dafny verify dfyconfig.toml` checks everything.

## What is modelled

- **Ownership and send fencing** (`Ownership`, `OwnershipStore`, `OwnershipRuns`, `SendFencing`,
  `SingleSend`, `HandbackContext`, `OwnershipEffects`). The store is a class over its tables with one
  method per transaction. A run interleaves those transactions, over any number of scopes, with
  admission, the relay's workers and the operator's outbox decisions, as the outbox code makes them.
- **Language-server traffic** (`Bytes`, `Utf8`, `LspFraming`, `EditorFraming`, `HeaderLaws`,
  `DiagnosticsExchange`, `ExchangeLaws`, `SnapshotWalk`). Frames and both readers at byte level (Base
  Protocol of the Language Server Protocol 3.17, "Header Part" and "Content Part"), the diagnostics
  session over any trace of messages, timeouts and write failures (JSON-RPC 2.0, section 5), and the
  stack-based walk over a directory tree.
- **Context trimming** (`ContextWindow`, `HistoryPolicy`, `BudgetLaws`). Whole-turn fitting under any estimator,
  and the history policies, both shortening one message list in place.
- **Redaction** (`Replacement`, `Redaction`, `Redactor`, `RedactionSafety`, `RedactionMeaning`).
  Sequential replacement, pattern redaction with a growing pseudonym table, and the walk over a JSON value.
- **Offline file commands** (`KeyRotation`, `Restore`, `EncryptInPlace`, `OfflineCommands`). Each
  protocol is a state machine whose steps can fail or be the last; each command is a method whose
  steps are a run of its protocol.
- **Completion contracts** (`CompletionContract`, `ContractRoundTrip`, `ContractLaws`). Editor JSON to command-line
  arguments to built JSON.
- **Model download** (`ModelDownload`, `DownloadResume`). The loop over a manifest on a disk of names
  and shared storage, so that hard links are real.
- **Agent outcomes, quiet hours, charts** (`AgentOutcome`, `QuietHours`, `BarChart`).

`Wrappers`, `Text`, `CaseLaws` and `Json` hold what several of them use. `OwnershipEffects`, `HeaderLaws`,
`ExchangeLaws`, `RedactionMeaning`, `BudgetLaws` and `ContractLaws` say what the functions of the other
modules come to, in terms of the inputs and the literal texts and limits.

## Where the code differs from what is promised

For each of these an input that shows it is proved, and the exact condition under which the promise holds.

- `crates/context-window/src/lib.rs:22-25` promises that the first System message is never removed.
  It is, when it is not the first message (`HistoryPolicy.SystemPromptKeptIff`). The doc of the token
  budget (lines 185-187) leaves the system prompt out of the estimate; the code counts it
  (`HistoryPolicy.PromptCostsAMessage`, `HistoryPolicy.TokenBudgetAsDocumentedIff`).
- Ownership: a takeover between a relay worker's claim and its owner check leaves the row pending
  under the old generation, because `record_failure` looks at the row id only
  (`SendFencing.StaleRowIsReachable`, `SendFencing.LiveRowsCurrentStep`). The check before dispatch is
  what fences the send. A scope that was taken over before any agent was assigned restarts its
  generations at 1, so a takeover can fail, for good in some cases (`OwnershipRuns.SecondTakeoverFails`,
  `OwnershipRuns.UnownedTakeoverIff`, `OwnershipRuns.BlockedIsReachable`,
  `OwnershipRuns.TakeoverAlwaysSucceedsIff`). An operator action recorded under the handback event's
  id blocks that handback (`HandbackContext.ReservedActionBlocksHandback`,
  `HandbackContext.HandbackSucceedsIff`).
- Key rotation relies on the key file being replaced by rename; the in-place write used on Windows
  does not give it (`KeyRotation.InPlaceLoses`, `KeyRotation.SafeIffReplaced`). It also relies on the
  old-key snapshot having reached the disk before the rekey, which the command does not ask for
  (`KeyRotation.StopAfterRekeyLoses`, `KeyRotation.RekeyIsSafeIff`).
- `crates/outbox/src/lib.rs:236-237` promises that no two passes dispatch the same row. They can, when a
  pass that read the row before claims it after another one's lease (`SingleSend.RelaySendsTwice`,
  `SingleSend.DoubtfulRowsAreNotSent`, `SingleSend.HazardSendsAgain`).
- Restore relies on its temporary file having reached the disk before the live one is removed
  (`Restore.StopAfterRemovalLoses`, `Restore.RemovalKeepsIff`). It moves main files only, so a log
  left beside either name spoils the result or loses what was carried over
  (`Restore.OldLogSpoilsRestore`, `Restore.LogKeepsTombstones`, `Restore.FinishedInstallsIff`). And a
  retry after a stop between removal and rename brings back what was to be forgotten
  (`Restore.RetryAfterCrashRevives`, `Restore.FinishedHonoursIff`).
- Encrypting in place opens the source, which writes to it, before there is a backup
  (`EncryptInPlace.SourceUntouchedIff`); and a failure can leave nothing but the backup
  (`EncryptInPlace.FailedRenameMayLeaveBackupOnly`, `EncryptInPlace.OnlyBackupLeftIff`).
- Redaction: construction accepts maps that leave their own source in place
  (`RedactionSafety.AcceptedMapMayLeak`). The exact condition is proved for sources without angle
  brackets (`Replacement.RemovesSourcesIff`); with one in a source it is not enough
  (`RedactionSafety.BracketSourceMayLeak`). A source may also come back in a pseudonym
  (`RedactionSafety.PseudonymMayHoldSource`, `RedactionSafety.AllDocumentsFreeIff`).
- Download: a file named like another's temporary file is lost though completion is reported
  (`ModelDownload.LaterDownloadClobbers`, `ModelDownload.CompletionIsRealIff`). The comment at
  `crates/container-manager/src/hf_downloader.rs:469-475` speaks of a matching byte count, but the import
  looks at none; with hard links this lets a later run truncate a secondary cache that lines 46-47 call
  read-only (`DownloadResume.SecondRunTruncatesSecondary`, `DownloadResume.SecondariesAreReadOnlyIff`).
- Framing: the buffer limit makes 8,166 bytes the largest safe chunk (`LspFraming.SafeChunkIsLargest`,
  `LspFraming.ReadsWhatWasWritten`). Of two length fields one reader takes the first, the other the last
  (`HeaderLaws.ReadersDiffer`).
- Quiet hours: the minute parser also takes a sign, because the integer parser does
  (`QuietHours.SignIsAccepted`, `QuietHours.AcceptedIff`, `QuietHours.HourMinuteFormIff`).

## Trusted

SHA-256 does not collide (scope keys are the joined components); JSON bodies decode to what was
encoded; a pattern's matches and the text between them make up the text; changing a database's key is
atomic and durable, one rename is atomic, the directory sync after the rename of the key file takes
effect, verification passes complete files only, synced files survive a stop and others may not; closing
the last connection to a database folds its log in, syncing the file, or leaves both as they are; a log
beside a file that is not its own spoils it when it opens; a copy whose source and target are one file
truncates it, as the standard library documents;
clap hands flag values over grouped by flag and in order; the library sorts.

## Model

| member | source | states |
|---|---|---|
| Ownership.ScopeKeyInjective | crates/core/src/agent_ownership.rs:158-162 | scope keys of components free of the 0x1f separator are equal only for equal components (the hash itself is trusted) |
| Ownership.ScopeKeyNeedsCleanComponents | crates/core/src/agent_ownership.rs:158-162 | two different scopes with a separator inside a component share a key |
| Ownership.InOrder | crates/core/src/agent_ownership.rs:113-121 | the operator actions of a generation come by sequence and then event id, each once |
| OwnershipStore.Store.AssignAgent | crates/core/src/agent_ownership.rs:43-58 | inserts the owner row only if there is none and returns the row that is there |
| OwnershipStore.Store.Takeover | crates/core/src/agent_ownership.rs:61-87 | the transaction: new generation, takeover event, every live row of an older generation settled, or nothing at all on a key clash |
| OwnershipStore.Store.CancelOutdatedRows | crates/core/src/agent_ownership.rs:75-82 | the loop over rows settles exactly the live rows fenced on this scope below the new generation |
| OwnershipStore.Store.HandbackWithContext | crates/core/src/agent_ownership.rs:103-131 | the transaction: restores the previous agent or removes the row, logs the actions, refuses a generation that is not held |
| OwnershipStore.Store.Handback | crates/core/src/agent_ownership.rs:90-99 | the same transaction without the actions |
| OwnershipStore.Store.RecordOperatorAction | crates/core/src/agent_ownership.rs:135-154 | stores an action only under a controller-held scope and only under a new event id |
| OwnershipRuns.InvRun | crates/core/src/agent_ownership.rs:43-154 | owner rows stay well formed, rows are fenced on a reached generation and its specialist, every held generation is logged: in every interleaving |
| OwnershipRuns.OwnershipOverRun | crates/core/src/agent_ownership.rs:43-131 | once an agent is assigned, over every run the row survives, keeps its specialist, and its generation grows by exactly the successful takeovers and handbacks |
| OwnershipRuns.HandbackRestoresSpecialist | crates/core/src/agent_ownership.rs:103-131 | however many takeovers came before, a handback returns the scope to the agent first assigned |
| OwnershipRuns.StaleHandbackRefused | crates/core/src/agent_ownership.rs:90-131 | a generation from before a change hands nothing back and changes no table |
| OwnershipRuns.TakeoverAlwaysSucceedsIff | crates/core/src/agent_ownership.rs:61-87 | in every reachable database an assigned scope can be taken over at any later time if and only if none of its events lies above its generation, which is if and only if its next takeover event is not stored yet |
| OwnershipRuns.TakeoverNeverBlocked | crates/core/src/agent_ownership.rs:61-87 | one direction of it, from any state that meets the invariants |
| OwnershipRuns.AssignmentIsSafeIff | crates/core/src/agent_ownership.rs:43-58 | the first assignment makes takeovers reliable if and only if the scope's second takeover event is not stored |
| OwnershipRuns.UnownedTakeoverIff | crates/core/src/agent_ownership.rs:61-87 | in every reachable database a scope without an owner row can be taken over if and only if it has no event at all |
| OwnershipRuns.SecondTakeoverFails | crates/core/src/agent_ownership.rs:61-131 | takeover, handback and takeover of a scope no agent was assigned to ends in a constraint error |
| OwnershipRuns.BlockedForever | crates/core/src/agent_ownership.rs:61-87 | once the next takeover event is already stored, no takeover of the scope succeeds in any run |
| OwnershipRuns.BlockedIsReachable | crates/core/src/agent_ownership.rs:61-131 | two takeovers of an unassigned scope, a handback and an assignment lead to that state |
| OwnershipRuns.TakeoverAndHandbackKeysDiffer | crates/core/migrations/0086_h101_h105_transport_continuity.sql:126-141 | takeover and handback events of any generations never share a primary key |
| SendFencing.TakeoverSettlesRows | crates/core/src/agent_ownership.rs:75-82 | every live row of the scope gets one delivery event at that time with its attempts, cancelled_by_takeover and status failed exactly if it was pending, takeover_outcome_unknown and unknown exactly if it was in flight, and no lease; no other row changes |
| SendFencing.TakeoverFencesSends | crates/server/src/transport_outbox.rs:1410-1456 | any time after a takeover, a row fenced on an older generation is sent only by a worker that had already passed the owner check before it |
| SendFencing.OnlyCheckedSendsSurvive | crates/outbox/src/lib.rs:238-397 | such a worker's check is the only thing a takeover does not fence, over every run |
| SendFencing.LiveRowsCurrentStep | crates/core/src/outbox.rs:447-483 | live rows stay on the current generation at a step if and only if the step does not requeue a row whose owner is no longer current |
| SendFencing.LiveRowsCurrentRun | crates/core/src/outbox.rs:158-234 | over a run from the empty database without such a step, every pending or in-flight row is current |
| SendFencing.TakeoverBetweenClaimAndCheckRequeues | crates/outbox/src/lib.rs:238-397 | a takeover between a worker's claim and its owner check leaves the row pending under the old generation |
| SendFencing.StaleRowIsReachable | crates/outbox/src/lib.rs:238-397 | a run from the empty database that does so |
| SingleSend.SafeStepIff | crates/outbox/src/lib.rs:262-327 | one worker at most holds a row, none while an earlier send of it may have been accepted, and it is not pending in either case: a step keeps that if and only if it is no stale claim and no operator's decision on a held row |
| SingleSend.DoubtfulRowsAreNotSent | crates/outbox/src/lib.rs:236-237 | in every run without such steps no row is sent again whose earlier send may have been accepted, unless an operator decided |
| SingleSend.HazardSendsAgain | crates/outbox/src/lib.rs:262-327 | and each such step does make it possible: if the owner allows the row, the workers alone can then send it again while in doubt |
| SingleSend.RelaySendsTwice | crates/outbox/src/lib.rs:282-327 | a run from the empty database in which the relay does so by itself: a worker that read the row before its last claim claims it after the lease |
| HandbackContext.HandbackContextIsExact | crates/core/src/agent_ownership.rs:103-154 | between a takeover and the next handback, with any other steps in between, the handback returns the accepted actions, each once, ordered, none of an earlier generation |
| HandbackContext.HandbackSucceedsIff | crates/core/src/agent_ownership.rs:103-131 | in every reachable database a handback succeeds if and only if the controller holds that generation and no action was stored under the handback event's own id |
| HandbackContext.ReservedActionBlocksHandback | crates/core/src/agent_ownership.rs:135-154 | an action recorded under that id is accepted, and from then on that generation cannot be handed back |
| OwnershipEffects.AssignEffect | crates/core/src/agent_ownership.rs:43-58 | the first agent assigned owns the scope under generation 1; nothing else changes, and no later one does anything |
| OwnershipEffects.TakeoverEffect | crates/core/src/agent_ownership.rs:61-87 | the Controller owns the scope under the next generation, remembering the agent it took from; one takeover event is added |
| OwnershipEffects.HandbackEffect | crates/core/src/agent_ownership.rs:103-131 | the remembered agent owns it under the next generation, or nobody does; the event stores the returned actions |
| OwnershipEffects.HandbackRefusals | crates/core/src/agent_ownership.rs:103-131 | a handback is refused exactly for a generation the Controller does not hold, and fails exactly for an event id in use |
| OwnershipEffects.RecordEffect | crates/core/src/agent_ownership.rs:135-154 | an action is stored with its sequence and payload under the held generation, once for each event id, and nothing else changes |
| OwnershipEffects.AdmitEffect | crates/core/src/outbox.rs:158-234 | a send is refused unless its owner, agent and generation are current; a new key makes one pending row with its first event |
| OwnershipEffects.AdmitAgain | crates/core/src/outbox.rs:158-234 | an old key with the same effect and owner gets its row back if that is pending, in flight or delivered, and is refused otherwise |
| OwnershipEffects.KeysStayDistinct | crates/core/src/outbox.rs:158-234 | over every run no two rows share an idempotency key |
| OwnershipEffects.ClaimEffect | crates/core/src/outbox.rs:297-327 | a claim leases a pending row, or one whose lease is over, for 120 seconds, and tells the two apart in the timeline |
| OwnershipEffects.OutcomeEffects | crates/outbox/src/lib.rs:331-394 | an accepted send ends delivered; a refused one is pending again under the budget and dead at it; an uncertain one is unknown, if it is still in flight |
| OwnershipEffects.CheckEffects | crates/outbox/src/lib.rs:262-327 | a row found in flight is not sent but unknown; one whose owner changed counts a failed attempt; exactly the others go on to the send |
| OwnershipEffects.RefusalEffects | crates/outbox/src/lib.rs:340-362 | a refusal before the send is one more attempt, pending under the budget and dead at it |
| OwnershipEffects.OperatorEffects | crates/core/src/outbox.rs:378-444 | an operator retries or confirms exactly what is unknown and revives exactly what is dead |
| OwnershipEffects.TimelineTellsStatus | crates/core/src/outbox.rs:486-509 | over every run each row's status is the one its last delivery event tells, and no event is ever lost |
| LspFraming.PopFrame | crates/container-manager/src/workspace_executor.rs:1155-1213 | a whole frame at the front is popped and nothing behind it is touched |
| LspFraming.PopPrefix | crates/container-manager/src/workspace_executor.rs:1155-1213 | any proper prefix of a frame makes the decoder wait without an error |
| LspFraming.ReadsWhatWasWritten | crates/container-manager/src/workspace_executor.rs:1127-1213 | for any list of bodies up to the limit and any cut into chunks: exactly the bodies in order and an empty buffer, if and only if every chunk fits beside the incomplete frame it meets |
| LspFraming.ChunkIndependence | crates/container-manager/src/workspace_executor.rs:1127-1213 | chunks of at most 8,166 bytes always fit |
| LspFraming.SafeChunkIsLargest | crates/container-manager/src/workspace_executor.rs:1161-1169 | with 8,167-byte chunks some stream overflows the buffer |
| LspFraming.Decoder.Push | crates/container-manager/src/workspace_executor.rs:1161-1169 | appends the chunk, or refuses it and leaves the buffer alone |
| LspFraming.Decoder.PopMessage | crates/container-manager/src/workspace_executor.rs:1171-1213 | takes the first frame off the buffer, whether or not its body parses |
| LspFraming.Decoder.ReadMessage | crates/container-manager/src/workspace_executor.rs:1215-1261 | the reading loop over transport items equals its recursive definition |
| LspFraming.ReadsNextSent | crates/container-manager/src/workspace_executor.rs:1215-1261 | each read of an uninterrupted stream returns the next message that was sent and leaves the rest |
| LspFraming.KeepsEarlyErrors | crates/container-manager/src/workspace_executor.rs:1252-1256 | reading a message keeps exactly the first 8 KiB of all error output that came before it |
| HeaderLaws.AnnouncedIff | crates/container-manager/src/workspace_executor.rs:1182-1192 | a header line gives a length exactly if its name is Content-Length in any case and its value is one number that fits, with white space around it and at most a plus sign before |
| HeaderLaws.FirstLengthDecides | crates/container-manager/src/workspace_executor.rs:1171-1208 | for any header lines: the first that announces a length, at any position, decides; its body is popped, waited for, or refused above 1 MiB |
| HeaderLaws.NoLengthIff | crates/container-manager/src/workspace_executor.rs:1182-1194 | a header is refused for a missing length exactly if none of its lines announces one |
| HeaderLaws.HeaderRefusals | crates/container-manager/src/workspace_executor.rs:1172-1187 | without a blank line the decoder waits up to 8 KiB and refuses more; a header is refused as not UTF-8 exactly if it encodes no text |
| Utf8.DecodesIff | crates/container-manager/src/workspace_executor.rs:1187 | bytes decode to a text exactly if they are its encoding (RFC 3629, section 3) |
| EditorFraming.ReadMessage | crates/cli/src/api_client.rs:801-833 | the line-based header loop equals its recursive definition on every byte stream |
| EditorFraming.ReadsWrittenMessage | crates/cli/src/api_client.rs:801-844 | the reader takes exactly one written message off the front of any stream |
| EditorFraming.ReadsAllWritten | crates/cli/src/api_client.rs:801-844 | any list of written messages is read back whole |
| EditorFraming.ReadersAgree | crates/cli/src/api_client.rs:801-844 | the line-based reader and the incremental decoder read the same messages from the same frames |
| HeaderLaws.LastLengthDecides | crates/cli/src/api_client.rs:801-833 | for any header lines up to 4,096 bytes in which no length field is at fault: the last one decides |
| HeaderLaws.FaultyLength | crates/cli/src/api_client.rs:801-833 | the first length field that is unreadable or above 1 MiB ends the reading with its own error |
| HeaderLaws.ReadersDiffer | crates/cli/src/api_client.rs:801-833 | two length fields that differ: the two readers take different messages from the same bytes |
| HeaderLaws.WritersRefuse | crates/container-manager/src/workspace_executor.rs:1127-1153 | both writers make the frame of any body up to 1 MiB, one length line in front, and refuse a longer one |
| DiagnosticsExchange.Diagnose | crates/container-manager/src/workspace_executor.rs:372-585 | the two loops follow the session's transitions and stop at its end |
| DiagnosticsExchange.ResultIsFirstReport | crates/container-manager/src/workspace_executor.rs:430-585 | what a session returns is the first non-empty matching report cut to 48, or the empty list when an empty one and no other came before |
| DiagnosticsExchange.FirstReportIsResult | crates/container-manager/src/workspace_executor.rs:430-585 | conversely the first non-empty report ends the session with it |
| DiagnosticsExchange.EveryRequestAnsweredOnce | crates/container-manager/src/workspace_executor.rs:1263-1298 | over every message trace the answers sent are those owed to the handled server requests, each once and in order |
| ExchangeLaws.AnswersMatchRequests | crates/container-manager/src/workspace_executor.rs:1263-1298 | over every trace the k-th answer carries the id of the k-th handled request, and the result its method calls for: up to 64 nulls, the one folder, no edit, or null |
| ExchangeLaws.SpeaksInOrder | crates/container-manager/src/workspace_executor.rs:388-477 | over every trace the session's own messages are the request to initialise, the introduction once, and the farewell exactly if there is a result |
| ExchangeLaws.StartingEnds | crates/container-manager/src/workspace_executor.rs:403-424 | how each event ends the wait for the first response, and when diagnostics are asked for |
| ExchangeLaws.CollectingEndsIff | crates/container-manager/src/workspace_executor.rs:479-566 | over every trace: exactly when and how an event ends a collecting session; after an empty report the wait is five seconds from the last one that started it |
| SnapshotWalk.ValidateSnapshot | crates/container-manager/src/workspace_executor.rs:680-734 | the explicit-stack walk accepts if and only if the recursive specification does, and refuses only for a flaw that is in the tree |
| SnapshotWalk.ReadDirectory | crates/container-manager/src/workspace_executor.rs:692-730 | the inner loop keeps the verdict of what is left and never grows the work left |
| SnapshotWalk.OrderDoesNotMatter | crates/container-manager/src/workspace_executor.rs:680-754 | the verdict is the same for every listing order of every directory |
| SnapshotWalk.AcceptedIff | crates/container-manager/src/workspace_executor.rs:680-754 | a tree is accepted if and only if at every path there is a readable entry without a secret name in any case, no link, no file above 10 MiB or with two names, no directory deeper than 64, and the files keep to 100 MiB and 10,000 |
| ContextWindow.TokensAreExactCeiling | crates/context-window/src/lib.rs:144-152 | the estimate is the exact ceiling, below every saturation point, at most one token a byte |
| ContextWindow.MessageList.FitTurns | crates/context-window/src/lib.rs:41-142 | least trimming: the front plus the suffix from a turn start, every candidate with fewer dropped turns was over budget; the outcome is that of the list left behind |
| ContextWindow.MessageList.FitChatRequest | crates/context-window/src/lib.rs:41-86 | the same for the whole serialized request |
| ContextWindow.MessageList.FitModelRound | crates/context-window/src/lib.rs:92-142 | the same for messages plus tool declarations |
| ContextWindow.NewestTurnKept | crates/context-window/src/lib.rs:41-142 | the newest turn and everything before the first one survive any trimming |
| ContextWindow.OpensIff | crates/context-window/src/lib.rs:52-60 | a turn opens at a user message unless its text starts as a compaction receipt does |
| ContextWindow.ReceiptsStay | crates/context-window/src/lib.rs:41-142 | everything before the first user message that is no receipt survives any trimming, receipts included |
| ContextWindow.RoundEstimate | crates/context-window/src/lib.rs:92-152 | a round's estimate is the least number of tokens that cover the bytes of messages and tool declarations together |
| ContextWindow.NoRoundEstimate | crates/context-window/src/lib.rs:92-110 | there is no estimate exactly if messages or tool declarations cannot be serialized |
| ContextWindow.TextOfParts | crates/inference-api/src/lib.rs:119-133 | of a message in parts the texts count, each on a line of its own, and images do not |
| HistoryPolicy.Apply | crates/context-window/src/lib.rs:254-351 | each policy's loops compute what the policy keeps |
| HistoryPolicy.KeepTurnsIsExact | crates/context-window/src/lib.rs:264-305 | sliding keeps the leading System run and everything from the n-th last user message, or everything |
| HistoryPolicy.SlidingComposes | crates/context-window/src/lib.rs:264-305 | sliding to m turns and then to n is sliding to the smaller |
| HistoryPolicy.KeepBudgetIsLongest | crates/context-window/src/lib.rs:306-350 | the budget keeps the longest conversation suffix that fits, or its last message |
| BudgetLaws.MessageEstimate | crates/context-window/src/lib.rs:218-245 | a message is estimated at four tokens and one for every four bytes of its texts, an image counting 256 bytes |
| BudgetLaws.BudgetKeepsLongestEnd | crates/context-window/src/lib.rs:306-350 | a token budget keeps the System messages in front and the longest end of the rest that fits beside them and the reserve, or the last message |
| BudgetLaws.NoTurnsKept | crates/context-window/src/lib.rs:259-270 | a window of no turns keeps the first message only, full replay everything |
| HistoryPolicy.KeptIsIdempotent | crates/context-window/src/lib.rs:28-30 | applying a policy twice is applying it once, for every policy and list |
| HistoryPolicy.KeptIsOneGap | crates/context-window/src/lib.rs:26-27 | nothing is added or reordered: one stretch is removed |
| HistoryPolicy.LeadingSystemSurvives | crates/context-window/src/lib.rs:22-25 | a System message at the front survives every policy |
| HistoryPolicy.TokenBudgetAsDocumentedIff | crates/context-window/src/lib.rs:185-187 | whatever the budget, the code keeps what the documented estimate without the prompt would, if and only if the list has no System message in front or at most one message behind them |
| HistoryPolicy.DocumentedBudgetKeptIff | crates/context-window/src/lib.rs:306-350 | for one budget they agree if and only if the documented list fits with the prompt counted, or cannot be cut further |
| HistoryPolicy.PromptCostsAMessage | crates/context-window/src/lib.rs:306-350 | a prompt and two messages under a budget the two fit: one of them is dropped |
| HistoryPolicy.SystemPromptKeptIff | crates/context-window/src/lib.rs:22-25 | the first System message survives all policies if and only if it is at the front |
| Replacement.WhatSurvives | crates/cli/src/main.rs:1913-1921 | an occurrence in the final text of a bracket-free string was in the original text around the sources, or in a replacement |
| Replacement.RemovesSourcesIff | crates/cli/src/main.rs:1913-1921 | for sources without angle brackets: the longest-first replacement loop removes every source from every text if and only if no replacement still shows a source after the later rules |
| Replacement.CleanReplacementsSettle | crates/cli/src/main.rs:1913-1921 | it does when no source occurs inside any replacement |
| Replacement.ReplaceAllIsFinal | crates/cli/src/main.rs:1913-1921 | a second pass then changes nothing and counts nothing |
| RedactionSafety.AcceptedMapIsOrdered | crates/cli/src/main.rs:1870-1896 | an accepted map is applied longest source first, each source once, none empty |
| RedactionSafety.NumberedIsInjective | crates/cli/src/main.rs:1898-1911 | different keys have different pseudonyms |
| RedactionSafety.ValueKeepsNumbers | crates/cli/src/main.rs:1940-1994 | over any value an issued pseudonym never changes and new ones are numbered on |
| RedactionSafety.IdentitiesStayDistinct | crates/cli/src/main.rs:1940-1994 | two identity values anywhere in a run of documents end up equal if and only if they were equal |
| RedactionSafety.RedactedTextHasNoSource | crates/cli/src/main.rs:1913-1938 | after replacement and pattern redaction no source is left in a text, if replacements and names that can be issued hold none |
| RedactionSafety.DocumentHasNoSource | crates/cli/src/main.rs:1940-1994 | nor, on those terms, in any string value of a redacted document |
| RedactionSafety.AllDocumentsFreeIff | crates/cli/src/main.rs:1940-1994 | a source that replacements and patterns remove is gone from every redacted document if and only if no pseudonym a person can get holds it, nor the mark for secrets |
| RedactionSafety.AcceptedMapMayLeak | crates/cli/src/main.rs:1870-1896 | what construction checks is not enough: an accepted map that leaves its source in place |
| RedactionSafety.BracketSourceMayLeak | crates/cli/src/main.rs:1870-1896 | an accepted map with an angle bracket in its source, whose replacement holds no source, that leaves it in place |
| RedactionSafety.PseudonymMayHoldSource | crates/cli/src/main.rs:1898-1911 | an accepted map and a document in which its source comes back as part of a pseudonym |
| RedactionSafety.ShapeIsKept | crates/cli/src/main.rs:1940-1994 | keys, array lengths and other leaves are kept |
| RedactionMeaning.PiecesRendered | crates/cli/src/main.rs:1922-1936 | a pattern's result is the text between its matches and, for each match, the table's name for it; a match stays exactly if its kind is PHONE and fewer than ten of its characters are digits |
| RedactionMeaning.AcceptedIff | crates/cli/src/main.rs:1870-1896 | a map is accepted exactly if it has entries, each with three bytes of source or more and a bracketed synthetic name, and no two share a source or a name |
| RedactionMeaning.DocumentMeaning | crates/cli/src/main.rs:1940-1994 | at every depth: a field with a secret word in any case holds the mark, an identity field the table's name for its text, every other string is its replaced text with each match named in turn; nothing else changes |
| RedactionMeaning.ReplacementsCounted | crates/cli/src/main.rs:1913-1994 | the count goes up by the occurrences of reviewed sources, the secret fields and the new names |
| Redactor.Redactor.Create | crates/cli/src/main.rs:1870-1896 | accepts exactly the reviewed maps and starts with no pseudonyms |
| Redactor.Redactor.SyntheticId | crates/cli/src/main.rs:1898-1911 | looks the pseudonym up or issues the next one |
| Redactor.Redactor.RedactText | crates/cli/src/main.rs:1913-1938 | the replacement loop counts and replaces as specified, then the patterns run in order |
| Redactor.Redactor.RedactValue | crates/cli/src/main.rs:1940-1994 | the recursive walk over objects and arrays redacts as specified |
| OfflineCommands.Vault.CmdRotateKeys | crates/cli/src/main.rs:2661-2722 | the command's steps are a run of the rotation protocol; it succeeds if and only if every step does, and then live file, snapshot and key file are on the new key; else all is on the old key or the old-key snapshot is left; the snapshot paths are exactly those found and, on success, the backup, on failure the old-key snapshot, with the other of the two only where its removal was not reached or failed |
| OfflineCommands.Vault.BackupOldKey | crates/cli/src/main.rs:2618-2634 | the verified old-key snapshot comes before anything else changes |
| OfflineCommands.Vault.WriteNewSnapshot | crates/cli/src/main.rs:2698-2705 | the new-key snapshot is verified or the rotation rolls back |
| OfflineCommands.Vault.RollbackRotation | crates/cli/src/main.rs:2725-2733 | puts the database back on the old key, or leaves the old-key snapshot |
| OfflineCommands.Desk.CmdRestore | crates/cli/src/main.rs:2735-2805 | the command's steps are a run of the restore protocol; it succeeds if and only if every step does and no old log meets its copy; success installs the snapshot less what was forgotten, exactly but for the two logs, a failure leaves the live file or the finished temporary one |
| OfflineCommands.Converter.EncryptPlaintextDatabase | crates/cli/src/main.rs:1346-1537 | the conversion's steps are a run of the protocol; it succeeds if and only if every step does, and then leaves the encrypted database and a complete synced backup and nothing else; a failure leaves a complete live database or that backup, and no staged copy |
| KeyRotation.AlwaysRecoverable | crates/cli/src/main.rs:2661-2733 | over any history of attempts, each failing or losing its process at any step, some file holds the current content under the durable key |
| KeyRotation.MachineStopsAreSafe | crates/cli/src/main.rs:2661-2733 | the same over histories with stops of the machine that lose unsynced snapshots, if every rekey finds the old-key snapshot on disk |
| KeyRotation.RekeyIsSafeIff | crates/cli/src/main.rs:2688-2697 | after a rekey no stop is harmful if and only if some synced snapshot holds the content under the old key |
| KeyRotation.StopAfterRekeyLoses | crates/cli/src/main.rs:2636-2659 | however the key file is written: a run of the command with its old-key snapshot not on disk yet, and a stop that loses the content |
| KeyRotation.EndsUsableIff | crates/cli/src/main.rs:2661-2722 | an attempt that ends leaves a live file the commands can open if and only if it ended before the rekey, after the key switch or with a rollback that worked |
| KeyRotation.UnusableStays | crates/cli/src/main.rs:2774-2785 | otherwise no run of the commands changes the live file or the key again |
| KeyRotation.AttemptEnds | crates/cli/src/main.rs:2695-2722 | what is on which key, and which snapshot is removed, after success, rollback, and a failed rollback |
| KeyRotation.SafeIffReplaced | crates/vault/src/keyring_key.rs:206-240 | that holds over all histories if and only if the key file is replaced by rename |
| KeyRotation.InPlaceLoses | crates/vault/src/keyring_key.rs:266-308 | with an in-place key write that errors after writing, rollback leaves nothing under the durable key |
| KeyRotation.OldCopyBeside | crates/cli/src/main.rs:2680-2686 | the old-key snapshot goes beside the backup, its extension replaced or added |
| KeyRotation.WrittenIsNotSynced | crates/cli/src/main.rs:2636-2659 | a snapshot that a step writes is not on disk after it |
| EncryptInPlace.DatabaseNeverLost | crates/cli/src/main.rs:1383-1537 | wherever the conversion stops, on both platforms: the live path is a complete database, or the plaintext backup is complete and synced |
| EncryptInPlace.SourceWaitsForBackup | crates/cli/src/main.rs:1383-1456 | until the backup is verified and synced the live path is the complete plaintext database |
| EncryptInPlace.SourceUntouchedIff | crates/core/src/db.rs:310-320 | until then file and log are as found if and only if the source was not opened, or was in write-ahead mode and has a log again exactly if it had one |
| EncryptInPlace.OnlyBackupLeftIff | crates/cli/src/main.rs:1487-1537 | wherever the conversion stops, on both platforms, only the backup is whole if and only if the log was removed though the source needed it (it did when found and closing it did not fold the log in) and the encrypted copy is neither staged nor installed |
| EncryptInPlace.LiveIncompleteIff | crates/cli/src/main.rs:1487-1537 | the live path is incomplete if and only if nothing is there or the plaintext file is, without such a log |
| EncryptInPlace.PosixLiveIsThere | crates/cli/src/main.rs:1506-1522 | with one rename something is always there |
| EncryptInPlace.FailedRenameMayLeaveBackupOnly | crates/cli/src/main.rs:1487-1537 | a run of the whole command that ends so |
| EncryptInPlace.BrokenBackupStays | crates/cli/src/main.rs:1407-1416 | a backup that breaks off is left unfinished |
| EncryptInPlace.RetryIsRefused | crates/cli/src/main.rs:1351-1355 | once a backup has begun, whatever comes of the attempt, a later one with the same backup path is refused and changes nothing |
| Restore.AttemptNeverLoses | crates/cli/src/main.rs:2770-2793 | during an attempt the old live file or the finished restored one is there, also if the process ends, except if and only if it is installed while a log is left beside either file |
| Restore.FinishedInstallsIff | crates/cli/src/main.rs:2788-2793 | a finished attempt leaves the restored database complete and without what was forgotten if and only if no log of the replaced file and none of the temporary one is left |
| Restore.OldLogSpoilsRestore | crates/cli/src/main.rs:2774-2793 | a run in which the log of the replaced file, still in use elsewhere, is replayed into the restored one |
| Restore.LogKeepsTombstones | crates/cli/src/main.rs:2774-2793 | a run in which what was carried over stays behind in the temporary file's log |
| Restore.StopKeepsIff | crates/cli/src/main.rs:2770-2793 | during an attempt no stop of the machine takes both if and only if one of them is on disk |
| Restore.RemovalKeepsIff | crates/cli/src/main.rs:2788-2793 | that survives removing the live file if and only if the temporary file is on disk by then, and the rename if no log is left besides |
| Restore.OtherStepsStayOnDisk | crates/cli/src/main.rs:2770-2793 | no step of an attempt but those two ends it |
| Restore.StopAfterRemovalLoses | crates/cli/src/main.rs:2774-2793 | a run of the command that carries nothing over, so that nothing syncs its copy, and a stop that loses both |
| Restore.LosesDatabaseIff | crates/cli/src/main.rs:2770-2774 | the last complete database is given up exactly by clearing the temporary file with none live, by a stop that spoils all there are, or by installing beside a log of the replaced file |
| Restore.RetryGivesUpLastDatabase | crates/cli/src/main.rs:2770-2774 | a stop of the process and a retry that reach the first of these |
| Restore.HonouredRun | crates/cli/src/main.rs:2774-2793 | if every attempt begins with a live file or an informed snapshot, and none installs while what it carried over is only in a log, forgotten items never return |
| Restore.FinishedHonoursIff | crates/cli/src/main.rs:2774-2793 | a finished attempt whose live file opens keeps the promise if and only if its snapshot was informed, or it began with a live file and left nothing carried over in a log |
| Restore.RetryAfterCrashRevives | crates/cli/src/main.rs:2770-2793 | a stop between removing the live file and the rename, then a retry, brings forgotten items back |
| CompletionContract.EditorContractCliArgs | crates/cli/src/api_client.rs:1074-1133 | the nested loops push exactly the specified arguments or the first error |
| CompletionContract.BuildCompletionContract | crates/cli/src/api_client.rs:431-518 | the shared set of seen ids and the size checks compute the specified contract or error |
| ContractRoundTrip.RegroupedEditorArgs | crates/cli/src/api_client.rs:1074-1133 | regrouping the arguments separates required from optional criteria and keeps their order |
| ContractRoundTrip.IdKeptIff | crates/cli/src/api_client.rs:1104-1121 | an id comes back trimmed if and only if it has no equals sign |
| ContractRoundTrip.TranslateNormalises | crates/cli/src/api_client.rs:431-518 | for ids without equals signs the translation succeeds if and only if the trimmed contract is valid, and yields its stable required-then-optional partition |
| ContractRoundTrip.BuiltContractIsFixed | crates/cli/src/api_client.rs:431-518 | every contract the command line builds passes through the editor translation unchanged |
| ContractRoundTrip.TranslateIsIdempotent | crates/cli/src/api_client.rs:1074-1133 | translating any editor contract twice is translating it once |
| ContractLaws.ReadsIff | crates/cli/src/api_client.rs:431-467 | a flag text is accepted exactly if, cut at its first equals sign and trimmed, it has an id of 1 to 128 bytes and a description of 1 to 2,000 |
| ContractLaws.BuildsIff | crates/cli/src/api_client.rs:431-518 | the flags build a contract exactly if each reads as a criterion or artifact with an id of its own and something is required, or there is nothing at all; then it is the contract they spell |
| ContractLaws.CriteriaSay | crates/cli/src/api_client.rs:468-518 | the built JSON names required and then optional criteria, in the order of the flags |
| ContractLaws.ArtifactsSay | crates/cli/src/api_client.rs:468-518 | and the artifacts and the delivery switch |
| ContractLaws.EntryIff | crates/cli/src/api_client.rs:1099-1121 | an editor's entry is read exactly if it has its two texts, and a boolean or nothing under required; nothing means required |
| ModelDownload.Cache.RunDownload | crates/container-manager/src/hf_downloader.rs:273-409 | the loop over files with its accumulated total changes disk and events as specified |
| ModelDownload.Cache.FindInSecondary | crates/container-manager/src/hf_downloader.rs:476-508 | the nested loops over roots and listings find what is specified |
| ModelDownload.FindsFirstRoot | crates/container-manager/src/hf_downloader.rs:476-508 | the file found is of the first root that has it, there of the wanted revision or else of the first listed snapshot with it |
| ModelDownload.PartBeside | crates/container-manager/src/hf_downloader.rs:511-577 | a download writes beside its target, the extension replaced or added |
| ModelDownload.FileOutcome | crates/container-manager/src/hf_downloader.rs:286-398 | a file that is there with its announced size, or with anything in it if none is announced, is left alone; any other is linked, copied or fetched |
| ModelDownload.AttemptLeaves | crates/container-manager/src/hf_downloader.rs:511-577 | what an attempt leaves under which names: its bytes beside the file where it broke off, in the file's place where it did not |
| ModelDownload.Cache.Download | crates/container-manager/src/hf_downloader.rs:348-398 | the retry loop ends as specified |
| ModelDownload.Cache.MaterialiseFromSecondary | crates/container-manager/src/hf_downloader.rs:647-675 | a link where the name is free, else a copy over what is there |
| ModelDownload.ThreeAttempts | crates/container-manager/src/hf_downloader.rs:348-398 | a download gives up if and only if its first three attempts fail; every attempt before the last is announced |
| ModelDownload.HandledIsPresent | crates/container-manager/src/hf_downloader.rs:287-400 | however a run ends, every file it got past is there |
| ModelDownload.CompletionIsRealIff | crates/container-manager/src/hf_downloader.rs:511-577 | for distinct paths, reported completion always means every file is there if and only if no file is named like a later file's temporary name |
| ModelDownload.LaterDownloadClobbers | crates/container-manager/src/hf_downloader.rs:511-577 | a run without a hitch that reports completion though a later download took a file away |
| DownloadResume.FinishedFilesAreNeverFetchedAgain | crates/container-manager/src/hf_downloader.rs:629-645 | a file finished when a run reaches a later one, or ends, is skipped by every later run |
| DownloadResume.CreditIsStored | crates/container-manager/src/hf_downloader.rs:307-398 | a file's credit is its stored length unless it was imported or has no announced size |
| DownloadResume.ProgressIsPrefixSum | crates/container-manager/src/hf_downloader.rs:285-400 | progress at file boundaries is the prefix sum of credits, one announcement a file |
| DownloadResume.ProgressNeverFalls | crates/container-manager/src/hf_downloader.rs:285-400 | and never falls |
| DownloadResume.SecondariesAreReadOnlyIff | crates/container-manager/src/hf_downloader.rs:46-50 | a run leaves the secondary caches alone, whatever happens during it, if and only if no file to be fetched is still linked to one |
| DownloadResume.NextRunIsReadOnlyIff | crates/container-manager/src/hf_downloader.rs:46-50 | the same for the run after any number of others |
| DownloadResume.SecondRunTruncatesSecondary | crates/container-manager/src/hf_downloader.rs:647-675 | such a file arises on its own: a wrongly sized link is accepted, and the next run truncates it and the secondary file |
| AgentOutcome.MarkdownSection | crates/core/src/agent_contract.rs:397-419 | the one-pass offset scan returns the trimmed lines between the first matching heading and the next heading |
| AgentOutcome.ExtractionInvertsRendering | crates/core/src/agent_contract.rs:397-419 | from a rendered report it returns the trimmed body of the first case-insensitively matching section, none if blank or missing |
| AgentOutcome.Parse | crates/core/src/agent_contract.rs:340-384 | a result is accepted if and only if it is stated and recordable; a required draft never yields a report, a draft's review and reply are never blank |
| AgentOutcome.MarkdownOutcome | crates/core/src/agent_contract.rs:340-384 | a text without structured outcome fails only if blank or without a required reply |
| AgentOutcome.RenderedDraft | crates/core/src/agent_contract.rs:340-384 | a rendered report with a reply section is a draft with that reply |
| AgentOutcome.StructuredOutcome | crates/core/src/agent_contract.rs:340-384 | a text that starts with a brace is the decoded outcome, or fails with what is wrong with it |
| AgentOutcome.MarkedIrrelevant | crates/core/src/agent_contract.rs:340-384 | the mark alone, with any white space around it, is irrelevance |
| AgentOutcome.RenderedIrrelevant | crates/core/src/agent_contract.rs:340-384 | so is the mark as the body under Relevance |
| AgentOutcome.PlainReport | crates/core/src/agent_contract.rs:340-384 | any other text without a reply is a report, or fails where a draft is required |
| AgentOutcome.BlankText | crates/core/src/agent_contract.rs:340-343 | a text is refused as empty exactly if it is white space only |
| Text.WhiteSpaceCharacters | crates/core/src/agent_contract.rs:341-348 | trimming takes away exactly the 25 characters with the Unicode property White_Space |
| QuietHours.LocalMinuteReadsBack | crates/core/src/agent_contract.rs:151-161 | every minute of the day is read back from its printed form |
| QuietHours.AcceptedIff | crates/core/src/agent_contract.rs:151-161 | accepted are exactly two fields in range around a colon, each two digits or a plus sign and one |
| QuietHours.HourMinuteFormIff | crates/core/src/agent_contract.rs:151-161 | an accepted string is the printed form of its minute if and only if it has no plus sign |
| QuietHours.SignIsAccepted | crates/core/src/agent_contract.rs:151-161 | a string with one that is accepted |
| QuietHours.QuietIsTheArc | crates/core/src/agent_contract.rs:128-148 | a minute is quiet if and only if going round the clock from the start it comes before the end |
| BarChart.NeighboursAreNearest | crates/charting/src/lib.rs:439-458 | after sorting, the smallest positive gap of neighbours is the smallest positive distance of all pairs |
| BarChart.BarWidth | crates/charting/src/lib.rs:439-458 | seven tenths of that distance, a fixed width when there is none |
| BarChart.WidestSafeWidth | crates/charting/src/lib.rs:335-347 | bars of one width stay apart if and only if it is at most that distance |
| BarChart.DrawBars | crates/charting/src/lib.rs:335-347 | bars at different places never overlap, each centred on its point |
| BarChart.OrderDoesNotChangeWidth | crates/charting/src/lib.rs:439-458 | the width depends on where the points are, not on their order |
| BarChart.ComputeBounds | crates/charting/src/lib.rs:371-416 | the tightest box around every point drawn, the neutral axis when there is none |

## Left out

- Docker, HTTP, TLS, the keyring, SQLite and SQLCipher internals, JSON and regular-expression syntax: see "Trusted".
- OwnershipRuns.Exec: a drain pass over 32 rows is 32 workers that interleave freely, which allows more runs than one relay makes; the retry time, the lease owner's name and the stored error text decide nothing here.
- Ownership.ScopeKeyInjective: states the joined components, not the hash over them.
- Ownership.Takeover: generations are unbounded; the 64-bit overflow after that many takeovers is not modelled.
- SendFencing.TakeoverFencesSends: a send already past its owner check when the takeover commits is not prevented, in the model as in the code.
- SnapshotWalk.ValidateSnapshot: states which trees are accepted and that a refusal is for a flaw of the tree, not which of several flaws is reported; the tree does not change during the walk.
- DiagnosticsExchange.Diagnose: the clock is part of each event; the length and contents of the opening messages are not modelled.
- LspFraming.Decoder.ReadMessage: log capture of the server's error stream is cut to its limit only; `read_logs` of the same file is not modelled.
- ContextWindow.MessageList.FitTurns: serialization is an arbitrary estimator, so nothing is said about how a request is encoded.
- Replacement.RemovesSourcesIff: requires sources without angle brackets, since a replacement always begins and ends with one and could otherwise complete a source across its edge; BracketSourceMayLeak shows it.
- RedactionSafety.RedactedTextHasNoSource: one direction only; which pseudonyms a text draws depends on what its patterns match, so the premise on their kinds is about every name that could be issued. For documents AllDocumentsFreeIff gives both directions, with that premise.
- KeyRotation.AlwaysRecoverable: stated for the key file replaced by rename; SafeIffReplaced says why. A restore is one step here; its own steps are in Restore. Secure deletion of old snapshots and file permissions are not modelled.
- SingleSend.DoubtfulRowsAreNotSent: sinks without any guarantee; for those that deduplicate or can be asked, the code sends an expired row again on purpose.
- Restore.HonouredRun: carrying over tombstones is one step that edits the temporary file; what it deletes in which tables is in stores that are not part of this model.
- EncryptInPlace.DatabaseNeverLost: the two write-ahead files beside a database are one, and those beside the backup are not modelled; nor are permissions and the directory sync after the rename. One attempt, not a retry after it.
- ModelDownload.Run: the manifest and revision are given, not fetched; throttled progress inside a file, the announced total, waiting times, path normalisation (`..`, doubled slashes) and symbolic links are not modelled; only lengths of contents are.
- DownloadResume.FinishedFilesAreNeverFetchedAgain: between runs nothing else writes to the cache.
- AgentOutcome.Parse: decoding of structured JSON is an arbitrary function.
- QuietHours.QuietIsTheArc: cron expressions and time zones are not modelled; the local minute is given.
- BarChart.BarWidth: real numbers, so no rounding and no non-finite values; the check of a chart's names and points, axis padding, colours and drawing are not modelled.
- Service registration, the server, desktop bundles, web code, runtime profiles, hardware probing, audit inserts and configuration lookups: easy members or plumbing.
