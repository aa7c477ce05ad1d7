# A verified model of the workspace runtime's stateful protocols

The runtime (`molecule_runtime/`) keeps one agent process alive inside a workspace. Between its
network edges sit a handful of small protocols whose safety depends on the order of steps, on
what survives a crash, and on text that peers control. This project models them in Dafny and
proves what they keep over every run.

| module | protocol |
|---|---|
| `Text` | characters, blanks and `strip`, shared by the modules that read text |
| `Edits`, `SanitizeA2A`, `DelegationResults` | trust-boundary markers in peer text: the escaper, the five control-word patterns, and the block of results given to the agent |
| `Harvester`, `Tombstones`, `HarvestRuns` | the delegation-result harvest: one poll and the settlement of its wake as a class; the tombstone file as text; whole runs with failures, reads of the results file and restarts |
| `RuntimeInbox`, `TurnProtocol` | turns, the per-context inbox and idle preemption, over every interleaving of POSTs, stream ends, Stops and failures |
| `BundlePath`, `ConfigRelay` | path validation and the one-shot config relay, with a crash allowed between any two steps and inside a write |
| `PeerCache`, `PeerEnrichment` | the LRU peer cache; single-flight background enrichment as a machine over threads |
| `DelegateRetry`, `Delays` | the deadline-bounded retry loop of `send_a2a_message` |
| `OutputNormalizer`, `OutputWords`, `NoopPhrases`, `LoopGuard` | the autonomous-loop circuit breaker, the normaliser behind its signature, what that keeps and forgets, and which outputs count as no-ops |
| `LaneManager`, `LaneRuns` | private sockets of lane daemons: start, hot-add, rollback and stop, and every sequence of such calls |
| `EventLog` | the ring buffer of events and a reader that follows its cursor |

Objects whose methods update fields are classes here, and each method's contract equates the new
state with a function of the old one (`EvaluateStep`, `Poll`, `SettleAll`, `HandleStop`, `Written`,
...). Runs are folds of the same functions over a list of steps, so what is proved of runs is
proved of what the methods do. Whatever the runtime cannot control (the clock, HTTP outcomes,
write failures, random jitter, the order a Python set iterates in, the instant of a crash) is a
parameter or a step, and every theorem holds for all its values.

## What turned out otherwise than documented

- The relay's retry comment promises a ceiling of about 61 s; six attempts sleep five times, 31 s (`FetchCeiling`).
- `unpack_bundle` says a traversal or a symlink escape aborts before touching the filesystem. An aborted unpack touches neither file nor directory if and only if the config directory exists and the very first entry is the bad one, with every directory it makes already there and no file opened (`AbortTouchesNothingIff`). A traversing path after a good one leaves the first file written (`AbortAfterWriting`); a first entry that escapes through a symlink makes its missing parents, outside, before it is rejected (`EscapeMakesDirectory`).
- `$` in the path charset admits one final newline: an accepted path keeps to the documented charset if and only if the last name it enters does not end in one (`CharsetIffNoFinalNewline`, `FinalNewlineAccepted`).
- The marker can vouch for a broken config. For a provision with one bundle to its digest, no run ever leads there if and only if no entry the unpack gets to write names the marker file, and the bundle is empty or never unpacks (`AlwaysVouchesIff`): so for every bundle worth sending some run does. Two things lead there. One is a bundle that names the marker: runs without a harmful boot lead there if and only if an entry they get to write does (`VouchesIffMarkerReserved`), and no crash is needed when such a bundle holds anything but the digest at that place (`NamedMarkerBreaksSafety`).
- The other is an unreadable marker, which is called fail-safe. A boot that meets one can lead to a marker that vouches wrongly if and only if the marker matches while the object is still there, for a bundle that is not empty (`UnreadableBootHarmsIff`).
- Status is the one field of a result line that is not sanitised; the block holds only its own markers if and only if no bracketed status contains one, which the two harvested statuses meet (`BlockMarkersIffPlainStatuses`, `UnplainStatusBreaksBlock`).
- A read loses its lines if and only if the renamed file cannot be read or one of them has a null summary, on which the reader raises with the file already deleted. Over a run the lines handed out and those in the file are exactly the appended ones, in order, if and only if no read loses any (`QueueLedger`).
- A listing row with a null summary is appended and marked seen, and then raises before the wake: no result of that poll is woken for, and the next read of the file loses the batch (`WakesForDueIff`, `NullSummaryLosesBatch`).
- One malformed row in a listing loses the due rows before it: they are marked seen and neither appended nor woken for (`WakesForDueIff`, `MalformedRowLosesResult`).
- A comment says results no longer returned cannot hold `delegation_results_waiting`. A poll drops such a retry if and only if it is past its cooldown and its listing has no malformed row; while every listing has one, the flag stays up without end (`StaleRetryGoesIff`, `MalformedRowsHoldRetries`).
- The tombstone file gives back what was saved if and only if no id is empty, starts with a blank, or contains a tab or a line break (`RoundTripIffClean`).
- The normaliser keeps outputs apart by their words without digits, but for words that touch a `#`: before a literal `#` a word that is not all hex digits looks like one with a number in it (`AlikeHaveSameWords`, `TouchingIsNotStanding`).
- A key counts as written once its line is in the write buffer; if the flush at the file's close fails, the retry does not write the line again and the result never reaches the file (`EpisodeAppendsOnce`, `UnflushedResultIsLost`).
- A Stop that finds no turn running stays set through the start of the next turn. It ends that turn if and only if the turn observes it before its stream ends or fails, and no user preempted the turn meanwhile; otherwise it is swallowed (`StaleStopEndsTurnIff`, `StaleStopSwallowed`).
- A comment says an exception cannot leak `turn_in_flight`. A cancellation that arrives while the `finally` awaits its push does: the context can serve another turn if and only if its turn was not cancelled there (`SlotIsFreedIff`, `LeakedSlotStaysHeld`).
- A message accepted after the last drain outlives its turn in the queue (`QueueCanOutliveTurn`).
- A comment in `_inject_daemon_env` says a channel and a trigger daemon never see each other's token; they do if and only if one plugin owns both (`TokenSharedIffSamePlugin`).
- No daemon is to hold another plugin's token. Over every sequence of starts, hot-adds and stops, a daemon the manager was made with holds no token but its own plugin's if and only if some call cleared the claims, or its manifest claims nothing under another kind's name and any claim under its own was overwritten: it has a lane and some hot-add went through (`HoldsOwnTokenIff`). A hot-add that binds a lane before any start counts as the start, so the start after it clears nothing (`StartAfterAddClearsNothing`).

## Model

| member | source | states |
|---|---|---|
| Edits.OccurrenceWasCopied | molecule_runtime/_sanitize_a2a.py:35-57 | whatever a rewriting pass inserts, if each insertion is inert for a word (it cannot continue or start it), then wherever the word stands in the output it was copied from consecutive input characters |
| Edits.NothingSpliced | molecule_runtime/_sanitize_a2a.py:65-80 | a pass with inert insertions never creates a word its input lacks |
| SanitizeA2A.ReplaceRemovesAll | molecule_runtime/_sanitize_a2a.py:54-57 | replacing a word by a text inert for it leaves no occurrence, including none formed at the seams |
| SanitizeA2A.ReplaceJoinsPieces | molecule_runtime/_sanitize_a2a.py:54-57 | the text falls into pieces between the leftmost occurrences that do not overlap, and the result is those pieces joined by the new text |
| SanitizeA2A.EscapedIsFreeOfMarkers | molecule_runtime/_sanitize_a2a.py:47-57 | for every text neither marker survives the two replacements; the second cannot bring the first marker back |
| SanitizeA2A.EscapeFixesExactlyMarkerFree | molecule_runtime/_sanitize_a2a.py:47-57 | escaping leaves a text unchanged if and only if it contains no marker |
| SanitizeA2A.EscapeIsIdempotent | molecule_runtime/_sanitize_a2a.py:47-57 | escaping twice is escaping once |
| SanitizeA2A.EscapeReplacesMarkers | molecule_runtime/_sanitize_a2a.py:47-57 | the escape changes the leftmost start markers and then the leftmost end markers, and no other piece of the text |
| SanitizeA2A.StepTakesMatch | molecule_runtime/_sanitize_a2a.py:65-80 | one step of a pass takes the match that starts there, if a lead, the phrase in any letter case with blanks between its words, and a boundary stand there; otherwise, and only then, it copies one character |
| SanitizeA2A.PatternScanReads | molecule_runtime/_sanitize_a2a.py:65-80 | a whole substitution pass reads its input once, left to right, without gap or overlap |
| SanitizeA2A.MatchIsUnique | molecule_runtime/_sanitize_a2a.py:65-80 | no two matches start at one place |
| SanitizeA2A.ScanTakesMatches | molecule_runtime/_sanitize_a2a.py:65-80 | a pass takes, each time, the first match at or after the end of the one before; it replaces those, keeping the lead where the pattern keeps it, and copies all else |
| SanitizeA2A.SubChangesIffMatch | molecule_runtime/_sanitize_a2a.py:65-80 | a pass leaves a text as it was if and only if no match stands in it |
| SanitizeA2A.InjectionTableIsSafe | molecule_runtime/_sanitize_a2a.py:65-80 | none of the five replacement texts can form or complete either marker |
| SanitizeA2A.PatternKeepsMarkerFree | molecule_runtime/_sanitize_a2a.py:65-80 | no substitution of the table splices a marker out of a text that has none |
| SanitizeA2A.SanitizedIsFreeOfMarkers | molecule_runtime/_sanitize_a2a.py:82-108 | for every peer text the sanitised result contains neither marker |
| SanitizeA2A.SanitizedByStages | molecule_runtime/_sanitize_a2a.py:82-108 | from the text with its markers escaped, each of the five patterns in turn replaces exactly the matches its pass takes, in the order of the table |
| SanitizeA2A.SanitizeA2aResult | molecule_runtime/_sanitize_a2a.py:82-108 | the loop over the patterns goes through those stages and its result is free of markers |
| DelegationResults.ResultsFile.ReadDelegationResults | molecule_runtime/executor_helpers.py:294-349 | a read empties the queue unless the rename fails, and returns the block of exactly the lines it took, or nothing if they could not be read; it raises if and only if a line it read has a null summary |
| DelegationResults.ResultsFile.FormatLines | molecule_runtime/executor_helpers.py:318-344 | the loop over the lines builds their parts in order, skips undecodable lines, and raises if and only if some summary is null |
| DelegationResults.BlockReports | molecule_runtime/executor_helpers.py:318-349 | the block is empty if no line decodes; otherwise it holds, between the two markers, for each record in order its status, the first 80 characters of its sanitised summary and, if it has a preview, the first 200 of that, sanitised |
| DelegationResults.SeparatorSplits | molecule_runtime/executor_helpers.py:322-349 | a marker never runs across a separator it does not contain: its occurrences in the joined text are those of the two sides |
| DelegationResults.BlockMarkersIffPlainStatuses | molecule_runtime/executor_helpers.py:322-349 | for all summaries and previews, a non-empty block has the start marker only at its beginning and the end marker only at its end, if and only if no bracketed status contains a marker |
| DelegationResults.UnplainStatusBreaksBlock | molecule_runtime/executor_helpers.py:330-341 | a status spelling the end marker does break the block |
| Tombstones.RoundTripIffClean | molecule_runtime/heartbeat.py:851-881 | saving tombstones in any order and loading the file gives the same set, if and only if no id is empty, begins with a blank of `str.strip`, or holds a tab or a line break |
| Tombstones.ParsedIsClean | molecule_runtime/heartbeat.py:851-866 | whatever the file contains, every id loaded from it is clean |
| Harvester.AwaitRegistry.RegisterAwaitedDelegation | molecule_runtime/heartbeat.py:351-367 | registering keeps insertion order, is idempotent, ignores an empty id, and on overflow keeps the newest half |
| Harvester.AwaitRegistry.DiscardAwaitedDelegation | molecule_runtime/heartbeat.py:370-375 | removes exactly that id |
| Harvester.RegisteringKeepsNewest | molecule_runtime/heartbeat.py:351-367 | a new id comes last, a known or empty one changes nothing, and past 512 ids the newest 256 stay |
| Harvester.HeartbeatLoop.constructor | molecule_runtime/heartbeat.py:427-502 | a new process starts with nothing seen, nothing to retry and no tombstones loaded |
| Harvester.HeartbeatLoop.IsHarvested | molecule_runtime/heartbeat.py:883-905 | with the kernel on, looks the pair up in the tombstones, loading them once; with it off, nothing changes |
| Harvester.HeartbeatLoop.SaveHarvestTombstones | molecule_runtime/heartbeat.py:868-881 | writes each tombstone once in some order; an overflow first drops half the cap; a failing write leaves arbitrary text |
| Harvester.HeartbeatLoop.CommitHarvested | molecule_runtime/heartbeat.py:907-925 | records the keys in memory and on file, writing only if one of them is new |
| Harvester.HeartbeatLoop.HarvestListing | molecule_runtime/heartbeat.py:990-1047 | the loop over the listing marks, skips, discards and collects as the fold over its rows says, and stops at a malformed row |
| Harvester.HeartbeatLoop.PurgeRetries | molecule_runtime/heartbeat.py:1049-1055 | exactly the retries not harvested again go, and with them their written keys |
| Harvester.HeartbeatLoop.AppendResults | molecule_runtime/heartbeat.py:1062-1073 | writes, in order, the results whose key is not recorded yet, up to a failure; what is flushed reaches the file, what is recorded is recorded either way |
| Harvester.HeartbeatLoop.StoreResults | molecule_runtime/heartbeat.py:1062-1096 | after a failed append every result of the poll is unseen again and none is due for a wake; after a good one none is due either if some result has a null summary |
| Harvester.HeartbeatLoop.CheckDelegations | molecule_runtime/heartbeat.py:959-1096 | one poll up to the wake it is due, with its cooldown, failed request, malformed row, cut of the seen set, failed append and null summary |
| Harvester.HeartbeatLoop.SettleWake | molecule_runtime/heartbeat.py:1163-1194 | tombstones are committed for a delivered or dropped wake only; each result is retried or settled |
| HarvestRuns.SettleAllAs | molecule_runtime/heartbeat.py:1178-1194 | settling a list of distinct ids treats each by its own count alone: an id whose wake surely failed fewer than three times waits with its failures counted, is unseen and still awaited; any other id of the list loses its retry, its written key and its await; all other ids keep theirs |
| HarvestRuns.SettledStaysSilent | molecule_runtime/heartbeat.py:1178-1196 | over every continuation of a run, once the wake of a result has ended and is not sent again, no poll appends a line for its id or holds it for a wake, whatever the seen set has forgotten, until the id is registered or in flight anew |
| HarvestRuns.PassKeeps | molecule_runtime/heartbeat.py:990-1047 | from any state and for any listing, each result collected was awaited, own, terminal, unseen and not tombstoned, and no id is collected twice |
| HarvestRuns.AwaitEndsIffTombstoned | molecule_runtime/heartbeat.py:1026-1036 | a pass ends the await of an id if and only if it gets to an own, unseen, terminal row of it whose tombstone is there |
| HarvestRuns.RecordHasFields | molecule_runtime/heartbeat.py:1037-1046 | a result has the fields of its row, and without a target that of its in-flight delegation, or none |
| HarvestRuns.AbortedIffMalformed | molecule_runtime/heartbeat.py:994-997 | the pass is aborted if and only if the listing has a malformed row |
| HarvestRuns.WriteAllAppends | molecule_runtime/heartbeat.py:1067-1073 | an append adds one line for each key not written before, and no other line |
| HarvestRuns.WritesInOrder | molecule_runtime/heartbeat.py:1067-1073 | with distinct ids the lines written are those of the new keys in the order of the results |
| HarvestRuns.RetryStepKeeps | molecule_runtime/heartbeat.py:1049-1055 | every step keeps counts between 1 and the limit less one, and ids that wait within the pending wake |
| HarvestRuns.RetriesStayRetryable | molecule_runtime/heartbeat.py:1171-1196 | the same over all runs; and when no listing has a malformed row or a null summary, no id that waits for a retry is marked seen |
| HarvestRuns.RetryRunCounts | molecule_runtime/heartbeat.py:1171-1196 | while an id keeps waiting, each settled wake raises its count by exactly one and each good poll leads to a wake |
| HarvestRuns.RetriesDrain | molecule_runtime/heartbeat.py:504-512 | so no id keeps `delegation_results_waiting` true for more than two good polls, those that pass over a listing, append and do not raise |
| HarvestRuns.StaleRetryGoesIff | molecule_runtime/heartbeat.py:994-1055 | a poll ends a retry if and only if it is past its cooldown, its listing has no malformed row, and it does not harvest the id |
| HarvestRuns.MalformedRowsHoldRetries | molecule_runtime/heartbeat.py:994-1055 | over every run of polls that each meet a malformed row, no retry ends and `delegation_results_waiting` stays as it was |
| HarvestRuns.SurfacedWereAwaited | molecule_runtime/heartbeat.py:998-1027 | whatever step a run takes, each line it appends is a terminal result whose source is this workspace and whose id was awaited since the last restart |
| HarvestRuns.TombStepKeeps | molecule_runtime/heartbeat.py:1034-1047 | a step appends no tombstoned pair and removes no tombstone |
| HarvestRuns.TombstonesAreTheWoken | molecule_runtime/heartbeat.py:907-925 | over every durable run with restarts, the tombstone file loads as exactly the pairs whose wake was delivered or dropped, each of them appended before, none of them pending |
| HarvestRuns.TombstonedStaysSilent | molecule_runtime/heartbeat.py:883-905 | once a pair has a tombstone, no continuation of a durable run appends it or holds it for a wake again |
| HarvestRuns.EpisodeAppendsOnce | molecule_runtime/heartbeat.py:1062-1077 | however many appends fail part-way and wakes are retried, an episode appends the line of a result exactly once, or not at all if and only if the append that recorded its key did not flush it |
| HarvestRuns.UnflushedResultIsLost | molecule_runtime/heartbeat.py:1068-1077 | an append that fails at the file's close with nothing flushed leaves every key recorded and no line in the file |
| HarvestRuns.EpisodeEndsIff | molecule_runtime/heartbeat.py:1049-1055 | an episode ends with a restart, a wake not retried, or a poll that no longer harvests a waiting id, and with nothing else |
| HarvestRuns.QueueLedger | molecule_runtime/executor_helpers.py:307-341 | over all runs no line is duplicated or invented; the lines handed out followed by those in the file are the appended lines in order, if and only if no read of a non-empty file failed or met a null summary |
| HarvestRuns.SurfacedIffDue | molecule_runtime/heartbeat.py:994-1047 | a pass over a well-formed listing surfaces exactly its due rows: own, awaited, terminal, without tombstone, and marked seen neither before nor by an earlier row |
| HarvestRuns.WakesForDueIff | molecule_runtime/heartbeat.py:959-1096 | a poll wakes for a due row if and only if the last wake began a minute ago or more, no row of the listing is malformed and no due row has a null summary |
| HarvestRuns.NullSummaryLosesBatch | molecule_runtime/heartbeat.py:1062-1096 | a due row with a null summary: its line is appended and its id seen, no wake is due, and the next read that takes the file hands out nothing and loses all of it |
| HarvestRuns.SeenIsSkipped | molecule_runtime/heartbeat.py:998-999 | no poll surfaces an id that is marked seen |
| HarvestRuns.MalformedRowLosesResult | molecule_runtime/heartbeat.py:994-997 | whenever a malformed row follows a due one, nothing is appended or woken for and the due one is marked seen |
| RuntimeInbox.InboxEntry.RequestInterrupt | molecule_runtime/runtime_inbox.py:200-234 | queues the message and raises both flags, or changes nothing at capacity |
| RuntimeInbox.InboxEntry.DeferMessage | molecule_runtime/runtime_inbox.py:236-259 | only queues, or changes nothing at capacity |
| RuntimeInbox.InboxEntry.ConsumePending | molecule_runtime/runtime_inbox.py:261-270 | hands out the whole queue in order and clears the interrupt |
| TurnProtocol.OnPost | molecule_runtime/a2a_executor.py:599-686 | a POST starts a turn, is dropped, is told busy, is queued, or is queued and interrupts, exactly as the guards on self-ness and idleness say |
| TurnProtocol.Execution.OnStopped | molecule_runtime/a2a_executor.py:1008-1058 | an observed interrupt yields to a preemption with the queued messages, or ends the turn |
| TurnProtocol.Execution.OnNaturalEnd | molecule_runtime/a2a_executor.py:1060-1098 | a natural end drains the queue and restarts with the merged history, resetting the idle flags, or ends the turn |
| TurnProtocol.Execution.Release | molecule_runtime/a2a_executor.py:1362-1368 | frees the slot and clears all flags but not the queue |
| TurnProtocol.PreemptImpliesIdleTurn | molecule_runtime/a2a_executor.py:638-686 | in every reachable state at most one turn runs, and a preemption request implies a queued message, a self-idle turn in flight and nothing merged into it |
| TurnProtocol.PostNeverInterruptsAnswer | molecule_runtime/a2a_executor.py:638-658 | no POST interrupts a turn that answers a user, whether it started so or had a message merged |
| TurnProtocol.StopEndsAnswer | molecule_runtime/a2a_executor.py:1022-1036 | an interrupt observed by such a turn ends it and discards the queue without running it |
| TurnProtocol.StopRestartsIffPreempted | molecule_runtime/a2a_executor.py:1022-1058 | an observed interrupt restarts the turn if and only if a preemption was requested, and then with exactly the queued messages in order |
| TurnProtocol.RestartCarriesPartial | molecule_runtime/a2a_executor.py:1022-1098 | over every run, a turn that starts its stream again has its history grow by exactly the text it streamed since it last started, stripped, as one answer if any is left, and then the queued messages in order; it starts again when its stream ends with messages queued or it stops for a preemption |
| TurnProtocol.HistoryGrowsAtRestarts | molecule_runtime/a2a_executor.py:1046-1098 | no other step changes the history of a turn |
| TurnProtocol.StepKeepsFates | molecule_runtime/a2a_executor.py:1008-1098 | every step keeps one fate a message, and rejected, merged and discarded are final |
| TurnProtocol.RunKeepsFates | molecule_runtime/a2a_executor.py:601-686 | in every reachable state each non-routine message that found the context busy is in exactly one of rejected, queued, merged and discarded, once, each list in order of arrival |
| TurnProtocol.BusyPostIsRejectedOrQueued | molecule_runtime/a2a_executor.py:599-667 | at a busy context one of the seven routine source types, or an untyped message that starts with one of the two routine texts, is dropped; any other is told busy at capacity and queued last otherwise; it preempts exactly if it is queued, the turn is an idle wake and its source is no self type |
| TurnProtocol.HistoryIsFirstThenMerged | molecule_runtime/a2a_executor.py:1046-1098 | a turn's history asks its first message and then every message merged since, each once, in order of arrival |
| TurnProtocol.QueueCanOutliveTurn | molecule_runtime/a2a_executor.py:1355-1368 | a message accepted between the last drain and the release stays queued with no turn running |
| TurnProtocol.QuietInterruptIsStale | molecule_runtime/a2a_executor.py:1362-1368 | whenever no turn runs, the interrupt is up if and only if a Stop came since the last release, and no preemption or source type is left over |
| TurnProtocol.LeakedSlotStaysHeld | molecule_runtime/a2a_executor.py:1345-1368 | once a turn is cancelled on the way to its release, in every continuation the context stays busy, runs and merges nothing, and its queue only grows |
| TurnProtocol.SlotIsFreedIff | molecule_runtime/a2a_executor.py:1345-1368 | in every reachable state with a turn in flight, some continuation frees the slot if and only if the turn was not cancelled there |
| TurnProtocol.StaleStopEndsTurnIff | molecule_runtime/a2a_executor.py:1008-1098 | a Stop without a turn leaves the next turn without output; over every wait, it ends that turn and discards its queue if and only if the turn observes it before its stream ends or fails and no user with room in the inbox preempted a turn of idle work; a preempted turn goes on with the queued messages, a stream that ends drains them |
| TurnProtocol.StaleStopSwallowed | molecule_runtime/a2a_executor.py:1022-1058 | a run from the start in which a preempting user swallows such a Stop: the turn streams on with the message merged and nothing discarded |
| BundlePath.CollapseFollowsWalk | molecule_runtime/config_relay.py:163 | on relative paths normalisation computes where a component-by-component walk ends, and a walk that left the base is recorded by a leading `..` for good |
| BundlePath.NeverLeft | molecule_runtime/config_relay.py:161-172 | a walk that ends below the base never rose above it at any prefix |
| BundlePath.AcceptedIffWalksBelowBase | molecule_runtime/config_relay.py:154-172 | a path is accepted if and only if it is non-empty, relative, without NUL, walks to a place strictly below the base and that place keeps to the charset; the result names that place and has no empty, `.` or `..` component |
| BundlePath.AcceptedCharacters | molecule_runtime/config_relay.py:83 | an accepted path has letters, digits, dots, underscores, slashes and dashes only, but for a newline at its very end |
| BundlePath.ValidationIsIdempotent | molecule_runtime/config_relay.py:154-172 | validating an accepted path again returns it unchanged |
| BundlePath.CharsetIffNoFinalNewline | molecule_runtime/config_relay.py:154-172 | an accepted path keeps to the documented charset if and only if the last name its walk enters does not end in a newline |
| BundlePath.FinalNewlineAccepted | molecule_runtime/config_relay.py:83 | such a path is accepted |
| ConfigRelay.FetchBundle | molecule_runtime/config_relay.py:179-234 | returns the body of the first 2xx answer whose digest is the expected one, after exactly the backoffs before it; fails if and only if there is none |
| ConfigRelay.FetchCeiling | molecule_runtime/config_relay.py:91-97 | a fetch that exhausts its attempts has slept 31 seconds |
| ConfigRelay.PostAck | molecule_runtime/config_relay.py:305-354 | true if and only if its last POST met a 204; stops at the first 204, 400, 401 or 403 and at no other answer; sleeps exactly the backoffs between its POSTs; no POST without a control-plane address and workspace |
| ConfigRelay.ConfigVolume.UnpackBundle | molecule_runtime/config_relay.py:267-297 | makes the config directory, then takes the entries in order up to the first bad one, with a bad path, a bad value, a parent that cannot be made or escapes, or a file that cannot be opened or written whole; leaves exactly the files and directories made so far and raises that entry's error; succeeds if and only if all are good, with their destinations |
| ConfigRelay.WrittenIsWhole | molecule_runtime/config_relay.py:267-297 | after a good unpack each destination holds the content of the last entry that names it, whatever was there |
| ConfigRelay.AbortKeepsEarlierFiles | molecule_runtime/config_relay.py:240-285 | a bad entry aborts with all entries before it written, and of its own at most what a write that failed part-way leaves |
| ConfigRelay.AbortTouchesNothingIff | molecule_runtime/config_relay.py:240-285 | an unpack that aborts leaves files and directories as they were, whatever files there are, if and only if the config directory exists and the first entry is bad, opens no file, and makes no directory that is not there |
| ConfigRelay.AbortAfterWriting | molecule_runtime/config_relay.py:240-285 | a traversing path after a good entry is rejected with the good entry's file written |
| ConfigRelay.EscapeMakesDirectory | molecule_runtime/config_relay.py:240-285 | a first and only entry below a symlink that leaves the config directory: rejected, with its missing parent made |
| ConfigRelay.ConfigVolume.RunConfigRelayPrelude | molecule_runtime/config_relay.py:357-433 | skips exactly on a readable marker that strips to the digest; unpacks only a body that came in a 2xx answer with the expected digest, and has one if and only if some answer does; aborts exactly when fetch or unpack fails, and otherwise leaves the unpacked and marked directory, reports the destinations in order, and claims an ack only if some POST met a 204 |
| ConfigRelay.CutMarkerDoesNotMatch | molecule_runtime/config_relay.py:400 | a marker cut short mid-write never matches the digest |
| ConfigRelay.StepKeepsInv | molecule_runtime/config_relay.py:386-433 | every step, crashes included, keeps the invariant that ties marker, files, object and ack together; a boot that cannot read its marker is excluded only where the marker matches and the object is still there |
| ConfigRelay.MarkerVouchesForBundle | molecule_runtime/config_relay.py:386-433 | over every such run of one provision that keeps the marker's name to itself, a matching marker implies that the whole bundle is on disk, and once our ack deleted the object the marker matches exactly if the acking run had written it |
| ConfigRelay.RerunNeedsNoObject | molecule_runtime/config_relay.py:398-404 | after our ack, a rerun boots on the config on disk if and only if that run wrote its marker and it can be read; otherwise its fetch cannot succeed |
| ConfigRelay.VouchesIffMarkerReserved | molecule_runtime/config_relay.py:386-433 | for a provision with one bundle to its digest: no run of it without a harmful unreadable boot, however it crashes, ends with a marker that vouches wrongly, if and only if no entry the unpack gets to write names the marker file |
| ConfigRelay.NamedMarkerBreaksSafety | molecule_runtime/config_relay.py:386-433 | a good bundle whose last entry for the marker file holds anything but the digest: a boot without any crash ends with a matching marker and the bundle not whole |
| ConfigRelay.UnreadableBootHarmsIff | molecule_runtime/config_relay.py:386-404 | from any reachable state, a boot that cannot read the marker leads to one that vouches wrongly, through some run, if and only if the marker matches, the object is still there and the bundle is not empty |
| ConfigRelay.AlwaysVouchesIff | molecule_runtime/config_relay.py:386-433 | over all runs, harmful boots included: none ends with a marker that vouches wrongly if and only if no entry the unpack gets to write names the marker file and the bundle is empty or never unpacks |
| ConfigRelay.PreludeFollowsMachine | molecule_runtime/config_relay.py:406-433 | whatever a boot meets, if it does not crash, its files, its object and its ack are those some path of the machine leads to, so what holds on all paths holds of it |
| ConfigRelay.BootOnMachine | molecule_runtime/config_relay.py:386-433 | the prelude composed with the machine, assuming of the answers only that a deleted object is served to nobody: what it leaves some path of the machine leaves, so after a boot that does no harm, from any state the machine keeps sound, a matching marker vouches for the whole bundle |
| PeerCache.PeerMetadata.PeerMetadataGet | molecule_runtime/a2a_client.py:196-206 | a hit moves its key to the recent end; a miss changes nothing |
| PeerCache.PeerMetadata.PeerMetadataSet | molecule_runtime/a2a_client.py:209-223 | a store makes its key the most recent and trims from the old end |
| PeerCache.PeerMetadata.EnrichPeerMetadata | molecule_runtime/a2a_client.py:374-445 | answers from an entry fetched less than 300 seconds before, a negative one included, without a GET; otherwise returns and stores what the GET gave, stamped with the reading taken before it |
| PeerCache.CacheIsRecencyWindow | molecule_runtime/a2a_client.py:184-223 | after any lookups and stores the cache holds exactly the most recently touched keys up to its size, in recency order, each with its latest value |
| PeerEnrichment.RunIsSingleFlight | molecule_runtime/a2a_client.py:294-345 | over any interleaving at most one background enrichment per peer is outstanding and the in-flight set is exactly the set of such peers |
| PeerEnrichment.OwnerCanStep | molecule_runtime/a2a_client.py:313-345 | the thread that holds an in-flight peer, a refused submit included, always has a step it can take |
| PeerEnrichment.OwnStepsLeadToRelease | molecule_runtime/a2a_client.py:313-345 | each step of the holder brings its enrichment nearer to its end, at which the peer leaves the in-flight set; no other thread touches it |
| PeerEnrichment.NoPeerIsStuck | molecule_runtime/a2a_client.py:313-345 | from any reachable state and however threads interleave, no peer stays in flight through more than four steps of its holder |
| PeerEnrichment.BackgroundGetsAreSpaced | molecule_runtime/a2a_client.py:402-445 | without evictions and direct calls, the clock readings of two background GETs for one peer are at least a TTL apart, whatever the first returned; so the GETs start at least a TTL apart, less the delay of the first between its reading and its start |
| PeerEnrichment.SpacingIsTight | molecule_runtime/a2a_client.py:402-445 | whatever that delay up to a TTL, some run makes two GETs that start exactly a TTL less it apart |
| DelegateRetry.BackoffSeconds | molecule_runtime/a2a_client.py:971-982 | a delay is non-negative and within a quarter of the capped exponential |
| DelegateRetry.DrawsAreAdmissible | molecule_runtime/a2a_client.py:971-982 | whatever the random draws, the delays are those the retry loop is proved for |
| DelegateRetry.SendA2aMessage | molecule_runtime/a2a_client.py:1050-1244 | every POST starts by the deadline, at most the allowed number are made, the sleeps fit the budget and follow the backoffs, only transient failures are retried, an error is recorded at the terminal message, which names the right ceiling |
| DelegateRetry.SleepsWithinCeiling | molecule_runtime/a2a_client.py:971-982 | sleeps that follow the backoffs sum to at most 1.25 times the schedule |
| OutputNormalizer.HideTokensIgnoresCounters | molecule_runtime/autonomous_loop_guard.py:120-154 | hiding hex words and digit runs forgets the values of all decimal words |
| OutputNormalizer.NormalizeIgnoresCounters | molecule_runtime/autonomous_loop_guard.py:147-162 | outputs that differ only in numbers standing alone as words normalise alike |
| OutputNormalizer.CounterBumpKeepsMask | molecule_runtime/autonomous_loop_guard.py:115-123 | changing one such number is such a difference |
| OutputWords.AlikeHaveSameWords | molecule_runtime/autonomous_loop_guard.py:120-154 | outputs that normalise alike have the same words, lower-cased and in order, of those that hold no digit, are not six hex digits or more, and touch no `#` |
| OutputWords.TouchingIsNotStanding | molecule_runtime/autonomous_loop_guard.py:147-154 | a word without digits that is not all hex digits, written before a `#`, normalises like the same word with a digit after it, and is no standing word there |
| OutputWords.IdsAreAlike | molecule_runtime/autonomous_loop_guard.py:122-123 | ids of six hex digits or more that stand alone can stand for each other, in any letter case |
| OutputWords.DigitsAreAlike | molecule_runtime/autonomous_loop_guard.py:120-154 | so can runs of digits inside a word that is no hex id |
| OutputWords.OuterBlanksAreForgotten | molecule_runtime/autonomous_loop_guard.py:147-154 | blanks around an output do not matter |
| OutputWords.InnerBlanksAreForgotten | molecule_runtime/autonomous_loop_guard.py:147-154 | nor does which blanks stand between two words |
| NoopPhrases.MarkersJoin | molecule_runtime/autonomous_loop_guard.py:128-144 | the phrases, word by word, are the marker texts of the source |
| NoopPhrases.NoopIffSaysPhrase | molecule_runtime/autonomous_loop_guard.py:165-178 | an output is taken for a no-op if and only if one of the marker phrases stands in it, in any letter case and with any blanks between its words |
| LoopGuard.GuardState.Evaluate | molecule_runtime/autonomous_loop_guard.py:208-264 | one call decides and updates the counters as `EvaluateStep` says |
| LoopGuard.GuardState.RememberDelivered | molecule_runtime/autonomous_loop_guard.py:199-205 | the drop loop keeps the newest half of the store on overflow |
| LoopGuard.RunRefinesWindows | molecule_runtime/autonomous_loop_guard.py:208-264 | the counter is the length of the maximal suffix of replays, and the latch records whether a window was ever completed |
| LoopGuard.HaltIffWindowReached | molecule_runtime/autonomous_loop_guard.py:208-264 | HALT is returned exactly from the output on that completes a window of replays as long as its limit; EMIT and SUPPRESS are characterised likewise |
| LoopGuard.NewWordsAreEmitted | molecule_runtime/autonomous_loop_guard.py:208-264 | with a digest that keeps texts apart: an output is emitted if no window was completed, no marker phrase stands in it, nothing is stored under its key, and its standing words are not those of the output before it |
| LoopGuard.PhraseIsHeldBack | molecule_runtime/autonomous_loop_guard.py:208-264 | an output in which a marker phrase stands is never emitted |
| LoopGuard.MarkedIsHeldBack | molecule_runtime/autonomous_loop_guard.py:199-264 | a key marked as delivered is stored, and the next output under it is not emitted |
| LoopGuard.RememberKeepsNewest | molecule_runtime/autonomous_loop_guard.py:199-205 | remembering keeps the store a bounded set with the key just added; a known key changes nothing, a new one comes last, and at 512 the newest 255 stay with it |
| LoopGuard.StoreIsBounded | molecule_runtime/autonomous_loop_guard.py:199-205 | in every history the delivered store has no duplicate and never exceeds its cap |
| LoopGuard.EmittedOnceWhileStored | molecule_runtime/autonomous_loop_guard.py:215-264 | between two emissions under one key, the key has left the store |
| LoopGuard.CounterBumpingLoopHalts | molecule_runtime/autonomous_loop_guard.py:147-264 | after any history, more outputs than the limit that differ only in counters, with any deliveries marked between them, end in HALT |
| LaneManager.LaneIdsAreTheOwners | molecule_runtime/channel_events.py:671-692 | each plugin that owns a lane daemon is listed exactly once, and no other |
| LaneManager.LaneKindIsTheFirst | molecule_runtime/channel_events.py:671-692 | a plugin's lane is of the kind of its first lane daemon |
| LaneManager.KindAndPluginAreTrimmed | molecule_runtime/channel_events.py:671-692 | blanks around a declared kind or plugin do not matter |
| LaneManager.AddedIffNewKey | molecule_runtime/channel_events.py:574-575 | a hot-add takes a daemon if and only if no registered one has its key |
| LaneManager.InjectedGetsItsLane | molecule_runtime/channel_events.py:770-801 | a daemon whose plugin is served gets that plugin's socket, token and identity under its own kind's names, a trigger its state directory too, and nothing else changes |
| LaneManager.InjectedIsOwn | molecule_runtime/channel_events.py:770-801 | injection keeps every reserved token the one of the daemon's own plugin, under its own kind's names |
| LaneManager.TokenSharedIffSamePlugin | molecule_runtime/channel_events.py:780-801 | two served daemons carry the same token if and only if one plugin owns both |
| LaneManager.BoundIsExact | molecule_runtime/channel_events.py:597-621 | binding adds exactly the lanes asked for, keeps the four maps agreeing and leaves other lanes as they were |
| LaneManager.RollbackRestores | molecule_runtime/channel_events.py:640-649 | shutting down the lanes just bound restores all four maps, however many had been bound |
| LaneManager.ChannelEventSocketManager.PluginIds | molecule_runtime/channel_events.py:671-692 | the loop lists the identities and kinds of the lane daemons |
| LaneManager.ChannelEventSocketManager.InjectDaemonEnv | molecule_runtime/channel_events.py:770-801 | the loop gives every daemon its injected environment, whatever order and repetition of daemons it meets |
| LaneManager.ChannelEventSocketManager.BindLanes | molecule_runtime/channel_events.py:516-542 | the loop binds the lanes in order, up to a path that cannot be prepared |
| LaneManager.ChannelEventSocketManager.Start | molecule_runtime/channel_events.py:500-560 | succeeds exactly without a fault; then every lane is bound and every environment injected over its scrubbed self; on failure there are no lanes and no reserved variables |
| LaneManager.ChannelEventSocketManager.AddSpecs | molecule_runtime/channel_events.py:562-649 | a failed hot-add leaves the four maps and every earlier daemon's environment as before; a successful one adds exactly the unserved plugins; no daemon comes to hold another plugin's token |
| LaneManager.ChannelEventSocketManager.Stop | molecule_runtime/channel_events.py:651-657 | leaves no lanes and no reserved variables |
| LaneManager.ChannelEventSocketManager.StartStep | molecule_runtime/channel_events.py:500-560 | the whole new state of a start as a function of the old |
| LaneManager.ChannelEventSocketManager.AddStep | molecule_runtime/channel_events.py:562-649 | the whole new state of a hot-add as a function of the old |
| LaneManager.ChannelEventSocketManager.StopStep | molecule_runtime/channel_events.py:651-657 | the whole new state of a stop as a function of the old |
| LaneRuns.RunKeepsManaged | molecule_runtime/channel_events.py:500-657 | over every sequence of starts, hot-adds and stops with any failures, the four maps agree and there are lanes only while the manager counts as started |
| LaneRuns.StartServesEach | molecule_runtime/channel_events.py:500-560 | after a start that goes through each daemon with a lane names the socket path and fresh token of its own plugin, and a server has them |
| LaneRuns.AddServesEach | molecule_runtime/channel_events.py:562-649 | so after a hot-add that goes through, for the daemons there were and those it adds; plugins served before keep their servers |
| LaneRuns.RunKeepsOwnTokens | molecule_runtime/channel_events.py:504-508 | from the first call that clears the claims on, or if no manifest made one, no daemon ever holds the token of another plugin, whatever calls follow and fail |
| LaneRuns.HoldsOwnTokenIff | molecule_runtime/channel_events.py:500-657 | for every daemon the manager was made with, after every sequence of calls: it holds no token but its own plugin's if and only if some call cleared the claims, or its manifest claims nothing under another kind's name and any claim under its own was overwritten, since it has a lane and some hot-add went through |
| LaneRuns.AddedHoldOwnTokens | molecule_runtime/channel_events.py:562-649 | a daemon that came with a hot-add holds no token but its own plugin's, cleared or not |
| LaneRuns.StartAfterAddClearsNothing | molecule_runtime/channel_events.py:500-503 | a hot-add that binds a lane before any start counts as the start, so that a start after it clears no claim |
| EventLog.InMemoryEventLog.constructor | molecule_runtime/event_log.py:117-133 | positive bounds are taken, others fall back to an hour and ten thousand events |
| EventLog.InMemoryEventLog.EvictLocked | molecule_runtime/event_log.py:178-188 | the two eviction loops compute `Evict` |
| EventLog.InMemoryEventLog.Append | molecule_runtime/event_log.py:135-146 | hands out the next id and evicts |
| EventLog.InMemoryEventLog.Query | molecule_runtime/event_log.py:148-169 | evicts and returns the resident events above the cursor, cut to the limit |
| EventLog.PageTakesOldest | molecule_runtime/event_log.py:148-169 | a page holds the oldest resident events above the cursor: all of them, or as many as a non-negative limit admits |
| EventLog.EvictExact | molecule_runtime/event_log.py:178-188 | an eviction drops exactly the leading expired events and what is over the cap |
| EventLog.EvictKeepsContiguous | molecule_runtime/event_log.py:178-188 | the resident ids stay the last ones handed out, without a gap, within the cap |
| EventLog.PollPassesOnlyEvicted | molecule_runtime/event_log.py:148-169 | between the old cursor and the new a poll hands over an id if and only if it is resident |
| EventLog.PollMakesProgress | molecule_runtime/event_log.py:148-169 | a poll with room moves on if and only if there is something above the cursor, and without a limit it catches up |
| EventLog.RunIsFollowing | molecule_runtime/event_log.py:135-188 | over all runs the buffer is contiguous and the reader's ids are strictly increasing |
| EventLog.SkippedOnlyIfGone | molecule_runtime/event_log.py:135-188 | a reader skips an id only if it was no longer resident at the poll that passed it |

## Left out

- HTTP, sockets, uvicorn, subprocesses and symlinks: their outcomes are parameters or steps. File modes, the directories above the config directory and one that cannot be made are left out of the unpack. The crash machine follows the files alone; no step of it looks at a directory.
- SanitizeA2A.SanitizedByStages: holds, like the other results about matches, for character classes in which what folds with a letter is a word character and no blank, and a newline, a blank and a bracket are no word characters; the regular-expression engine's are such.
- LoopGuard.NewWordsAreEmitted: assumes a digest without collisions.
- sha256, JSON and base64 are uninterpreted functions; `Provision.decode` gives the entries in the sorted order `unpack_bundle` visits them.
- Symlinks inside the config directory that make two entries, or an entry and the marker, one file.
- A marker that is not ASCII: its bytes stand for its characters, and one that is not UTF-8, on which a boot raises, is not modelled.
- `relay_env` parsing, and the prelude's early return when no relay is configured.
- Digits, word characters and letter case beyond ASCII in the loop guard's normaliser; blanks are those of `str.strip` in full, and the sanitiser's word and case classes are parameters and so arbitrary.
- ConfigRelay.VouchesIffMarkerReserved: assumes, like AlwaysVouchesIff and UnreadableBootHarmsIff, that no two bundles share the digest, because sha256 is uninterpreted.
- Ids with a lone surrogate, which no Dafny character is: a tombstone save raises on one with the file already truncated.
- HarvestRuns.EpisodeAppendsOnce: an append may fail with lines unflushed, but always between whole lines; a line torn in two is not modelled.
- HarvestRuns.TombstonesAreTheWoken: assumes the kernel on, clean ids, appends that flush what they wrote, saves that succeed and no overflow past 4096, because a lost or evicted tombstone permits one more harvest by design and an unflushed line was never appended.
- HarvestRuns.RetriesDrain: counts polls that pass over a listing and append; polls inside the cooldown, failed requests, failed appends and polls that raise do not raise a count.
- Cancellation of the heartbeat task in the middle of a wake (a restart covers what follows), the summary text, the parent's name, and the notification pushes after a settlement.
- A crash of the reader between its rename and its delete (the `.consumed` file).
- Streaming, tool traces, telemetry, the turn lease and subprocess kills in `a2a_executor.py`: a stream yields an event whose tokens are appended one by one, ends, is interrupted or raises. A Stop for a context that has no inbox entry yet, which does nothing, is not a step.
- An enrichment executor that fails after it has queued a job.
- Floating-point rounding: times and delays are reals.
- `reset()`, the halt reason and the wedge flag of the loop guard; kernel selection and cooldown configuration.
- Concurrent calls of `add_specs`, and failures while stopping or removing socket files; the calls are sequential and each runs to its end. Between two calls nobody else changes a daemon's environment.
- MCP tools, access control, desktop, memory, configuration parsing, prompts, compaction and the scheduler: separate components, not part of this model.
