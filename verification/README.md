# FDAI: verified models of the command line, console and tooling

Dafny models of self-contained algorithms and state machines of this repository, each
proved against an independent definition of what it is for. `dafny verify dfyconfig.toml`
checks the whole project.

| files | models |
|---|---|
| `Sse`, `SseReassembly`, `SseTheorems`, `SseSplit`, `SseSizes`, `SseExample`, `SseWire`, `Utf8` | the live-stream read loop: text cut into chunks anywhere, CRLF handling, block cutting, the byte limit, event fields; held against a one-shot parser of the whole text |
| `PortPool`, `PortProtocol`, `PortSafety`, `PortExactness`, `PortExamples`, `PortAlone` | the port-lease pool: the code of one process on the lock folder, then many processes as steps of the file system, with crashes, reused process ids, and slots that a process inherits from its own environment; the two held against each other |
| `Autonomy`, `IncidentMetrics` | the cross-checks on aggregate measurements, held against populations of events and incidents |
| `TextLayout`, `TextWrap`, `TextWrapProperties`, `TextWrapGreedy`, `TextWords` | character widths, clipping, the input viewport, word wrapping |
| `CockpitState`, `CockpitHistory`, `CockpitPending`, `CockpitLedger`, `CockpitVerdicts`, `CockpitSpark` | the cockpit's in-place reducer and its ticks, held against its unbounded history |
| `LineEditor`, `CockpitEditing`, `ReplEditing`, `EditorAgreement`, `EditorLaws`, `EditorKeys` | the two raw-mode line editors, held against one editor with a caret between two texts |
| `AppendOrder`, `AppendRuns` | the append-order migration as statements on tables, its reversal, and the tables in later use |
| `Wilson`, `Baseline`, `BaselineFigures` | the baseline statistics over exact reals, and the release gate |
| `Roster` | the coalescing roster cache |
| `Wrappers`, `JsText`, `Sequences` | options, JavaScript string operations, bounded buffers |

Each object the source updates in place is a class whose methods are proved against
functions on its abstract state; properties over runs are lemmas about those functions.

Results a reader of the code may not expect:

- **Stream reassembly.** Normalization runs again over the retained buffer, so a line that
  ends in CR CR LF is read differently under different splits. For texts of any length that
  meet no size error, the outcome is the same under every split exactly when the text has no
  CR CR LF (`SseSplit.SameUnderEverySplitIff`, `SseSplit.DeliversOneShotIff`). A read may
  decode to nothing, when a chunk holds only part of a character; without such empty reads
  a CR CR LF at the very end is harmless (`SseSplit.SameUnderNonEmptySplitsIff`). For all other
  texts only carriage returns before line feeds can differ (`SseSplit.TextIsConserved`);
  `SseExample.CrCrLfDependsOnSplit` gives a text with two splits, of which one delivers a
  block. No size error occurs for texts of any length and kind whose blocks stay three bytes
  and whose rest two bytes under the limit (`SseSizes.SmallBlocksAlwaysAccepted`). A
  block one byte below the limit can be accepted or refused depending on the split
  (`SseTheorems.BlockNearLimitDependsOnSplit`).
- **Port leases.** Each call of the code is a step here: mkdir, reading the record, judging
  what was read (by the owner's liveness, or by the folder's age against a clock read
  before), removing, probing, writing. The environment entry outlives the release, as in the
  code. No slot is shared by two live leases under four assumptions (`PortSafety.Orderly`):
  a live creator writes its record or backs out within the grace period; when a process
  decides to remove a lock, the lock still carries the record it read, or still none; nobody
  removes a lock that another live process has decided to remove; and a process takes a
  second lease only while it holds its lock and releases the lock only after that lease.
  None can be dropped: for each there is a run that meets the other three and ends with a
  shared slot (`PortExamples`). For the second it is not enough that nobody else removes the
  lock between the read and the removal (`PortExamples.LateRecordBreaksExclusion`). In place
  of the first three, the exact condition is that no removal lands on a live claim
  (`PortProtocol.RunKeepsExclusionIff`): without such a removal no slot is shared, and after
  one some continuation shares it (`PortExactness`).
- **Viewport.** The caret may stand one column past the last one. `TextLayout.CaretOnAColumnIff`
  says exactly when, and `TextLayout.CaretPastTheEnd` gives an input.
- **Release gate.** Observed policy violations close the gate only if something was executed:
  without any execution the published escape rate is zero (`Baseline.ReleaseEligibleIff`), so
  runs in which every outcome is a violation pass (`Baseline.ViolationsPassWithoutExecution`).
- **Migration.** The new order looks at the timestamp first, so within an attempt it follows
  the sequence numbers exactly when timestamps never go back
  (`AppendOrder.OrderFollowsSequenceIff`).
- **Attribution.** Routing a pending event again does not refresh its eviction position
  (`CockpitPending.ReroutingDoesNotRefresh`).

## Model

| member | source | states |
|---|---|---|
| `Sse.ConsumeSse` | cli/src/cockpit-sse.ts:50-80 | The read loop delivers exactly the payloads of the blocks of the streaming state after all chunks, and closes normally exactly when no block or retained rest was too large |
| `Sse.DecodeBlock` | cli/src/cockpit-sse.ts:62-75 | A block hands on its payload, of which `SseWire.EventsArriveInOrder` says what it is |
| `Sse.FirstBlank` | cli/src/cockpit-sse.ts:56 | The position found is a blank line, no earlier one is, and -1 means there is none |
| `SseReassembly.NormalizeClears` | cli/src/cockpit-sse.ts:54 | One normalizing pass leaves no CRLF in a text without CR CR LF |
| `SseReassembly.NormalizeAgain` | cli/src/cockpit-sse.ts:54 | Normalizing an already normalized prefix together with the next raw chunk is normalizing the whole, if no line ends in two carriage returns |
| `SseReassembly.TextIsRejoinTail` | cli/src/cockpit-sse.ts:56-58 | Cutting loses nothing: the blocks, each followed by a blank line, and the rest are the text |
| `SseReassembly.CutIsComplete` | cli/src/cockpit-sse.ts:56-61 | The inner loop cuts exactly the blocks of the one-shot parse of the buffer, up to the first one over the limit |
| `SseReassembly.StreamIsOneShot` | cli/src/cockpit-sse.ts:50-80 | For a text without CR CR LF, under every way of cutting it into chunks: the read loop succeeds exactly when all blocks and all retained rests fit, then holds the one-shot parse of the whole text, and otherwise a prefix of its blocks |
| `SseTheorems.RetainedReappears` | cli/src/cockpit-sse.ts:54 | What is retained reappears, byte for byte in size, at the front of the next normalized buffer |
| `SseTheorems.RetainedBound` | cli/src/cockpit-sse.ts:78-80 | Where the blocks are at most MAX-2 and the tail at most MAX bytes, every retained rest is at most MAX |
| `SseTheorems.SmallBlocksAccepted` | cli/src/cockpit-sse.ts:56-80 | A stream whose blocks have at most MAX-2 bytes and whose tail has at most MAX is accepted under every split |
| `SseTheorems.AcceptedUnderEverySplit` | cli/src/cockpit-sse.ts:56-80 | A text is accepted under every split exactly when its blocks fit and the rest after each of its prefixes fits |
| `SseTheorems.BlockNearLimitDependsOnSplit` | cli/src/cockpit-sse.ts:56-80 | For every plain block one byte below the limit the same text is accepted in one chunk and refused in another split: MAX-2 is tight |
| `SseSplit.TextIsConserved` | cli/src/cockpit-sse.ts:50-80 | For every text, CR CR LF included, and every split: delivered blocks and retained rest are the text up to carriage returns before a line feed |
| `SseSplit.SameUnderEverySplitIff` | cli/src/cockpit-sse.ts:50-80 | For every text, of any length, that meets no size error however it is cut: the outcome is the same under every split exactly when the text contains no CR CR LF |
| `SseSplit.SameUnderNonEmptySplitsIff` | cli/src/cockpit-sse.ts:50-80 | The same when no read is empty: exactly when no CR CR LF is followed by another character |
| `SseSplit.ShortTextAccepted` | cli/src/cockpit-sse.ts:59-80 | A text of at most MAX bytes meets no size error under any split |
| `SseSizes.SmallBlocksAlwaysAccepted` | cli/src/cockpit-sse.ts:56-80 | Any text, with CR CR LF or without, whose blocks have at most MAX-3 bytes and whose rest has at most MAX-2 meets no size error under any split |
| `SseSizes.SmallBlocksSplitIff` | cli/src/cockpit-sse.ts:50-80 | For such texts of any length the outcome is the same under every split exactly when the text contains no CR CR LF |
| `SseExample.CrCrLfDependsOnSplit` | cli/src/cockpit-sse.ts:50-80 | A concrete text whose first block is delivered under one split and not under another |
| `SseSplit.DeliversOneShotIff` | cli/src/cockpit-sse.ts:50-80 | For a text of any length that ends at a blank line and meets no size error, the delivered blocks are those of the one-shot parse under every split, even without empty reads, exactly when it contains no CR CR LF |
| `SseWire.EventsArriveInOrder` | cli/src/cockpit-sse.ts:50-77 | Messages of any lines (event names, data with any white space after the colon, `id:` and other fields, comments), written with LF or CRLF and cut anywhere: exactly the data of those whose last event name is `stage` arrives, once each, in order, without anything from other lines |
| `SseWire.AnyLineIsWritten` | cli/src/cockpit-sse.ts:62-68 | Every non-empty line without terminators is one of the lines that result speaks of |
| `SseWire.Receive` | cli/src/cockpit-sse.ts:50-80 | The read loop itself, on such a stream: unless it meets a size error it delivers exactly that data |
| `SseWire.MessageComesBackIff` | cli/src/cockpit-sse.ts:62-69 | A message arrives with its data unchanged exactly when it is a stage event with data of which no line starts with white space beyond the one space the format allows |
| `Utf8.SizeIsEncodedLength` | cli/src/cockpit-sse.ts:59-79 | The sizes compared with the limit are the lengths of the UTF-8 encoding, from which the text comes back |
| `PortPool.LockRoot.CreateLock` | console/scripts/playwright-port-pool.ts:117-125 | mkdir succeeds exactly when there is no lock, and then makes an unowned one |
| `PortPool.LockRoot.ReclaimStaleLock` | console/scripts/playwright-port-pool.ts:98-115 | A lock is removed exactly when its owner is dead, or it has no owner record and is at least 30 seconds old; an absent one counts as reclaimed |
| `PortPool.LockRoot.Acquire` | console/scripts/playwright-port-pool.ts:131-200 | Without interference: the first acquirable slot with free ports is leased with its own record; stale slots passed over are left without a lock; nothing else changes; an inherited slot takes no lock |
| `PortPool.LeaseHandle.Release` | console/scripts/playwright-port-pool.ts:182-190 | Only the first call acts, and it removes the lock exactly when it still carries this lease's record |
| `PortAlone.AcquireIsRun` | console/scripts/playwright-port-pool.ts:149-193 | The acquire loop on the lock folder ends with the locks and the lease of the protocol run in which only its process steps |
| `PortAlone.ReleaseIsRun` | console/scripts/playwright-port-pool.ts:183-190 | A release ends with the locks of the protocol run of the release steps |
| `PortProtocol.StepKeepsExclusionIff` | console/scripts/playwright-port-pool.ts:98-193 | From any exclusive state, a step of any process keeps exclusion exactly when it is not a stale-lock removal that lands on a live claim |
| `PortProtocol.RunKeepsExclusionIff` | console/scripts/playwright-port-pool.ts:98-193 | A whole run, with crashes and reused process ids, is exclusive throughout exactly when none of its removals lands on a live claim |
| `PortSafety.StaleIsUnclaimed` | console/scripts/playwright-port-pool.ts:103-112 | Under the invariant a lock that looks stale is claimed by no live process |
| `PortSafety.StepKeepsInv` | console/scripts/playwright-port-pool.ts:98-193 | With live creators inside the grace period, the judged record still in the lock when its removal is decided, nobody removing a lock that another live process has decided to remove, and inherited leases only while the process holds its lock, every step keeps the invariant and no removal hits a live claim |
| `PortSafety.RunKeepsInv` | console/scripts/playwright-port-pool.ts:98-193 | The invariant holds after every such run |
| `PortSafety.LeasesShareNoPort` | console/scripts/playwright-port-pool.ts:131-193 | After every such run two live leases, inherited ones included, have different slots and share no front-end or API port |
| `PortSafety.ReleaseDeletesOwnLock` | console/scripts/playwright-port-pool.ts:165-190 | A release or back-out never removes a lock that another live process claims, and a release removes its own |
| `PortSafety.LateReleaseIsHarmless` | console/scripts/playwright-port-pool.ts:183-190 | With no assumption at all, over every run: a release that finds another record, or none, changes no lock, and neither does any later step of its process |
| `PortSafety.ReleasedTouchesNoLock` | console/scripts/playwright-port-pool.ts:183-190 | With no assumption at all, over every run: once its lease is released a process changes no lock any more, so a repeated release is harmless |
| `PortExactness.HitLeadsToSharedLease` | console/scripts/playwright-port-pool.ts:98-193 | After any stale-lock removal that lands on a live claim, some continuation ends with two live processes using one slot |
| `PortExactness.NoHitNoSharedLease` | console/scripts/playwright-port-pool.ts:98-193 | Without such a removal, and with inherited leases only while the lock is held, no slot is ever shared, whatever the clock and the reclaims do |
| `PortExamples.OverlapBreaksExclusion` | console/scripts/playwright-port-pool.ts:98-115 | A concrete run in which two processes decide to remove one stale lock ends with two live leases on its slot; it meets the other three assumptions |
| `PortExamples.LateCreatorBreaksExclusion` | console/scripts/playwright-port-pool.ts:106-112 | A concrete run in which a live creator outlasts the grace period ends with two live leases on a slot; it meets the other three assumptions |
| `PortExamples.OutdatedRecordBreaksExclusion` | console/scripts/playwright-port-pool.ts:103-113 | A concrete run in which a record is read while its owner holds the slot and judged after the owner has released it and gone and another process has leased it: the only reclaimer removes the live lock; the run meets the other three assumptions |
| `PortExamples.LateRecordBreaksExclusion` | console/scripts/playwright-port-pool.ts:103-113 | A concrete run in which a lock is read before its record is written, in time, and judged by its age much later ends with two live leases though nobody else removes a lock; it meets the other three assumptions |
| `PortExamples.UnbackedLeaseBreaksExclusion` | console/scripts/playwright-port-pool.ts:134-147 | Two concrete runs, one in which a process acquires again after its release, one in which it releases its lock before a second lease ends, end with two live leases; both meet the other three assumptions |
| `Autonomy.ProducedIsAccepted` | console/src/api-insights.ts:131-251 | Soundness of the checks: any measurement computed from a population of events is accepted |
| `Autonomy.VerticalsPartition` | console/src/api-insights.ts:193-197 | Verticals with unique keys that cover all events split the population: events and resolved events add up |
| `Autonomy.AcceptedIffProduced` | console/src/api-insights.ts:131-251 | Realizability: the checks accept a measurement exactly when some population of events, each with a vertical, an outcome, perhaps a tier, and a marker, produces all its counts and, as products of counts up to 1e-12 of the population, its coverage, its rate and, with tier counts, its mix |
| `Autonomy.FaultIsReal` | console/src/api-insights.ts:131-251 | Every refusal names a check that fails: what is wrong with the markers, keys, sums, ratios or counts |
| `TextLayout.StrWidth` | cli/src/cockpit-format.ts:31-35 | The loop computes the sum of the character widths |
| `TextLayout.Clip` | cli/src/cockpit-format.ts:37-47 | The loop returns the clip of the text |
| `TextLayout.ClipIsLongest` | cli/src/cockpit-format.ts:37-47 | A non-empty prefix fits exactly when it is no longer than the clip |
| `TextLayout.ClipUnique` | cli/src/cockpit-format.ts:37-47 | There is only one clip of a text at a width |
| `TextLayout.HiddenLeavesLongest` | cli/src/cockpit-format.ts:59-62 | What stays visible before the cursor is the longest suffix that fits |
| `TextLayout.InputViewport` | cli/src/cockpit-format.ts:49-68 | The shown text is no wider than max(1, width): a mark if something is hidden, the longest fitting suffix of the text before the cursor, then the clip of the text after it; the caret is where the first part ends |
| `TextLayout.CaretOnAColumnIff` | cli/src/cockpit-format.ts:54-65 | The caret is never beyond the column after the last, and stands on a column exactly when the text before it is narrower than the line or no suffix of that text is exactly one column narrower than the line |
| `TextLayout.CaretOfOneColumnText` | cli/src/cockpit-format.ts:54-65 | With one-column characters the caret is past the last column exactly when there are at least as many characters before it as columns |
| `TextLayout.CaretPastTheEnd` | cli/src/cockpit-format.ts:54-65 | A concrete input whose caret is past the last column |
| `TextWrap.Wrap` | cli/src/cockpit-format.ts:70-92 | For every text, width and limit, negative ones included, the loop with its early exits returns the first `maxLines` lines of the layout without a limit |
| `TextWords.FullLayoutIsGreedy` | cli/src/cockpit-format.ts:70-92 | For every text and width the layout is the greedy one of its words: each line takes as many whole words as fit, and a word that fits on no line is cut where the next character would not fit; white space at the end leaves at most a space |
| `TextWrapGreedy.LayoutIffGreedy` | cli/src/cockpit-format.ts:73-90 | The layout of words is the only greedy one |
| `TextWrapGreedy.LayoutHasFullLines` | cli/src/cockpit-format.ts:73-90 | When the words fit, the lines fit and no line has room for the first word of the next |
| `TextWrapGreedy.OnlyFullSplit` | cli/src/cockpit-format.ts:73-90 | No other split of the words into lines has this property |
| `TextWords.SplitWordsIff` | cli/src/cockpit-format.ts:71 | The words are the only ones from which the text comes by putting white space between them, only the first and the last possibly empty |
| `TextWrap.WordsAreInk` | cli/src/cockpit-format.ts:71 | The words joined are the text without its white space |
| `TextWrapProperties.FullLayoutKeepsInk` | cli/src/cockpit-format.ts:70-92 | The layout loses, repeats and reorders no visible character |
| `TextWrapProperties.FullLayoutFitsIff` | cli/src/cockpit-format.ts:70-92 | All lines fit exactly when each visible character fits on a line of its own |
| `TextWrapProperties.WrapIsFaithful` | cli/src/cockpit-format.ts:70-92 | At most `maxLines` lines, carrying a prefix of the visible text, all of it when there are fewer lines than the limit; at width 2 or more they all fit |
| `TextWrapProperties.WrapFitsEverythingIff` | cli/src/cockpit-format.ts:70-92 | Lines fit for every text and limit exactly when the width is at least two |
| `TextWrapProperties.BreaksOnlyBetweenWords` | cli/src/cockpit-format.ts:70-92 | For a text without outer white space whose words all fit, joining the lines with spaces gives back the words joined with spaces |
| `CockpitState.Cockpit.ReduceStageFrame` | cli/src/cockpit-state.ts:88-171 | The in-place reducer takes the state to its successor and returns the activity of the accepted audit, if any |
| `CockpitState.Cockpit.TrimPending` | cli/src/cockpit-state.ts:189-195 | The loop leaves the last 1024 keys of the ordered map |
| `CockpitPending.TrimKeepsEntries` | cli/src/cockpit-state.ts:189-195 | Trimming keeps exactly the newest entries, unchanged |
| `CockpitState.Cockpit.TrimCompleted` | cli/src/cockpit-state.ts:189-195 | The loop leaves the last 4096 completed ids |
| `CockpitSpark.Drive` | cli/src/cockpit.ts:231-236 | After any run of frames and ticks the spark line is the last 60 differences between the handled counts read at the ticks, and its bars add up to what was handled over that window |
| `CockpitSpark.WindowSum` | cli/src/cockpit.ts:232-234 | The differences from any tick on add up to what was handled since |
| `CockpitHistory.CompletedIsWindow` | cli/src/cockpit-state.ts:112-117 | The completed set is always the last 4096 accepted ids in order, and `handled` counts all acceptances |
| `CockpitHistory.AcceptancesAreSpaced` | cli/src/cockpit-state.ts:112-115 | Two acceptances of one id have at least 4096 others between them |
| `CockpitHistory.AcceptedAreAudited` | cli/src/cockpit-state.ts:112-114 | Every audited id is accepted at least once, and nothing else is |
| `CockpitHistory.ExactWithinWindow` | cli/src/cockpit-state.ts:112-117 | With at most 4096 distinct audited ids `handled` is exactly their number, however often each is audited |
| `CockpitHistory.WindowIsTight` | cli/src/cockpit-state.ts:112-117 | After any 4097 distinct audits, auditing the first again counts it twice |
| `CockpitPending.FrameKeepsIff` | cli/src/cockpit-state.ts:94-109 | A pending event not being reported stays pending unless another event arrives while exactly 1023 are behind it |
| `CockpitPending.StaysPending` | cli/src/cockpit-state.ts:97-102 | An event stays pending as long as the events behind it and those that arrive later are fewer than 1024 |
| `CockpitPending.EntryIsLatest` | cli/src/cockpit-state.ts:94-110 | The entry of a pending event is what its whole history says: resource of the latest route, tier of the latest route or valid verification |
| `CockpitPending.AuditReportsLatest` | cli/src/cockpit-state.ts:94-155 | After any history, the audit of a routed event reports its latest resource and tier whenever fewer than 1024 events were behind it or arrived since, and what its decision and outcome say |
| `CockpitPending.AuditWithoutEntry` | cli/src/cockpit-state.ts:117-120 | The audit of an event that is not pending reports no named resource and tier t0 |
| `CockpitVerdicts.AuditsAreCounted` | cli/src/cockpit-state.ts:112-155 | After any run `handled`, `autoApplied` and `awaitingYou` are the numbers of accepted audits, of those with decision "auto" or outcome "executed", and of the others with decision "hil" or "hil" in the outcome; every reported activity says what its audit says |
| `CockpitVerdicts.Drive` | cli/src/cockpit-state.ts:88-171 | The counters of the reducer object after any frames are those numbers |
| `CockpitPending.ArrivalsPushOut` | cli/src/cockpit-state.ts:97-102 | As soon as the events behind a pending one reach 1024 it is gone: the bound is exact |
| `CockpitPending.ReroutingDoesNotRefresh` | cli/src/cockpit-state.ts:97-102 | Routing a pending event again renews its entry but not its place: the same number of arrivals still evicts it |
| `CockpitLedger.StepBalances` | cli/src/cockpit-state.ts:93-170 | One frame keeps all counters, the feed and the resource table equal to what the history of frames and activities says |
| `CockpitLedger.CountersAreConserved` | cli/src/cockpit-state.ts:93-170 | After any run: `byTier` per tier and in total are the route frames, `errors` the failed frames, the feed the last 400 activities, applied plus awaiting at most `handled`, and the resource table sums to the activities with a named resource in at most 129 kinds |
| `CockpitEditing.CockpitEditor.OnData` | cli/src/cockpit-input.ts:15-105 | Each key takes the cockpit's editor to the line editor's next state |
| `CockpitEditing.CockpitEditor.DeleteWord` | cli/src/cockpit-input.ts:72-80 | The two loops of Ctrl-W leave the text before the last word |
| `CockpitEditing.CockpitEditor.Submit` | cli/src/cockpit.ts:194-213 | Submitting clears the prompt, leaves on an exit command, and otherwise records the question and waits |
| `CockpitEditing.CockpitEditor.RecordTurn` | cli/src/cockpit.ts:84-90 | The conversation is the last twelve turns |
| `ReplEditing.ReplEditor.OnData` | cli/src/repl.ts:205-292 | Each key takes the prompt's editor to the line editor's next state |
| `ReplEditing.ReplEditor.Submit` | cli/src/repl.ts:148-165 | Submitting clears the prompt, leaves on an exit command, and otherwise records the question and waits |
| `EditorAgreement.Drive` | cli/src/cockpit-input.ts:15-105 | For every sequence of keys and answers both editors end in the same state, that of the line editor, and it is safe |
| `EditorLaws.RunKeepsSafe` | cli/src/cockpit-input.ts:15-105 | After any run the input has at most 4096 characters without controls or line feeds, recalled entries included, the recall index is in range, the history has at most 100 entries and no equal neighbours, turns alternate, and nothing is typed while an answer is due |
| `EditorLaws.BuffersAreWindows` | cli/src/cockpit.ts:84-90 | History and conversation are the last 100 and the last 12 of the unbounded ones, for every run |
| `EditorLaws.PasteIsTyping` | cli/src/cockpit-input.ts:91-104 | Ordinary text pasted in one chunk edits as the same text typed key by key, at the length limit too |
| `EditorLaws.NewlineEndsThePaste` | cli/src/cockpit-input.ts:92-103 | A chunk with a line end acts as the text before it and Enter; the rest is lost |
| `EditorLaws.ErasingUndoesTyping` | cli/src/cockpit-input.ts:22-29 | Erasing as many characters as a chunk inserted restores the state exactly |
| `EditorLaws.WordErasedIff` | cli/src/cockpit-input.ts:72-80 | Ctrl-W keeps exactly the text before the last word and its trailing blanks |
| `EditorLaws.CaretKeysOnlyMove` | cli/src/cockpit-input.ts:30-71 | Any run of caret keys leaves the line as it is and takes the caret to the column the keys say |
| `EditorLaws.UpShows` | cli/src/cockpit-input.ts:40-50 | Going up k times shows the k-th latest entry, and stays at the oldest |
| `EditorLaws.DownFrom` | cli/src/cockpit-input.ts:51-61 | Going down n entries shows the n-th later one, and the empty prompt after the latest |
| `EditorLaws.RecallReturns` | cli/src/cockpit-input.ts:40-61 | As many steps down as up lead back to an empty prompt, with nothing else changed |
| `EditorLaws.CleanedIsPlain` | cli/src/display-text.ts:3-18 | Cleaned text has no control character, and line feeds exactly if the text had line ends |
| `EditorKeys.PrintableIsTyped` | cli/src/cockpit-input.ts:92-104 | Printable text goes before the caret as it is, as much as the 4096 characters leave room for |
| `EditorKeys.TabIsTwoSpaces` | cli/src/display-text.ts:3-18 | A tab types two spaces |
| `EditorKeys.ControlsAreDropped` | cli/src/display-text.ts:3-18 | A control character inside a paste is dropped and the text around it kept |
| `EditorKeys.ArrowKeys` | cli/src/cockpit-input.ts:30-71 | What each arrow, Home and End key does to the line, by the characters a terminal sends |
| `EditorKeys.CtrlUEmptiesTheLine` | cli/src/cockpit-input.ts:81-86 | Ctrl-U empties the line and changes nothing else |
| `EditorKeys.CtrlDEndsIff` | cli/src/cockpit-input.ts:87-90 | Ctrl-D ends the session exactly on an empty line |
| `EditorKeys.WhileBusy` | cli/src/cockpit-input.ts:16-20 | Ctrl-C ends the session at any time; while an answer is due no other key does anything |
| `EditorKeys.EnterAsks` | cli/src/cockpit.ts:194-213 | Enter asks the line without outer white space: nothing if that is empty, the end of the session on /exit, /quit or /q, otherwise a question that is recorded unless it repeats the latest |
| `EditorKeys.AnswerEndsTheWait` | cli/src/cockpit.ts:84-90 | An answer ends the wait, and one with text adds the exchange to the last twelve turns |
| `AppendOrder.Tables.BackfillOrder` | alembic/versions/20260829_0088_background_task_completion_updated_at.py:34-43 | Every row gets its rank in the order of time, attempt and sequence, and nothing else changes |
| `AppendOrder.Tables.ReseedCounter` | alembic/versions/20260829_0088_background_task_completion_updated_at.py:44-48 | The next value is one more than the greatest order, or 1 for an empty table |
| `AppendOrder.Tables.Watermark` | alembic/versions/20260829_0088_background_task_completion_updated_at.py:62-73 | The watermark is the greatest order of the attempt's rows, or 0 without any |
| `AppendOrder.Tables.Upgrade` | alembic/versions/20260829_0088_background_task_completion_updated_at.py:24-77 | The statements in turn: orders are the ranks, the next order is their number plus one, every completion has COALESCE(terminal_at, created_at) and its watermark, and no watermark is negative |
| `AppendOrder.Tables.UpgradeThenDowngrade` | alembic/versions/20260829_0088_background_task_completion_updated_at.py:150-169 | The downgrade undoes the upgrade |
| `AppendOrder.RankOrders` | alembic/versions/20260829_0088_background_task_completion_updated_at.py:36 | A rank is smaller exactly for an earlier time, at one time for a smaller attempt, and within that for a smaller sequence number; ranks differ for different rows and lie in 1..n |
| `AppendOrder.RanksFill` | alembic/versions/20260829_0088_background_task_completion_updated_at.py:36 | Every number from 1 to n is the rank of a row |
| `AppendOrder.OrderFollowsSequenceIff` | alembic/versions/20260829_0088_background_task_completion_updated_at.py:36 | Within an attempt the new order follows the sequence numbers exactly when its timestamps never go back |
| `AppendRuns.MigratedIsGood` | alembic/versions/20260829_0088_background_task_completion_updated_at.py:34-77 | The migrated tables satisfy the invariant of later use |
| `AppendRuns.ApplyKeepsGood` | services/core-control-plane/src/fdai/delivery/persistence/postgres_background_task.py:511-566 | Every later append, completion, purge and rolled-back insert keeps orders unique and below the next value and every watermark exact |
| `AppendRuns.GreatestIsWatermark` | services/core-control-plane/src/fdai/delivery/persistence/postgres_background_task_completion.py:287-295 | A completion inserted later takes the greatest order of its attempt, or 0 |
| `AppendRuns.RunKeepsGood` | alembic/versions/20260829_0088_background_task_completion_updated_at.py:30-52 | After any later run, with gaps in the sequence, the orders are unique and the watermarks exact |
| `AppendRuns.LaterIsGreater` | alembic/versions/20260829_0088_background_task_completion_updated_at.py:44-48 | Whatever is appended later is ordered after everything present before |
| `AppendRuns.SettledStays` | alembic/versions/20260829_0088_background_task_completion_updated_at.py:62-73 | Until its attempt is purged a completion keeps its watermark and its attempt exactly the rows it had, all bounded by it |
| `AppendRuns.RowsPerAttempt` | services/core-control-plane/src/fdai/delivery/persistence/postgres_background_task.py:511-566 | An accepted append adds its row with the next order to its attempt, a purge of the finished attempt removes its rows, and nothing else touches any rows |
| `Wilson.IntervalIsScoreTest` | tools/baseline_run.py:495-502 | For every level and count the unclamped interval is exactly the set of proportions the score test does not reject |
| `Wilson.BoundsNeedNoClamps` | tools/baseline_run.py:495-507 | 0 <= lower <= p <= upper <= 1 without the clamps; lower is 0 exactly without successes, upper 1 exactly without failures |
| `Wilson.IntervalCoversPlausible` | tools/baseline_run.py:491-507 | The published interval contains exactly the proportions the score test does not reject |
| `Wilson.SwapReflects` | tools/baseline_run.py:491-507 | Swapping successes and failures mirrors the interval about one half |
| `Baseline.PercentileIsNearestRankIff` | tools/baseline_run.py:448-453 | The percentile is the only element with at least q*n values at most it and fewer than q*n below it |
| `Baseline.Tally` | tools/baseline_run.py:345-360 | One pass over a list of outcomes gathers its count, model calls, latencies, cost and unpriced calls; the cost is known exactly when no outcome with calls lacks one |
| `Baseline.TierEconomics` | tools/baseline_run.py:341-361 | The loops over the tiers and their outcomes gather the figures of each of the three tiers |
| `BaselineFigures.FiguresSay` | tools/baseline_run.py:345-360 | What the figures are: sums of calls and costs, the number of latencies, a latency that 95 in 100 do not exceed and fewer stay below, and a cost that is missing exactly if some outcome made calls without one |
| `Baseline.Gate` | tools/baseline_run.py:341-439 | From the outcomes through the loops and the published figures, the gate opens exactly for releasable runs |
| `Baseline.FiguresPartition` | tools/baseline_run.py:341-376 | Counts, model calls, unpriced calls, latency samples and costs of the tiers add up to those of the run |
| `Baseline.CostsPartition` | tools/baseline_run.py:442-445 | The run's cost is known exactly when every tier's is, and is then their sum |
| `Baseline.MetricsCompleteIff` | tools/baseline_run.py:413-416 | `metrics_complete` holds exactly when every outcome has a latency and every outcome with model calls a cost |
| `Baseline.ReleaseEligibleIff` | tools/baseline_run.py:408-439 | The gate, which reads only published figures, opens exactly for runs of at least 30 complete outcomes within all quality bounds; violations close it only if some outcome was executed |
| `Baseline.ViolationsPassWithoutExecution` | tools/baseline_run.py:476-487 | A concrete family of runs: from 30 outcomes on, the gate opens although every outcome is a violation, since none was executed |
| `Roster.IamApiClient.Roster` | console/src/api-iam-client.ts:46-71 | A call hands out the stored promise or sends a request and stores its promise |
| `Roster.IamApiClient.OnFailure` | console/src/api-iam-client.ts:64-67 | A failure clears the stored promise |
| `Roster.RunKeepsInv` | console/src/api-iam-client.ts:46-71 | The cache invariant holds after every sequence of calls, settlements and waits |
| `Roster.CallHandsOutFreshPromise` | console/src/api-iam-client.ts:46-71 | After any run a call hands out a promise that is pending or succeeded less than 30 seconds ago, never a failed one, and no other request is in flight |
| `Roster.RequestSentIff` | console/src/api-iam-client.ts:47-53 | A call sends a request exactly when nothing is pending and nothing succeeded in the last 30 seconds |
| `Roster.FailureClearsItsOwn` | console/src/api-iam-client.ts:64-67 | A failure is always that of the stored promise: an old one never clears a newer |
| `Roster.RequestsAreSpaced` | console/src/api-iam-client.ts:46-71 | Requests never overlap, and after a success the next is at least 30 seconds later |
| `IncidentMetrics.DecodeIncidentMetrics` | console/src/api-operations.ts:224-280 | The loops over lists, counts and flags return the first error of the checks in their order, or none |
| `IncidentMetrics.AcceptedIffConsistent` | console/src/api-operations.ts:233-280 | The checks pass exactly when every list is well formed, no reference repeats within or across cohorts, the counts add up, each list fits its count, in full unless truncated, and a given matched total is at least the denominator |
| `IncidentMetrics.ErrorIsReal` | console/src/api-operations.ts:233-280 | Every refusal names a check that fails, and the cohort it fails for |
| `IncidentMetrics.AcceptedListsAreBounded` | console/src/api-operations.ts:233-280 | Accepted lists hold at most `denominator` different incidents, exactly that many without truncation, and a cohort above 200 is marked truncated |
| `IncidentMetrics.AcceptedIffSummary` | console/src/api-operations.ts:233-280 | Realizability: metrics are accepted exactly when some incidents with unique references, each in one cohort, are summarised by them and are among those matched |

## Left out

- SSE: `fetch`, the content-type check, UTF-8 decoding and the byte-order mark, JSON parsing and the field checks of a stage frame; the text starts as Unicode scalar values, so lone surrogates do not occur.
- Sse.ConsumeSse: the caller's cancellation and the status callback are not modelled; a size error is the result `closed == false`.
- Port leases: probing the ports, creating the lock root, errors of mkdir other than "exists", and the exit hook. Removing a folder with its record (`rmSync`) and writing the record (`writeFileSync`) are one step each, a malformed record reads as none, and the clock does not go back. A process inherits slots only from its own earlier acquire; a child process that inherits its parent's slot counts as the same holder and is no process of its own here.
- Autonomy: single-field decoding, bands, trends and metric samples. Without tier counts the code does not tie the mix to any events, and neither does the model. Counts are integers and ratios exact reals; the key lists that the source sorts and joins with commas are compared as sets.
- IncidentMetrics: single-field decoding, the window bounds, the terminal rule and the median, whose checks come between the cohort checks and that of the matched total. The ordering check of a root-cause view is not modelled.
- TextLayout: bars, sparklines and colour codes.
- TextWrapProperties.BreaksOnlyBetweenWords: assumes words that fit, since a wider word is cut into chunks without a space; what is kept then is in `TextWrapProperties.WrapIsFaithful`.
- CockpitState: turning details into bounded display lines happens before a frame; activity texts are a kind instead of translated strings; the question state, view and status are not modelled. `resourceCounts` is a map, so names equal to inherited object properties do not occur.
- Line editors: rendering, the caret column, resizing, screen commands, and the service call. An answer's arrival and the end of its display are one step, and an answer the cockpit gives itself counts as one without a reply.
- AppendOrder: types, indexes and constraints other than those the proofs discharge, the outbox table, and text collation: an attempt id is its rank in the database's order. The unique primary key is an assumption.
- AppendRuns: each operation is one transaction; the order in which concurrent transactions commit and the states of an attempt other than terminal or not are not modelled.
- Wilson: the square root is given by a witness, and rounding is left out.
- Baseline: loading scenarios and observations, medians, per-domain rates, cohort claims and rendering. A predicted tier is one of the three, as the observation loader enforces. Quantiles above one, which would index past the end, are excluded.
- Roster: the settlement of a promise and its handler are one step, and the clock does not go back between steps.
