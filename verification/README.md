# Verified model of a policy-constrained browser automation server

This project models the state machines and algorithms at the core of the server: the
action queue of a browser session and the human hand-over, the declarative workflow engine,
the snapshot history and its diff, the adaptive locator, the session manager, the bridge and
CDP request correlation, target refs, and three codecs. Each part is proved against what the
source promises, for every input, every run or every interleaving.

## How it is organised

| file | models |
|---|---|
| Common, Text, Json, StableJson, Decimal | UTF-16 strings, UTF-8, JSON printing and parsing, the canonical text of a request, decimal numerals |
| WorkflowSteps, WorkflowNormalize | the workflow language, its limits and its normaliser |
| WorkflowResult, BoundResult | results and the byte bound on them |
| WorkflowExecutor, WorkflowLog | the executor’s loop against an arbitrary adapter and clock; what its calls say of the steps |
| Retention, ActionCache | caches as the longest unexpired fitting suffix of their insertions; idempotent writes |
| SessionTabs | the tabs of a session, the guard of writes against changed pages, restoring tabs |
| ControlLease, SessionQueue, SessionProgress, SessionOutcome, SessionAgreement, BrowserSession | the lease, the queue as a state machine over the code between `await` points, how actions give the session back and what they come to, when state and lease agree, and the session object that does those steps |
| SnapshotContent | the compact text of a snapshot |
| SnapshotText, UriComponent, SnapshotNodes, SnapshotDiff, SnapshotHistory | the bounded history of snapshots and its diff |
| EditDistance, AdaptiveLocator | the edit-distance table, similarity and target selection |
| SessionManager, SessionCap | live sessions, profile owners and expiry timers; the limit on sessions |
| Correlation, BridgePool, RawCdpConnection | commands that are settled exactly once |
| TargetRegistry | short-lived opaque refs |
| Csv, Totp | CSV rows; Base32, truncation and time window of one-time passwords |

Objects that the source updates in place are classes here. Where asynchronous code matters,
a pure `Step` gives the meaning of the code between two `await` points, the class methods are
proved to do exactly that step, and the properties are proved of all runs of `Step`.

SHA-256 is an injective function, an HMAC any function to 20 bytes, case folding and URL
validity are parameters, random parts and UUIDs are arbitrary or fresh values, and clocks are
arbitrary or non-decreasing readings passed in by the caller.

## Where the code does less than it aims for

Each of these is proved: a lemma with a concrete run or input, and the exact condition under
which the code does meet its aim.

- A body that does not belong to the active workflow can start while that workflow holds the
  session, because the token is checked before the challenge scan and not after it: exactly
  when the workflow took the session in between (`SessionQueue.ForeignBodyStart`,
  `SessionQueue.ForeignBodyCanStart`).
- READY can be shown while the lease is not the agent’s, in four ways, each ruled out by one
  condition of `SessionQueue.Benign` (`SessionQueue.StateAndLeaseAgree` and the four lemmas
  after it); an event that breaks its condition can always be continued to such a state
  (`SessionAgreement.BenignIsExact`).
- `recordWithDiff` can evict its own base and then fails although the snapshot was recorded
  (`SnapshotHistory.History.RecordWithDiff`, `SnapshotHistory.CapacityOneLosesBase`).
- `boundedText` is not idempotent when its last cut falls behind a space, and a whitespace-only
  optional string or a long text makes an observation differ from its own record
  (`SnapshotText.BoundedTextTwice`, `SnapshotDiff.OwnRecordIsUnchanged`). It can also cut a
  character in half; then the key of a node without a test id raises a URIError, and so does
  every diff against the record (`SnapshotText.BoundedTextWellFormed`,
  `SnapshotDiff.CutNameRefusesDiff`, `SnapshotDiff.RaisingBaseRefusesAll`).
- The lines of a page’s text can look like those of targets (`SnapshotContent.TextCanLookLikeTarget`);
  the first line “Text:” separates them (`SnapshotContent.TargetsReadBack`).
- Test-id keys of snapshot nodes are not encoded, so two nodes can share one: exactly when one
  frame id and a colon are a prefix of the other (`SnapshotNodes.FramesCollide`,
  `SnapshotNodes.TestKeysCanCollide`).
- The session cap can be exceeded, because starts that are still reading their profile do not
  count. A start keeps it safe exactly when it fits beside the most sessions that those starts
  can become; starts of one profile become one together (`SessionCap.CapIsExact`,
  `SessionCap.SafeWithoutLeaks`, `SessionCap.TwoStartsAtOnce`).
- A shutdown leaves the profile lock of a session that was started meanwhile
  (`SessionManager.ShutdownLeaks`); the retry of a failed expiry is dead code
  (`SessionManager.GoneStaysGone`).
- A step’s interrupts are judged by the last type only (`WorkflowExecutor.InterruptIsMissed`), and
  a tolerated dialog in its result hides a challenge in the status inside that result
  (`WorkflowExecutor.RawLetsRunGoOn`).
- A write that names only a page revision can pass on another tab of the same revision
  (`SessionTabs.SwitchPassesByRevision`); one that names the tab too cannot
  (`SessionTabs.GuardMeansUnchanged`).
- The map of pending CDP commands keeps the entry of a send that throws, so it is the set of
  unsettled commands exactly while there is no such entry (`RawCdpConnection.MapIsUnsettled`).
- A select step with values left goes on after the run has given it up at its deadline
  (`WorkflowExecutor.OnlySelectsGoOn`).
- The canonical request text prints an undefined field like a null one
  (`StableJson.UndefinedFieldPrintsNull`).

## Model

| member | source | states |
|---|---|---|
| Text.DecodeEncode | src/browser/semantic-snapshot.ts:197-204 | decoding UTF-8 undoes encoding, for every sequence of scalar values and whatever bytes follow |
| Text.UnitsOfScalars | src/browser/semantic-snapshot.ts:199-204 | a well-formed UTF-16 string is exactly recovered from its scalar values |
| Text.DecodeCut | src/browser/semantic-snapshot.ts:202-206 | cutting an encoding at any byte decodes to the whole characters that fit, plus at most one U+FFFD |
| Text.WholeCharsIsLargest | src/browser/semantic-snapshot.ts:202-207 | the number of whole characters kept is the largest whose encoding fits |
| Text.TruncateUtf8Correct | src/browser/semantic-snapshot.ts:197-208 | the result fits the bytes, states its own exact byte length, is a whole-character prefix, and is the longest such prefix up to dropped trailing U+FFFD; a string that fits is unchanged |
| Text.TruncateWellFormed | src/browser/semantic-snapshot.ts:197-208 | truncating a well-formed string gives a well-formed prefix of it |
| Text.ByteLengthConcat | src/browser/workflow.ts:1398-1400 | UTF-8 length is additive except across a split surrogate pair |
| Json.ParsePrint | src/browser/workflow.ts:1051-1053 | parsing inverts JSON printing, for every printable value and whatever text follows |
| Json.ParseStringify | src/browser/workflow.ts:1051-1053 | parse of stringify is the value without undefined members, with undefined and non-finite entries as null |
| StableJson.StableJsonPrintsCanon | src/browser/workflow.ts:1039-1045 | the key-sorting printer prints the canonical form: members sorted by UTF-16 order at every depth |
| StableJson.ParseStableJson | src/browser/workflow.ts:1039-1045 | a parser reads the canonical form back from the printed text, so the text determines it |
| StableJson.StableJsonIsCanonical | src/browser/workflow.ts:1039-1049 | two values print the same text exactly when they are equal up to key order (and up to undefined, NaN and infinities being null) |
| StableJson.SortedEqual | src/browser/workflow.ts:1044 | two member lists with the same members sort to the same list |
| StableJson.UndefinedFieldPrintsNull | src/browser/workflow.ts:1040-1044 | an undefined field and a null field give the same text, although an absent field does not |
| Decimal.DigitsRoundTrip | src/browser/workflow.ts:1490-1500 | decimal numerals determine their number |
| Decimal.MeasureSettles | src/browser/workflow.ts:1490-1500 | the self-measuring iteration reaches the fixed point of a text that contains its own length, well within eight attempts |
| Decimal.MeasureStays | src/browser/workflow.ts:1482-1486 | measuring again from the fixed point stays there |
| Decimal.WhenTwoMeasurementsAreEnough | src/browser/workflow.ts:1490-1500 | two measurements reach the fixed point exactly unless the digits of the first count carry the second over a power of ten, as they do for a rest of 98 or 997 bytes |
| WorkflowResult.SizeSplit | src/browser/workflow.ts:1398-1400 | the size of a result is a part that does not depend on its count plus the digits of the count |
| WorkflowResult.BaseIgnoresCount | src/browser/workflow.ts:1490-1500 | that part is the same whatever count the result carries |
| WorkflowResult.FallbackIsSmall | src/browser/workflow.ts:1472-1479 | the compact fallback takes at most 92 bytes besides the digits of its count |
| BoundResult.Result.ShortenContent | src/browser/workflow.ts:1402-1415 | cuts the first over-long content to a whole-character prefix of at most the target bytes, states the new byte count and the truncation, and changes nothing else |
| BoundResult.Result.RemoveOptionalFields | src/browser/workflow.ts:1417-1448 | deletes the first deletable field of the first step that has one, and nothing else |
| BoundResult.Result.MeasuredResultBytes | src/browser/workflow.ts:1490-1500 | leaves in the result a count that equals the length of the result’s own JSON |
| BoundResult.ShrinkOnce | src/browser/workflow.ts:1453-1467 | one pass over the result object is the specified one: the first over-long content is cut, or else one field deleted; it reports whether there was anything to do |
| BoundResult.ShortenedIsReduced | src/browser/workflow.ts:1406-1412 | a shortened step says nothing that it did not say before |
| BoundResult.StrippedIsReduced | src/browser/workflow.ts:1417-1448 | a stripped step says nothing new and has one removable field less |
| BoundResult.SameSuccesses | src/browser/workflow.ts:1460-1462 | shrinking steps does not change how many succeeded |
| BoundResult.Bound | src/browser/workflow.ts:1450-1488 | terminates; the result is the first of the successive reductions, with a content target of a quarter of the budget, that fits the budget, and every one before it did not fit; the fallback is returned exactly when none of them fits; its count is its own JSON length and within every budget of 94 bytes or more |
| BoundResult.StageIsSparing | src/browser/workflow.ts:1453-1467 | nothing is given up without need: a content that is still there is the original or exactly its longest whole-character prefix within the target with its own byte count; contents are cut only when over-long and in order; a field is deleted only when no content is over-long and no earlier step has one left, in the order content, snapshot id, or title, URL, then the error message; a step is dropped only when nothing is left to cut or delete |
| BoundResult.StageIsReduced | src/browser/workflow.ts:1450-1488 | every reduction keeps the outcome and the time, says nothing new, and counts the successes of its own steps |
| BoundResult.ReductionProgresses | src/browser/workflow.ts:1453-1467 | every reduction makes progress in the lexicographic measure of steps, removable fields and over-long contents, until nothing is left |
| ControlLease.StepKeepsLegal | src/browser/control-lease.ts:231-422 | every operation and timer firing keeps the (control, handoff, owner) triple in its five legal combinations |
| ControlLease.RunKeepsLegal | src/browser/control-lease.ts:231-588 | the same in every run, with early, late and stale timer firings |
| ControlLease.FailureOnlyExpires | src/browser/control-lease.ts:231-422 | an operation that fails changes nothing except that a lease that is due expires |
| ControlLease.StaleTimerIsHarmless | src/browser/control-lease.ts:571-577 | a timer of an earlier lease changes nothing |
| ControlLease.ExpiryIsExact | src/browser/control-lease.ts:484-491 | a pending or active lease expires from its deadline on and not before |
| ControlLease.ReleasedByUser | src/browser/control-lease.ts:342-371 | the released state is reached only by a confirmed release with the token in force or a confirmed recovery after expiry |
| ControlLease.TokenOrigin | src/browser/control-lease.ts:258-284 | the token in force is the one that the last successful handoff issued |
| ControlLease.NoReclaim | src/browser/control-lease.ts:227-422 | after a successful handoff, agent writes are allowed again only after a confirmed user release with the current token, or a confirmed recovery after expiry, and then an agent resume |
| ControlLease.HandoffIsAHardStop | src/browser/control-lease.ts:231-284 | a successful handoff ends agent writes at once, and while it is pending or in user hands no event allows them again |
| ControlLease.HandoffSucceeds | src/browser/control-lease.ts:231-284 | a handoff is granted exactly to the agent, with a reason, a duration within the bounds and a token, while none is open or the open one has expired; it is then pending under a new lease until its own deadline, with the timer armed |
| ControlLease.TakeoverSucceeds | src/browser/control-lease.ts:293-324 | a takeover succeeds exactly for a person who confirms it with the token of a handoff that is pending, or already active, before its deadline; the person is then in control and the deadline stays |
| ControlLease.ReleaseSucceeds | src/browser/control-lease.ts:344-371 | a release succeeds exactly for a person who confirms it with the token of an active handoff before its deadline, and leaves no lease, no timer and the time of the release |
| ControlLease.ResumeSucceeds | src/browser/control-lease.ts:373-397 | a resume succeeds exactly for the agent after a release, or when nothing is handed over, and agent writes are then allowed |
| ControlLease.RecoverySucceeds | src/browser/control-lease.ts:407-422 | a recovery succeeds exactly for a person who confirms it once the handoff has expired, and leaves it released |
| ControlLease.DeadlineEnds | src/browser/control-lease.ts:484-491 | a deadline that has come ends the handoff alike by a call and by its timer: no digest, no timer, and the time is kept |
| ControlLease.RefusalTells | src/browser/control-lease.ts:231-422 | which error a refused call of the right caller gives: a person’s control in force, an expired handoff, or a wrong token or duration |
| ControlLease.RoundTrip | src/browser/control-lease.ts:227-397 | a handoff, a takeover and a release with its token before the deadline and a later resume, with only clock readings and early timers in between, all succeed: the person is in control from the takeover to the release, and the agent may write again from the resume on, with nothing left but the used number |
| ControlLease.ControlLeaseManager.ExpireLease | src/browser/control-lease.ts:571-588 | the timer callback does exactly the timer step: fenced by generation, re-armed when early, otherwise expiring the lease |
| ControlLease.ControlLeaseManager.ExpireIfDue | src/browser/control-lease.ts:484-491 | does exactly the status step and tells whether the lease was due |
| ControlLease.ControlLeaseManager.RequestHandoff | src/browser/control-lease.ts:231-284 | new state and error are those of the handoff step |
| ControlLease.ControlLeaseManager.Takeover | src/browser/control-lease.ts:293-324 | new state and error are those of the takeover step |
| ControlLease.ControlLeaseManager.Release | src/browser/control-lease.ts:344-371 | new state and error are those of the release step |
| ControlLease.ControlLeaseManager.Resume | src/browser/control-lease.ts:373-397 | new state and error are those of the resume step |
| ControlLease.ControlLeaseManager.RecoverExpired | src/browser/control-lease.ts:407-422 | new state and error are those of the recovery step |
| ControlLease.ControlLeaseManager.AssertAgentControl | src/browser/control-lease.ts:429-439 | succeeds exactly when agent writes are allowed |
| ControlLease.ControlLeaseManager.AssertUserControl | src/browser/control-lease.ts:441-449 | succeeds exactly for the holder of the token of an active lease |
| ControlLease.ControlLeaseManager.Dispose | src/browser/control-lease.ts:493-501 | new state is that of the dispose step |
| SessionQueue.TasksAfter | src/browser/browser-session.ts:1964-2054 | an event appends one waiting task, or moves the one task that it concerns, or leaves the queue alone |
| SessionQueue.TaskAfter | src/browser/browser-session.ts:1982-2050 | a task keeps its kind and context and only moves along its life: gates, scan, body, failure, settling |
| SessionQueue.StepKeepsSerial | src/browser/browser-session.ts:2051-2053 | every event keeps the order: a task has started only if all earlier ones have settled |
| SessionQueue.StepKeepsCounted | src/browser/browser-session.ts:1976-1980 | every event keeps queueDepth equal to the number of admitted unfinished tasks and at most maxQueue |
| SessionQueue.BodiesAreSerial | src/browser/browser-session.ts:1964-2054 | when a body starts, all earlier tasks have settled and all later ones are waiting |
| SessionQueue.PersonTakesOver | src/browser/browser-session.ts:926-952 | only the body of a hand-over or of a headed reopening gives the session to a person |
| SessionQueue.ReadyBodyStarts | src/browser/browser-session.ts:1999-2017 | no ready-requiring body starts while the session is USER_CONTROLLED, HUMAN_TAKEOVER or PAUSED_CHALLENGE |
| SessionQueue.RunKeepsInvariant | src/browser/browser-session.ts:1964-2054 | in every interleaving of submissions, scans, crashes, stops, starts, workflows and hand-overs: serial, exactly counted, and no ready-requiring task disturbed by a person |
| SessionQueue.ForeignIsNotAdmitted | src/browser/browser-session.ts:1969-1995 | while a workflow holds the session, a foreign task is neither queued nor admitted |
| SessionQueue.ForeignBodyStart | src/browser/browser-session.ts:1993-2022 | a body that starts is foreign to the workflow holding the session exactly when that workflow took the session between the task’s admission and its body and has not ended since |
| SessionQueue.ForeignBodyCanStart | src/browser/browser-session.ts:1332-1338 | such a run: a workflow takes the session during a foreign task’s scan and the body still starts |
| SessionQueue.StepKeepsCovered | src/browser/browser-session.ts:611-661 | an event that meets its condition keeps a lease that is not the agent’s visible in the state |
| SessionQueue.StateAndLeaseAgree | src/browser/browser-session.ts:926-975 | in every run whose events meet their conditions, READY or BUSY implies that the lease allows agent writes |
| SessionAgreement.BenignIsExact | src/browser/browser-session.ts:611-661 | the conditions are exact: at every point of such a run, an event meets its condition if and only if no continuation in which all events meet theirs ever shows READY or BUSY under a lease that is not the agent’s |
| SessionAgreement.CoveredIsSecure | src/browser/browser-session.ts:926-975 | a state is covered exactly when every such continuation agrees |
| SessionAgreement.Reclaimed | src/browser/browser-session.ts:843-857 | from a pause or takeover under a lease that is not the agent’s, the queue can be drained and a resume shows READY |
| SessionAgreement.Needy | src/browser/browser-session.ts:824-857 | so it can from a resume or headed reopening that is under way when the lease is lost |
| SessionQueue.CrashedSessionCanBeResumed | src/browser/browser-session.ts:1787 | without them: a scan that reports after a crash lets a resume show READY under a person’s lease |
| SessionQueue.StoppedSessionCanBeReady | src/browser/browser-session.ts:799-813 | without them: a stop that gives up waiting disposes the lease under a resume |
| SessionQueue.LateTakeoverLeavesReady | src/browser/browser-session.ts:940-947 | without them: a deadline that passes between the two lease calls of a hand-over leaves READY |
| SessionQueue.StartingSessionCanBeHandedOver | src/browser/browser-session.ts:631-634 | without them: a challenge found while starting lets a hand-over run before READY is set |
| SessionProgress.BusyMeansActing | src/browser/browser-session.ts:2014-2049 | in every run BUSY means that some ready-requiring task has begun and not settled, so a session with nothing queued is never BUSY |
| SessionProgress.FinishGivesBack | src/browser/browser-session.ts:2043-2049 | the end of a task turns BUSY into READY, leaves every other state as it is, and frees the task’s place |
| SessionProgress.ActionGivesBack | src/browser/browser-session.ts:1964-2054 | an ordinary action that is queued in READY and left alone takes its turn at once and, whether it is aborted, fails or succeeds, leaves READY and the queue depth as they were and the session idle for the next one |
| SessionProgress.ActionsGiveBack | src/browser/browser-session.ts:1964-2054 | so any number of undisturbed actions run one after the other, whatever became of the earlier ones |
| SessionProgress.Drains | src/browser/browser-session.ts:2051-2053 | from every reachable state the queue can be emptied by its own tasks’ events alone, and a session that was READY or BUSY is then READY |
| SessionOutcome.ActionOutcome | src/browser/browser-session.ts:1964-2054 | the six events of an undisturbed action of any kind, in any state, come to one move of a simple machine: its body runs exactly when the state lets the action through and the scan does not stop it, and state, lease and queue are then those of the outcome |
| SessionOutcome.HandedOverAndBack | src/browser/browser-session.ts:926-975 | from READY with the agent’s lease, a hand-over and its return in time give the session to the person and back: ordinary actions are refused in between, and afterwards it is READY with the agent’s lease and an empty queue |
| SessionOutcome.DeadlineWithdraws | src/browser/browser-session.ts:960-974 | a deadline that passes under a person ends the lease and leaves the state, and taking the session back then fails |
| SessionOutcome.ChallengePauses | src/browser/browser-session.ts:1787-1790 | a challenge found at any moment pauses the session unless a person holds it or it is going down |
| SessionOutcome.StopTakesDown | src/browser/browser-session.ts:788-818 | a stop lets no action through, ends in STOPPED with the lease nobody’s, and is not repeated before the next start |
| SessionOutcome.StartBringsUp | src/browser/browser-session.ts:611-661 | a start of a stopped, failed or held session ends in READY, or in ERROR if the launch failed, with the agent’s old lease or a new one |
| BrowserSession.BrowserSession.Enqueue | src/browser/browser-session.ts:1964-1980 | the public check and the admission to the queue are the submit step |
| BrowserSession.BrowserSession.BeginTask | src/browser/browser-session.ts:1982-2014 | the gates of a task whose turn has come are the begin step |
| BrowserSession.BrowserSession.ScanTask | src/browser/browser-session.ts:1781-1802 | the report of its scan is the scan step, pausing unless a pause is to be preserved |
| BrowserSession.BrowserSession.StartBody | src/browser/browser-session.ts:2015-2022 | the gate after the scan is the body step |
| BrowserSession.BrowserSession.HandOffBody | src/browser/browser-session.ts:933-951 | the hand-over body, with the lease object, is the hand-over step |
| BrowserSession.BrowserSession.TakeoverBody | src/browser/browser-session.ts:960-974 | the take-back body, with the lease object, is the take-back step |
| BrowserSession.BrowserSession.ResumeBody | src/browser/browser-session.ts:846-857 | the resume body is the resume step |
| BrowserSession.BrowserSession.FinishTask | src/browser/browser-session.ts:2043-2049 | the clean-up of a task is the finish step, which gives the session back |
| BrowserSession.BrowserSession.EndStop | src/browser/browser-session.ts:794-816 | the end of a stop disposes the lease and is the stop step |
| BrowserSession.BrowserSession.BeginStart | src/browser/browser-session.ts:611-627 | the beginning of a start replaces a lease that is not the agent’s and is the start step |
| SessionTabs.StepKeepsValid | src/browser/browser-session.ts:1642-1685 | every event keeps the session’s page revision that of the active open tab, every registry at its tab’s revision, tab numbers and open pages distinct |
| SessionTabs.RunGrows | src/browser/browser-session.ts:1769-1779 | in every run a tab’s revision counts exactly the noted changes of its page, its number stays its own, and a closed tab is never opened again |
| SessionTabs.TabIdsDiffer | src/browser/browser-session.ts:1669-1672 | different tabs have different ids |
| SessionTabs.GuardMeansUnchanged | src/browser/browser-session.ts:1848-1881 | a write that names the observed tab and revision passes only when that tab is active and its page has not changed since, whatever happened in between, and always passes then unless the tab was closed |
| SessionTabs.RevisionAloneCountsChanges | src/browser/browser-session.ts:1848-1881 | a write that names only the revision passes exactly when the tab active then has changed as often as the observed one had |
| SessionTabs.SwitchPassesByRevision | src/browser/browser-session.ts:1681-1685 | after switching to another tab of the same revision a write passes by revision alone, and is refused when it names the tab |
| SessionTabs.TwoTabsOfOneRevision | src/browser/browser-session.ts:1481-1513 | there are such tabs right after a launch and a popup |
| SessionTabs.ReopenKeepsTabs | src/browser/browser-session.ts:1515-1567 | reopening in a window keeps the open tabs and the active one: what is captured afterwards is what was captured before, main tab in front, given that every page is at the address it was sent to |
| SessionTabs.MainGoesFirst | src/browser/browser-session.ts:1536-1540 | the main tab is restored first and the others in their order |
| SessionTabs.CloseActivatesOldest | src/browser/browser-session.ts:771-781 | closing the active tab activates the one that has been open longest and makes it the main one if either was; closing another leaves the active one alone |
| SessionTabs.LaunchActivatesFirst | src/browser/browser-session.ts:1505-1511 | a launch makes the tab of the first page the active and main one, and registering that page again changes nothing |
| SessionTabs.BrowserTabs.RestoreTabStates | src/browser/browser-session.ts:1536-1567 | the loop restores the ordered tabs, each on its page with its revision moved at least once unless blank, and activates the one that was active, or the main one |
| SessionTabs.BrowserTabs.RegisterTab | src/browser/browser-session.ts:1642-1668 | registering is its step: a page that has a tab keeps it |
| SessionTabs.BrowserTabs.FinishCloseTab | src/browser/browser-session.ts:771-781 | the end of closing a tab is its step |
| SessionTabs.BrowserTabs.LaunchContext | src/browser/browser-session.ts:1505-1511 | registering the pages of a new context is its step |
| SessionTabs.BrowserTabs.NotePageGeneration | src/browser/browser-session.ts:1769-1779 | noting a page change is its step |
| SessionTabs.BrowserTabs.AssertExpectedPageRevision | src/browser/browser-session.ts:1848-1881 | the checks are the guard |
| SnapshotContent.ContentIsLines | src/browser/semantic-snapshot.ts:122-155 | the content fits the limit and states its own size; its lines are the header, one line for each target and the text; when it is cut, only the last line is incomplete |
| SnapshotContent.TargetsReadBack | src/browser/semantic-snapshot.ts:128-141 | content that is not cut gives the targets back, whatever the page says, as long as refs have no space or colon: their lines are those before the first “Text:” that are not blank and no header, in order, and each starts with its ref |
| SnapshotContent.AcceptedRefIsPlain | src/browser/target-registry.ts:127-131 | every ref of the shape that the workflow language accepts is such a ref |
| SnapshotContent.TextCanLookLikeTarget | src/browser/semantic-snapshot.ts:133-137 | a line of the page’s text can look like the line of a target, so only its place tells |
| SnapshotContent.TargetLine | src/browser/semantic-snapshot.ts:128-137 | where each target’s line is |
| SnapshotContent.TargetIsOneLine | src/browser/semantic-snapshot.ts:167-179 | a formatted target is one line, whatever its role, name and type contain |
| SnapshotContent.RefLeadsLine | src/browser/semantic-snapshot.ts:167-179 | a target’s line starts with its ref and the first space, so different refs have different lines |
| WorkflowExecutor.FirstWrite | src/browser/workflow.ts:1151 | the index of the first write step: it is one and none before it is |
| WorkflowExecutor.OnlyFirstWriteIsGuarded | src/browser/workflow.ts:1203-1209 | the preconditions reach the adapter only with the first call of the first write step |
| WorkflowExecutor.PreferenceDoesNotMatter | src/browser/workflow.ts:1296-1345 | for a normalised step it does not matter which of clear and clearFirst, or compact and format, is preferred |
| WorkflowExecutor.Invoke | src/browser/workflow.ts:1276-1347 | makes the step’s calls in order and up to the first that fails or is given up at the deadline; what they ask for is stated by WorkflowLog |
| WorkflowExecutor.OnlySelectsGoOn | src/browser/workflow.ts:1303-1316 | a failed step makes calls after the run’s return exactly when it was given up at the deadline during a call that succeeds after all and it is a select with values left; never after a failure of the adapter; the calls carry no precondition and select the values left, in order |
| WorkflowExecutor.PerformStep | src/browser/workflow.ts:1349-1369 | a step makes no call exactly when the deadline has come or the caller has aborted, and then answers with a timeout |
| WorkflowExecutor.ExecuteStep | src/browser/workflow.ts:1200-1246 | the step’s report and the stop that it causes are those of what was observed |
| WorkflowExecutor.RunSteps | src/browser/workflow.ts:1192-1247 | against every adapter and clock: the exchanges are exactly those of the reported steps; no step is begun from the deadline on; and the stop reason is the first stop condition that fired, or a timeout when the deadline came before a step |
| WorkflowExecutor.ReportsTellTheRun | src/browser/workflow.ts:1213-1246 | reports carry indices 0, 1, … in order; all but possibly the last succeed; a success made all its calls |
| WorkflowExecutor.OkMeansDone | src/browser/workflow.ts:1249-1258 | ok holds exactly when every step succeeded and no stop condition fired, not even after the last step |
| WorkflowExecutor.RunUncached | src/browser/workflow.ts:1147-1261 | the whole run: the initial checks stop before any step; the bounded result has a prefix of the reports, counts its successes and fits the budget |
| WorkflowExecutor.StatusLetsRunGoOn | src/browser/workflow.ts:971-997 | the status after a step lets the run go on exactly when there is no new challenge, no takeover or error, and no new interrupt but a tolerated one |
| WorkflowExecutor.InterruptIsMissed | src/browser/workflow.ts:986-994 | an interrupt is let through exactly when the last interrupt type of the step is a dialog or download that the caller tolerates |
| WorkflowExecutor.PopupBehindDialogIsMissed | src/browser/workflow.ts:986-994 | for instance a blocked popup followed by a tolerated dialog in the same step |
| WorkflowExecutor.StartsWhen | src/browser/workflow.ts:1149-1188 | a run makes its first step exactly when the status before it shows the expected tab and revision, as far as both are known, and no challenge |
| WorkflowExecutor.StopTells | src/browser/workflow.ts:1222-1233 | an answered step stops the run exactly when its status or its own result does or, if asked for, when the page revision is known before and after and differs |
| WorkflowExecutor.RawLetsRunGoOn | src/browser/workflow.ts:999-1031 | exactly when a step’s own result lets the run go on, and whether it stops it for a challenge or an interrupt |
| WorkflowExecutor.FailureTells | src/browser/workflow.ts:926-946 | which failures are timeouts, mismatches, challenges and interrupts, and which are retryable |
| WorkflowExecutor.ReportTells | src/browser/workflow.ts:1205-1246 | a success reports the revision read afterwards, or else the one in the answer, and the answer’s summary; a failure its own code and never a summary |
| WorkflowLog.StepsAreAskedFor | src/browser/workflow.ts:1276-1347 | in a run of normalised steps every call asks for what its step says, in the step’s order: URL, target, text, choice or the i-th value, direction, amount, condition, sizes and times; a reported success has asked for all of it |
| WorkflowLog.RequestsTellStep | src/browser/workflow.ts:1276-1347 | two normalised steps ask the adapter for the same exactly when they are equal up to the spellings of a ref, clear, format and a single value |
| WorkflowLog.LogTellsSteps | src/browser/workflow.ts:1192-1347 | two runs with the same log of calls, answers and status readings have succeeded in the same number of steps, and those are equal up to spelling |
| WorkflowSteps.LimitsAreWithin | src/browser/workflow.ts:390-404 | the resolved limits are inside the hard ones, and each requested limit inside them is kept |
| WorkflowNormalize.TargetIsValid | src/browser/workflow.ts:634-670 | an accepted target uses one strategy with bounded texts |
| WorkflowNormalize.SelectFormsAreValid | src/browser/workflow.ts:540-567 | an accepted select step has exactly one of a bounded choice and 1 to 32 bounded values |
| WorkflowNormalize.StepIsValid | src/browser/workflow.ts:490-632 | every accepted step of all seven kinds has its durations, sizes and texts inside the limits |
| WorkflowNormalize.StopOnIsDistinct | src/browser/workflow.ts:467-476 | the accepted triggers are a set |
| WorkflowNormalize.WorkflowIsValid | src/browser/workflow.ts:439-488 | every count, duration and size of an accepted workflow is inside the resolved limits |
| WorkflowNormalize.StepIsRead | src/browser/workflow.ts:490-632 | a step inside the limits is accepted unchanged |
| WorkflowNormalize.WorkflowIsRead | src/browser/workflow.ts:423-488 | a workflow inside the limits is accepted unchanged, whatever the options say |
| WorkflowNormalize.NormalizeIsIdempotent | src/browser/workflow.ts:423-488 | what an accepted workflow normalises to is accepted again unchanged |
| WorkflowNormalize.NormalFormsAreValid | src/browser/workflow.ts:423-488 | the fixed points of normalisation are exactly the workflows inside the limits |
| WorkflowNormalize.MillisecondsIsDuration | src/browser/workflow.ts:590-608 | milliseconds and durationMs mean the same in any wait step |
| WorkflowNormalize.ValueIsChoice | src/browser/workflow.ts:561-567 | a value or label given directly is the choice of that value or label in any select step |
| WorkflowNormalize.ScrollsByOne | src/browser/workflow.ts:577-588 | any scroll step without an amount is that with the amount one |
| WorkflowNormalize.UnknownFieldIsRefused | src/browser/workflow.ts:762-767 | a field that the operation does not know refuses the step |
| ActionCache.FingerprintIsCanonical | src/browser/workflow.ts:1039-1049 | requests share a fingerprint exactly when they are equal up to key order; in the session’s variant, up to undefined fields as well |
| ActionCache.Cache.Run | src/browser/browser-session.ts:1882-1925 | a call under user control or with a malformed id runs nothing; otherwise the cache is the longest unexpired suffix of at most 256 insertions, and the reply is that of the specification |
| ActionCache.Cache.Prune | src/browser/browser-session.ts:1939-1943 | drops the expired entries; what is left is the longest unexpired suffix of the insertions |
| ActionCache.Cache.Insert | src/browser/workflow.ts:1122-1127 | inserts and evicts by count; the cache is again the longest suffix |
| ActionCache.RetainedIff | src/browser/browser-session.ts:1914-1923 | an insertion is retained exactly while it is under ten minutes old and fewer than 256 are newer |
| ActionCache.RunIsSpaced | src/browser/browser-session.ts:1894-1918 | in every run an id is inserted again only after its last entry has expired or been pushed out |
| ActionCache.AtMostOnce | src/browser/browser-session.ts:1882-1925 | in every run, while an id is retained, every call with the same fingerprint gets the first run and every other is rejected; neither runs the operation |
| ActionCache.RunsExactly | src/browser/browser-session.ts:1882-1925 | and a call with an id runs the operation exactly when that id is not retained, each time as a new run |
| Retention.RetainedIsLongest | src/browser/snapshot-history.ts:264-355 | the specification: the result is a suffix, unexpired and fitting, and no longer suffix is |
| Retention.EndOfLogIsRetained | src/browser/snapshot-history.ts:264-289 | a cache that ends the log, and could not keep one more, is the longest suffix once its expired entries are gone |
| Retention.InsertedIsRetained | src/browser/snapshot-history.ts:346-353 | evicting while there is no room and then inserting gives the longest suffix of the longer log |
| Retention.SurvivesInsertion | src/browser/snapshot-history.ts:346-350 | an entry survives an insertion exactly when it fits with everything newer and the new entry |
| Retention.SurvivesUntil | src/browser/snapshot-history.ts:434-463 | an entry retained earlier is retained after an insertion and a later pruning exactly when it has not expired and so fits |
| SnapshotHistory.History.Prune | src/browser/snapshot-history.ts:264-289 | afterwards the entries are exactly the longest suffix of the insertion log that is unexpired and fits count and bytes; the removed ones are buried within the tombstone bound |
| SnapshotHistory.History.DropExpiredEntries | src/browser/snapshot-history.ts:264-273 | drops exactly the expired entries, accounts their bytes and buries their ids |
| SnapshotHistory.History.DropTombstones | src/browser/snapshot-history.ts:274-284 | drops the stale tombstones and then the oldest beyond the bound |
| SnapshotHistory.History.MakeRoom | src/browser/snapshot-history.ts:346-350 | evicts the oldest while count or bytes leave no room, with exact byte accounting |
| SnapshotHistory.History.RetainPrepared | src/browser/snapshot-history.ts:299-355 | a retained id is repeated or in conflict without change; an oversized entry is refused; otherwise the entry is inserted and the entries are again the longest suffix; totalBytes stays the sum |
| SnapshotHistory.History.RequireEntry | src/browser/snapshot-history.ts:471-485 | finds exactly the retained ids; reports expiry only of an id that was inserted and has expired since |
| SnapshotHistory.History.DiffAgainst | src/browser/snapshot-history.ts:396-419 | the checks in order and then the diff against the retained base |
| SnapshotHistory.History.RecordWithDiff | src/browser/snapshot-history.ts:434-466 | an unknown base inserts nothing; after an insertion the call fails for a missing base exactly when the base has expired or does not fit with everything newer and the new entry |
| SnapshotHistory.BaseSurvives | src/browser/snapshot-history.ts:434-466 | exactly when a base survives the insertion of the snapshot that is compared with it |
| SnapshotHistory.CapacityOneLosesBase | src/browser/snapshot-history.ts:346-353 | a history of capacity one loses every base to the next snapshot |
| SnapshotHistory.PreparedTwice | src/browser/snapshot-history.ts:487-530 | a recorded snapshot can be prepared again exactly when no ref that it kept was blank |
| SnapshotHistory.PreparesExactly | src/browser/snapshot-history.ts:487-530 | a snapshot is accepted exactly when its numbers are safe, its revision is the expected one, its ids are bounded and its first nodes acceptable; exactly those nodes are given back normalised and stored without their texts |
| SnapshotHistory.RepeatMeans | src/browser/snapshot-history.ts:305-318 | a repeated id is taken for the same observation exactly when tab, revision and, node by node, ref, generation and every compared field agree |
| SnapshotHistory.KeptForItsTime | src/browser/snapshot-history.ts:320-329 | a snapshot that nothing follows is retained for exactly the retention time |
| SnapshotText.LineIsClean | src/browser/snapshot-history.ts:829-838 | before its last cut the text has no control character, single spaces only, and none at its ends |
| SnapshotText.SettledIsFixed | src/browser/snapshot-history.ts:829-838 | the strings that bounding leaves alone are exactly the clean ones within the limit |
| SnapshotText.BoundedTextTwice | src/browser/snapshot-history.ts:829-838 | bounding is idempotent exactly unless the last cut falls just behind a space; then the second time drops that space and the third nothing more |
| SnapshotText.BoundedTextWellFormed | src/browser/snapshot-history.ts:829-838 | bounding a well-formed text gives a well-formed one exactly unless one of its two cuts splits a surrogate pair |
| SnapshotText.ShortIsNotCut | src/browser/snapshot-history.ts:829-838 | no string within the limit is cut |
| SnapshotText.CutCanFallAfterSpace | src/browser/snapshot-history.ts:829-838 | a string for which bounding is not idempotent |
| UriComponent.EncodeComponentIsInjective | src/browser/snapshot-history.ts:794-804 | encoded fields determine the fields |
| UriComponent.JoinIsInjective | src/browser/snapshot-history.ts:797-804 | joining encoded fields with colons loses nothing |
| SnapshotNodes.KeyIsIdentity | src/browser/snapshot-history.ts:794-804 | nodes without a test id share a key exactly when frame, role, tag, name and type agree |
| SnapshotNodes.TestKeysAreApart | src/browser/snapshot-history.ts:794-804 | a key with a test id is never a key without one |
| SnapshotNodes.TestKeyIsIdentity | src/browser/snapshot-history.ts:796 | nodes with a test id share a key exactly when frame and test id agree, unless one frame id is the other followed by a colon and more |
| SnapshotNodes.FramesCollide | src/browser/snapshot-history.ts:796 | two different frames have test ids that share a key exactly when one frame id and a colon are a prefix of the other |
| SnapshotNodes.TestKeysCanCollide | src/browser/snapshot-history.ts:796 | with a colon in a frame id two different nodes can share a test key |
| SnapshotNodes.UnchangedMeansEqual | src/browser/snapshot-history.ts:807-817 | no field is listed as changed exactly when all compared fields agree |
| SnapshotNodes.NormalizeAll | src/browser/snapshot-history.ts:668-703 | succeeds exactly when every node has a bounded ref and a valid generation, and then normalises each |
| SnapshotDiff.PickIsChosen | src/browser/snapshot-history.ts:751-755 | the match found is an unused node, the lowest with the same ref, else the lowest with the same key |
| SnapshotDiff.MatchingIsGreedy | src/browser/snapshot-history.ts:747-770 | the matching is injective, and every match follows the two-key rule given those before it |
| SnapshotDiff.GreedyIsUnique | src/browser/snapshot-history.ts:747-770 | the rule leaves no choice: the matching is the only one that follows it |
| SnapshotDiff.DiffIsEditScript | src/browser/snapshot-history.ts:747-785 | old nodes minus removed minus before-images plus after-images plus added are the current nodes, as multisets over the compared fields, and the diff lists exactly those nodes under those names |
| SnapshotDiff.UpdatesAreChanges | src/browser/snapshot-history.ts:761-769 | an update is reported exactly for the pairs that differ, with exactly the fields that differ |
| SnapshotDiff.Compare | src/browser/snapshot-history.ts:739-786 | the loops over maps, a used set and result lists compute that diff |
| SnapshotDiff.CompareNodes | src/browser/snapshot-history.ts:739-786 | the whole comparison, with its errors |
| SnapshotDiff.DiffInPlace | src/browser/snapshot-history.ts:747-785 | nodes whose refs stand in the same places are matched place by place; nothing is added or removed, and the diff is empty exactly when all compared fields agree |
| SnapshotDiff.StableFields | src/browser/snapshot-history.ts:668-703 | a node’s stored form and the normal form of its public form agree exactly when the node is stable |
| SnapshotDiff.KeyExists | src/browser/snapshot-history.ts:794-804 | a key raises exactly for a node without a test id whose frame, role, tag, name or type has half a surrogate pair |
| SnapshotDiff.OwnRecordIsUnchanged | src/browser/snapshot-history.ts:739-786 | diffing an observation with its own record is refused exactly when a ref is blank, raises a URIError exactly when none is and the key of a recorded node raises, and is otherwise empty exactly when every node is stable |
| SnapshotDiff.RaisingBaseRefusesAll | src/browser/snapshot-history.ts:739-747 | a base with such a node refuses every later diff |
| SnapshotDiff.CutNameRefusesDiff | src/browser/snapshot-history.ts:739-804 | a well-formed name that is cut inside a character makes such a node |
| EditDistance.DistanceIsLeast | src/browser/adaptive-locator.ts:46-58 | no insert, delete and substitute script costs less than the recurrence’s value |
| EditDistance.DistanceIsAttained | src/browser/adaptive-locator.ts:46-58 | some script costs exactly that |
| EditDistance.DistanceIsSymmetric | src/browser/adaptive-locator.ts:33-61 | the distance is symmetric |
| EditDistance.DistanceIsZero | src/browser/adaptive-locator.ts:33-61 | it is zero exactly for equal texts |
| EditDistance.TriangleInequality | src/browser/adaptive-locator.ts:33-61 | it obeys the triangle inequality, by composing scripts |
| EditDistance.DistanceIsBounded | src/browser/adaptive-locator.ts:33-61 | it is at most the longer length and at least the difference of the lengths |
| AdaptiveLocator.TableDistance | src/browser/adaptive-locator.ts:33-61 | the table’s loops compute the distance |
| AdaptiveLocator.CalculateTextSimilarity | src/browser/adaptive-locator.ts:19-63 | computes the specified similarity |
| AdaptiveLocator.TextSimilarityIsNormal | src/browser/adaptive-locator.ts:19-63 | similarity is symmetric, lies in [0, 1], and is 1 exactly when the trimmed lower-case texts are equal |
| AdaptiveLocator.ContainedDistance | src/browser/adaptive-locator.ts:29-31 | a text is as far from a text that it contains as the lengths differ |
| AdaptiveLocator.NeverBelowDistance | src/browser/adaptive-locator.ts:28-31 | containment only raises the similarity above what the edit distance gives |
| AdaptiveLocator.ContainedCountsAFifth | src/browser/adaptive-locator.ts:28-31 | when one text contains the other, what the edit distance finds missing counts a fifth |
| AdaptiveLocator.ScoreCandidate | src/browser/adaptive-locator.ts:68-118 | accumulates the specified score |
| AdaptiveLocator.ScoreMeaning | src/browser/adaptive-locator.ts:68-118 | a score lies in [0, 1] and reaches the default threshold only when role or tag match and the names are at least half alike |
| AdaptiveLocator.ReachesThreshold | src/browser/adaptive-locator.ts:68-118 | the exact condition for the default threshold: the role and a name at least half alike, or the role by its tag and a name the more alike the less the test id tells |
| AdaptiveLocator.PerfectMatch | src/browser/adaptive-locator.ts:78-117 | role, exact name and test id together score one; a near name loses half of what it lacks in similarity |
| AdaptiveLocator.FirstWins | src/browser/adaptive-locator.ts:145-160 | the first of the sorted matches stands out exactly when the second is the margin behind, and no other node does |
| AdaptiveLocator.FindAdaptiveTarget | src/browser/adaptive-locator.ts:123-161 | returns a node exactly when it reaches the threshold and is the margin ahead of every other node that does; the earlier of equals is ahead |
| AdaptiveLocator.OrderDoesNotMatter | src/browser/adaptive-locator.ts:147-160 | with a positive margin the order of the nodes does not matter: when they are reordered the same node wins, at its new place |
| AdaptiveLocator.TiesGoToTheEarlier | src/browser/adaptive-locator.ts:147-160 | without one it does: of two equal nodes the earlier wins |
| SessionManager.StepKeepsOwned | src/browser/session-manager.ts:337-425 | every event keeps live sessions the owners of their profiles |
| SessionManager.NoSharedProfile | src/browser/session-manager.ts:332-425 | in every interleaving of starts, failed starts, stops, expiries and shutdowns no two live sessions have the same persistent profile |
| SessionManager.StartSetsDeadline | src/browser/session-manager.ts:804-824 | a successful start sets the deadline at its time plus the retention time, once |
| SessionManager.TimerFollowsDeadline | src/browser/session-manager.ts:812-820 | an early timer is armed again for the same deadline, one that is due begins to stop the session, a superseded one does nothing |
| SessionManager.DeadlineNeverMoves | src/browser/session-manager.ts:804-824 | in every run a session’s deadline never moves once set |
| SessionManager.RunKeepsInvariant | src/browser/session-manager.ts:254-445 | in every run every live session is starting, has a timer for its deadline, or is being stopped, and the expired ids stay bounded |
| SessionManager.GetFailsFromDeadline | src/browser/session-manager.ts:431-445 | from its deadline on a session is not handed out, even if its timer has not fired, unless it is being stopped already |
| SessionManager.GetSucceedsBeforeDeadline | src/browser/session-manager.ts:431-445 | before its deadline a live session that is not marked expired is handed out |
| SessionManager.GetStopsExpired | src/browser/session-manager.ts:433-439 | looking up an expired session begins to stop it |
| SessionManager.GoneStaysGone | src/browser/session-manager.ts:837-853 | the end of a stop removes the session whether it failed or not, and it never comes back, so the retry of a failed expiry never happens |
| SessionManager.StepKeepsNoLeak | src/browser/session-manager.ts:394-425 | every event but the end of a shutdown keeps every profile lock with a live session |
| SessionManager.ShutdownLeaks | src/browser/session-manager.ts:780-790 | the end of a shutdown leaves a lock behind exactly when a session with a persistent profile was started after the shutdown had begun |
| SessionManager.OrphanStays | src/browser/session-manager.ts:1006-1010 | nothing releases such a lock any more and no start gets the profile |
| SessionManager.StartIsGranted | src/browser/session-manager.ts:332-396 | a start gets a new live session exactly when there is room, or its own check has passed before, and no live session has its profile; a refusal adds nothing |
| SessionManager.EndFreesProfile | src/browser/session-manager.ts:418-425 | a failed start and the end of a stop take the session away and free its profile for the next start |
| SessionManager.ShutdownEndsAll | src/browser/session-manager.ts:778-790 | a shutdown clears every timer and finds every live session, and when it ends none is live and no lock of those it found is left |
| SessionManager.GetTells | src/browser/session-manager.ts:431-445 | a lookup answers expired from the deadline on and while the id is remembered, the session while it is live otherwise, and unknown else |
| SessionCap.CheckAdds | src/browser/session-manager.ts:255-396 | a start that passes the check adds exactly one to the sessions that the starts under way can become, or none when one of its profile is counted already |
| SessionCap.OthersDemandNothing | src/browser/session-manager.ts:255-445 | no other event adds to them, beyond what they can become after a shutdown |
| SessionCap.DemandIsMet | src/browser/session-manager.ts:275-396 | and all of them can come about: there is a run of the starts under way that ends with that many sessions |
| SessionCap.ClaimsAreMet | src/browser/session-manager.ts:780-790 | so can those after a shutdown, with the locks that it releases |
| SessionCap.CapIsSafeWithin | src/browser/session-manager.ts:255-396 | no continuation in which every further start has room exceeds the cap exactly when both counts are within it |
| SessionCap.CapIsExact | src/browser/session-manager.ts:255-396 | at every point of a run in which every start had room the cap is kept, and the next event has room if and only if no such continuation after it exceeds the cap |
| SessionCap.SafeWithoutLeaks | src/browser/session-manager.ts:255-396 | while every profile lock belongs to a live session, the cap is safe exactly when it has room for the live sessions, the reading starts without a key, and the profiles wanted by reading starts and owned by nobody, each once |
| SessionCap.TwoStartsAtOnce | src/browser/session-manager.ts:255-338 | two starts can pass the check on a manager with one slot, and then the cap is safe exactly when they are of one profile |
| SessionCap.CapCanBeExceeded | src/browser/session-manager.ts:255-396 | two starts of different profiles end with two sessions on a manager with one slot |
| SessionManager.Manager.StartReserve | src/browser/session-manager.ts:332-396 | the segment from the owner check to the insertion is the reserve step |
| SessionManager.Manager.StartSucceed | src/browser/session-manager.ts:398-399 | the successful end of a start is its step |
| SessionManager.Manager.StartFail | src/browser/session-manager.ts:418-425 | the failed end of a start is its step |
| SessionManager.Manager.StopBegin | src/browser/session-manager.ts:589-602 | the beginning of a stop is its step |
| SessionManager.Manager.StopEnd | src/browser/session-manager.ts:602-618 | the end of a stop is its step |
| SessionManager.Manager.FireTimer | src/browser/session-manager.ts:812-821 | the timer callback is the timer step |
| SessionManager.Manager.Get | src/browser/session-manager.ts:431-445 | state and answer are those of the lookup step |
| SessionManager.Manager.RememberExpired | src/browser/session-manager.ts:869-877 | the id becomes the newest of the bounded expired ids |
| SessionManager.Manager.ReleasePersistentProfile | src/browser/session-manager.ts:1006-1010 | exactly the locks of the session go |
| SessionManager.Manager.ShutdownEnd | src/browser/session-manager.ts:780-790 | the end of a shutdown is its step |
| Correlation.SettleKeepsBalanced | src/control-plane/browser-pool.ts:455-462 | settling keeps: nothing issued or settled twice, pending exactly the unsettled |
| BridgePool.RunKeepsInvariant | src/control-plane/browser-pool.ts:303-462 | in every run every command is settled exactly once across answers, timeouts, failed sends, disconnections and stops; the pending map is exactly the unsettled commands, each with its timeout armed |
| BridgePool.OutcomeIsFinal | src/control-plane/browser-pool.ts:383-453 | the first outcome of a command stays its outcome |
| BridgePool.EventGives | src/control-plane/browser-pool.ts:303-462 | an event gives a command an outcome exactly when it is its cause: an answer with its own flag to the command that it names, a timeout to its command, a failed send to the command being sent, an oversize answer, the close of the current socket and a stop to every waiting command of their browser |
| BridgePool.OutcomeHasCause | src/control-plane/browser-pool.ts:303-462 | in every run a command has an outcome exactly when an earlier event was its cause |
| BridgePool.CallIssuesOne | src/control-plane/browser-pool.ts:380-395 | a call over an open socket is pending with its timeout when the send succeeds and settled at once as a failed send when it does not |
| BridgePool.AnswerSettlesOne | src/control-plane/browser-pool.ts:445-452 | an answer settles at most the command that it names, only for its own browser, and with its own flag |
| BridgePool.TimeoutSettlesOne | src/control-plane/browser-pool.ts:384-387 | a timeout settles its own command and no other |
| BridgePool.SupersededCloseSettlesNothing | src/control-plane/browser-pool.ts:303-304 | the close of a superseded socket settles nothing |
| BridgePool.CurrentCloseSettlesAll | src/control-plane/browser-pool.ts:303-318 | the close of the current socket leaves none of that browser’s commands pending and no other browser’s settled |
| BridgePool.StopSettlesAll | src/control-plane/browser-pool.ts:175-184 | a stop leaves none of the browser’s commands pending and settles each as stopped |
| BridgePool.Pool.RejectBridgeCalls | src/control-plane/browser-pool.ts:455-462 | the loop takes exactly the browser’s commands out of the map and settles them in order |
| BridgePool.Pool.BridgeCall | src/control-plane/browser-pool.ts:380-396 | the call is its step |
| BridgePool.Pool.HandleMessage | src/control-plane/browser-pool.ts:445-453 | the message handler is its step, which settles the command with the flag of the answer |
| BridgePool.Pool.HandleBridgeClose | src/control-plane/browser-pool.ts:303-318 | the close handler is its step |
| BridgePool.AttachReplaces | src/control-plane/browser-pool.ts:195-204 | a browser that attaches is reached over its newest socket; the others and the waiting commands are left alone |
| BridgePool.Pool.AttachBridge | src/control-plane/browser-pool.ts:195-204 | attaching replaces the current socket and settles nothing |
| RawCdpConnection.RunKeepsInvariant | src/browser/raw-cdp-connection.ts:50-114 | in every run every command is settled exactly once across responses, timeouts, failed and throwing sends and the end of the connection |
| RawCdpConnection.ThrowingSendLeavesEntry | src/browser/raw-cdp-connection.ts:57-73 | a send that throws rejects its own command and leaves its entry and timer behind |
| RawCdpConnection.MapIsUnsettled | src/browser/raw-cdp-connection.ts:50-114 | the pending map is exactly the unsettled commands if and only if no send has thrown whose timeout, answer or close is still to come |
| RawCdpConnection.EventSettlesOne | src/browser/raw-cdp-connection.ts:59-96 | a failed send, a response and a timeout settle the command that they name, if it is still unsettled, and no other, and its entry is gone |
| RawCdpConnection.EventGives | src/browser/raw-cdp-connection.ts:50-114 | an event gives a command an outcome exactly when it is its cause: its own response, timeout, failed or throwing send, or the end of the connection |
| RawCdpConnection.OutcomeHasCause | src/browser/raw-cdp-connection.ts:50-114 | in every run a command has an outcome exactly when an earlier event was its cause |
| RawCdpConnection.SendIssuesOne | src/browser/raw-cdp-connection.ts:50-74 | a send over an open connection issues one new command, which waits with its timeout unless the send throws; over a closed one it issues nothing |
| RawCdpConnection.ClosingEnds | src/browser/raw-cdp-connection.ts:76-114 | the end of the connection settles every waiting command as closed, leaves no entry, and lets no command be issued |
| RawCdpConnection.ClosedLeavesNoneWaiting | src/browser/raw-cdp-connection.ts:76-114 | from the end of the connection on, every command that was ever sent is settled |
| RawCdpConnection.Connection.SendCommand | src/browser/raw-cdp-connection.ts:50-74 | the send is its step |
| RawCdpConnection.Connection.HandleResponse | src/browser/raw-cdp-connection.ts:83-97 | the response handler is its step |
| RawCdpConnection.Connection.HandleClose | src/browser/raw-cdp-connection.ts:107-114 | the loop settles every pending command, in order |
| TargetRegistry.Base36RoundTrip | src/browser/target-registry.ts:127-131 | the counter can be read back from its base-36 numeral |
| TargetRegistry.RefsOfCountersDiffer | src/browser/target-registry.ts:127-131 | refs of different counters are different, whatever their random parts |
| TargetRegistry.RefIsAccepted | src/browser/target-registry.ts:127-131 | a generated ref has the shape that the workflow language accepts, exactly while the counter has at most 79 digits |
| TargetRegistry.Registry.Register | src/browser/target-registry.ts:251-280 | drops the expired records, then only the oldest beyond the limit, and adds the new record under a ref that no other record has |
| TargetRegistry.Registry.Resolve | src/browser/target-registry.ts:290-334 | a ref resolves exactly when its record is retained, unexpired, of the asked page and frame generations, and still in order on the page |
| TargetRegistry.Registry.SetGeneration | src/browser/target-registry.ts:222-227 | no record survives a new generation |
| TargetRegistry.Registry.Invalidate | src/browser/target-registry.ts:234-245 | keeps exactly the records of the generations named |
| TargetRegistry.Registry.Clear | src/browser/target-registry.ts:247-249 | no record survives |
| TargetRegistry.Registry.PruneExpired | src/browser/target-registry.ts:557-562 | exactly the unexpired records stay, in order |
| TargetRegistry.Registry.RegisterAll | src/browser/target-registry.ts:386-418 | the refs of one undisturbed snapshot are pairwise distinct and, for at most maxRefs elements registered within the retention time, all retained |
| TargetRegistry.RecordOrigin | src/browser/target-registry.ts:222-334 | in every interleaving of registrations, navigations, lookups, invalidations and clearings a retained ref was registered, and nothing took it out since |
| TargetRegistry.RefIsRetained | src/browser/target-registry.ts:222-334 | with fewer than maxRefs registrations after it, a ref is retained exactly when no generation was set, no invalidation named another one, nothing was cleared and it was not found too old since: the refs of one snapshot survive each other, and none survives a navigation between two of its registrations |
| Csv.ParseCsvLine | src/api/server.ts:1656-1671 | the loop computes the specified fields |
| Csv.ReadsDoubled | src/api/server.ts:1661-1667 | inside quotes everything is read back as it was, up to the closing quote |
| Csv.ParsePrintedRow | src/api/server.ts:1656-1675 | parsing the comma-joined printed cells gives back every field trimmed, whatever quotes, ASCII or full-width commas and tabs it contains |
| Csv.RowRoundTrip | src/api/server.ts:1656-1675 | a row is read back unchanged exactly when no field starts or ends with white space |
| Totp.Base32ToBuffer | src/auth/totp.ts:10-23 | the loops compute the specified bytes |
| Totp.DecodeEncoded | src/auth/totp.ts:10-23 | decoding inverts encoding for every byte string, for every text whose upper case has the letters of the encoding |
| Totp.LettersAreSignificant | src/auth/totp.ts:8 | the encoding itself is such a text |
| Totp.NoiseIsIgnored | src/auth/totp.ts:11-15 | case changes nothing, and neither does a character whose upper case has no letter of the alphabet, such as white space, a hyphen or an equals sign |
| Totp.LongSCounts | src/auth/totp.ts:11 | letters outside ASCII whose upper case is a letter count: two long s decode to a byte |
| Totp.BigEndianRoundTrip | src/auth/totp.ts:33-34 | the eight counter bytes determine the counter |
| Totp.TruncatedIsLast31Bits | src/auth/totp.ts:37-42 | the dynamic truncation is the last 31 bits of the four bytes at the offset, and reads inside a 20-byte digest |
| Totp.CodeIsSixDigits | src/auth/totp.ts:44-45 | the code has exactly six digits with the truncated value modulo a million |
| Totp.CounterWindow | src/auth/totp.ts:29-31 | the counter stays the same for exactly the reported number of seconds |
| Totp.GenerateTotp | src/auth/totp.ts:25-50 | code and remaining seconds for every secret, time and whole step, with the fixed answers for an empty secret and a failing step: zero, or negative after second zero |

## Left out

- Browser launching, page, locator and CDP payloads, challenge detection, persistence, audit, HTTP, scheduling and the user interface: foreign calls; their outcomes are arbitrary.
- Printing of doubles: a JSON number is represented by its numeral, and scores of the locator are exact rationals rounded to thousandths.
- Clocks that return a non-finite value, and the second of two readings within one synchronous call of the lease and of the session manager.
- `createSemanticSnapshot` and `redactControlValue`: they copy the first targets without their values.
- `prepareSnapshot`: the generated snapshot id and the JSON length of an entry are inputs; URL, title, text and content of the public snapshot are not kept by the history and are not modelled.
- `safeStepSummary` and `normalizeStatus`: their results are inputs of the executor’s model.
- The readings of the clock that bound the reading of a status: a status that comes too late is an absent one.
- Workspaces and their leases, closed statuses and tenants of the session manager.
- The admission of popups, popups that open while tabs are restored, redirects of a restored address, and when a tab may be closed: `SessionTabs` has their outcomes as events.
- Instances, site bindings and the JSON of bridge messages; an oversized message is one event.
- The semantic checks of the target registry on a live page: their outcome is one value.
- `safeTokenEqual`: a plain comparison.
- Upper-casing of a Base32 secret where no letter of the alphabet results: such characters are left as they are.
- SessionQueue.StateAndLeaseAgree: holds under the conditions of `SessionQueue.Benign`, which `SessionAgreement.BenignIsExact` proves exact; without them it is false.
- SnapshotHistory.History.RetainPrepared: the entries equal the longest suffix at once only if the new entry is not born expired; the next pruning restores it in any case.
- SessionManager.GetFailsFromDeadline: not for a session that is being stopped, whose timer the source has cleared.
