/** The workflow executor's loop (src/browser/workflow.ts) against an arbitrary adapter: what
it invokes, what it reports, and when it stops. */
module WorkflowExecutor {
  import opened Common
  import opened Text
  import Decimal
  import opened Json
  import opened WorkflowResult
  import opened WorkflowSteps
  import opened BoundResult

  // ----- what the adapter is asked -----

  datatype Guards = Guards(actionId: Option<Str>, expectedPageRevision: Option<nat>, expectedTabId: Option<Str>)

  const NO_GUARDS := Guards(None, None, None)

  datatype Request =
    | OpenPage(url: Str, waitUntil: Option<WaitUntil>, timeoutMs: Option<nat>)
    | ClickOn(target: Target, timeoutMs: Option<nat>)
    | TypeInto(target: Target, text: Str, clearFirst: Option<bool>, submit: Option<bool>, sensitive: Option<bool>, timeoutMs: Option<nat>)
    | SelectIn(target: Target, choice: Choice, timeoutMs: Option<nat>)
    | ScrollTo(direction: Direction, amount: nat, place: Option<Target>)
    | WaitFor(durationMs: Option<nat>, condition: Option<Condition>, place: Option<Target>, timeoutMs: Option<nat>)
    | TakeSnapshot(maxNodes: Option<nat>, maxChars: Option<nat>, maxBytes: Option<nat>, includeText: Option<bool>, format: Option<Format>)

  datatype Call = Call(request: Request, guards: Guards)

  /** A ref given as an object reaches the adapter as a plain string. */
  function AdapterTarget(t: Target): Target { if t.ByRef? then Opaque(t.ref) else t }

  function AdapterPlace(t: Option<Target>): Option<Target> { if t.Some? then Some(AdapterTarget(t.value)) else None }

  function SnapshotFormat(compact: Option<bool>, format: Option<Format>): Option<Format> {
    if format.Some? then format
    else if compact.Some? then Some(if compact.value then Compact else Structured)
    else None
  }

  /** The calls of a step; only the first carries the guards. A select step with values
  makes one call for each. */
  function CallsOf(s: Step, g: Guards): (r: seq<Call>) {
    match s
    case Open(url, waitUntil, timeout) => [Call(OpenPage(url, waitUntil, timeout), g)]
    case Click(target, timeout) => [Call(ClickOn(AdapterTarget(target), timeout), g)]
    case Type(target, text, clear, clearFirst, submit, sensitive, timeout) =>
      [Call(TypeInto(AdapterTarget(target), text, if clearFirst.Some? then clearFirst else clear, submit, sensitive, timeout), g)]
    case Select(target, choice, Some(values), timeout) =>
      seq(|values|, i requires 0 <= i < |values| =>
        Call(SelectIn(AdapterTarget(target), Value(values[i]), timeout), if i == 0 then g else NO_GUARDS))
    case Select(target, choice, None, timeout) =>
      [Call(SelectIn(AdapterTarget(target), choice.GetOr(Plain([])), timeout), g)]
    case Scroll(direction, amount, place) => [Call(ScrollTo(direction, amount, AdapterPlace(place)), g)]
    case Wait(duration, condition, place, timeout) => [Call(WaitFor(duration, condition, AdapterPlace(place), timeout), NO_GUARDS)]
    case Snapshot(nodes, chars, bytes, includeText, compact, format) =>
      [Call(TakeSnapshot(nodes, chars, bytes, includeText, SnapshotFormat(compact, format)), NO_GUARDS)]
  }

  predicate IsWriteStep(s: Step) { s.Open? || s.Click? || s.Type? || s.Select? || s.Scroll? }

  /** The index of the first write step, or the number of steps. */
  function FirstWrite(steps: seq<Step>): (i: nat)
    ensures i <= |steps| && (i < |steps| ==> IsWriteStep(steps[i])) && forall j :: 0 <= j < i ==> !IsWriteStep(steps[j])
  {
    if steps == [] || IsWriteStep(steps[0]) then 0
    else
      var rest := FirstWrite(steps[1..]);
      assert forall j :: 1 <= j < rest + 1 ==> steps[j] == steps[1..][j - 1];
      rest + 1
  }

  function GuardsAt(steps: seq<Step>, i: nat, g: Guards): Guards { if i == FirstWrite(steps) then g else NO_GUARDS }

  // ----- what it answers -----

  datatype Status = Status(
    state: Option<Str>, tabId: Option<Str>, pageRevision: Option<nat>, challengeDetected: bool,
    latestInterruptSequence: Option<nat>, recentInterruptTypes: seq<Str>, interruptTotal: Option<nat>)

  /** A step's result, as far as the executor looks at it; `summary` is its safe projection. */
  datatype Raw = Raw(
    challenge: bool, interruptType: Option<Str>, interrupted: bool, hasInterrupt: bool, blocked: bool,
    nested: Status, revision: Option<nat>, summary: Summary)

  datatype Failure = Failure(code: Str, retryable: bool, expected: Option<nat>, actual: Option<nat>)

  datatype Answer = Returned(raw: Raw) | Raised(failure: Failure)

  datatype Classified = Classified(code: Str, reason: StopReason, retryable: bool, expected: Option<nat>, actual: Option<nat>)

  /** A letter of a case-insensitive Unicode pattern; U+017F folds to S. */
  predicate Folds(u: CodeUnit, upper: char) {
    u == upper as int || ('A' <= upper <= 'Z' && u == upper as int + 0x20) || (upper == 'S' && u == 0x17F)
  }

  predicate MatchesAt(s: Str, word: string, k: nat) {
    k + |word| <= |s| && forall i :: 0 <= i < |word| ==> Folds(s[k + i], word[i])
  }

  predicate Mentions(s: Str, word: string) { exists k :: 0 <= k <= |s| && MatchesAt(s, word, k) }

  predicate IsInterruptCode(code: Str) {
    || Mentions(code, "POPUP") || Mentions(code, "DIALOG") || Mentions(code, "DOWNLOAD") || Mentions(code, "INTERRUPT")
    || Mentions(code, "PAGE_CRASHED") || Mentions(code, "CONTEXT_CLOSED")
  }

  function FailureReason(code: Str): StopReason {
    if code == Ascii("WORKFLOW_TIMEOUT") || code == Ascii("ACTION_TIMEOUT") then Timeout
    else if Mentions(code, "CHALLENGE") then Challenge
    else if code == Ascii("PAGE_REVISION_MISMATCH") then RevisionMismatch
    else if IsInterruptCode(code) then Interrupt
    else Failed
  }

  function ClassifyFailure(f: Failure): Classified {
    var mismatch := f.code == Ascii("PAGE_REVISION_MISMATCH");
    var reason := FailureReason(f.code);
    Classified(f.code, reason, reason == Timeout || reason == RevisionMismatch || f.retryable,
               if mismatch then f.expected else None, if mismatch then f.actual else None)
  }

  const TIMED_OUT := Failure(Ascii("WORKFLOW_TIMEOUT"), false, None, None)

  // ----- when to stop -----

  /** A blocked dialog or download is a stop unless the caller chose other triggers. */
  function BlockedStop(stopOn: set<Trigger>, trigger: Trigger): Option<StopReason> {
    if stopOn == {} || trigger in stopOn || OnInterrupt in stopOn then Some(Interrupt) else None
  }

  /** What an interrupt of this type, the last of its step, does. */
  function InterruptStop(latest: Option<Str>, stopOn: set<Trigger>): Option<StopReason> {
    if latest == Some(Ascii("DIALOG_BLOCKED")) then BlockedStop(stopOn, OnDialog)
    else if latest == Some(Ascii("DOWNLOAD_BLOCKED")) then BlockedStop(stopOn, OnDownload)
    else Some(Interrupt)
  }

  function LatestType(s: Status): Option<Str> {
    if s.recentInterruptTypes == [] then None else Some(s.recentInterruptTypes[|s.recentInterruptTypes| - 1])
  }

  predicate Grew(before: Option<nat>, after: Option<nat>) {
    before.Some? && after.Some? && after.value > before.value
  }

  predicate NewInterrupt(before: Option<Status>, after: Status) {
    before.Some? && (Grew(before.value.latestInterruptSequence, after.latestInterruptSequence)
                     || Grew(before.value.interruptTotal, after.interruptTotal))
  }

  predicate Unsafe(s: Status) {
    s.state == Some(Ascii("HUMAN_TAKEOVER")) || s.state == Some(Ascii("ERROR"))
  }

  function StatusStopReason(before: Option<Status>, after: Option<Status>, stopOn: set<Trigger>): Option<StopReason> {
    match after
    case None => None
    case Some(a) =>
      if a.challengeDetected && !(before.Some? && before.value.challengeDetected) then Some(Challenge)
      else if Unsafe(a) then Some(Interrupt)
      else if !NewInterrupt(before, a) then None
      else InterruptStop(LatestType(a), stopOn)
  }

  function RawStopReason(raw: Raw, stopOn: set<Trigger>): Option<StopReason> {
    if raw.challenge then Some(Challenge)
    else if raw.interruptType == Some(Ascii("DIALOG_BLOCKED")) || raw.interruptType == Some(Ascii("DOWNLOAD_BLOCKED")) then
      InterruptStop(raw.interruptType, stopOn)
    else if raw.interruptType.Some? || raw.interrupted || raw.hasInterrupt then Some(Interrupt)
    else if raw.nested.challengeDetected then Some(Challenge)
    else if (raw.nested.latestInterruptSequence.Some? || raw.nested.interruptTotal.Some?) && raw.blocked then
      InterruptStop(LatestType(raw.nested), stopOn)
    else None
  }

  function Orelse<T>(a: Option<T>, b: Option<T>): Option<T> { if a.Some? then a else b }

  predicate NavigationDetected(before: Option<Status>, after: Option<Status>, raw: Raw) {
    var was := if before.Some? then before.value.pageRevision else None;
    var now := Orelse(if after.Some? then after.value.pageRevision else None, raw.revision);
    was.Some? && now.Some? && was != now
  }

  /** What the executor sees of one step: the calls that were made with their answers, the
  step's answer, and the status read after it. */
  datatype Observed = Observed(asked: seq<(Call, Answer)>, answer: Answer, after: Option<Status>)

  /** The stop condition that fires after a step, if one does. */
  function StopOf(before: Option<Status>, o: Observed, stopOn: set<Trigger>): Option<StopReason> {
    match o.answer
    case Raised(f) => Some(ClassifyFailure(f).reason)
    case Returned(raw) =>
      Orelse(Orelse(StatusStopReason(before, o.after, stopOn), RawStopReason(raw, stopOn)),
             if OnNavigation in stopOn && NavigationDetected(before, o.after, raw) then Some(Navigation) else None)
  }

  /** The latest status known before step i. */
  function StatusBefore(initial: Option<Status>, seen: seq<Observed>, i: nat): Option<Status>
    requires i <= |seen|
  {
    if i == 0 then initial else Orelse(seen[i - 1].after, StatusBefore(initial, seen, i - 1))
  }

  // ----- the world -----

  /** One exchange with the adapter, in the order in which they happen. */
  datatype Exchange = Asked(call: Call, answer: Answer) | StatusRead(status: Option<Status>)

  /** An arbitrary adapter and clock: any answer to the n-th question. */
  class World {
    const times: nat -> int
    const answers: nat -> Answer
    const statuses: nat -> Option<Status>
    const aborts: nat -> bool
    var ticks: nat
    var asked: nat
    var read: nat
    ghost var log: seq<Exchange>

    constructor (times: nat -> int, answers: nat -> Answer, statuses: nat -> Option<Status>, aborts: nat -> bool)
      ensures log == []
    {
      this.times, this.answers, this.statuses, this.aborts := times, answers, statuses, aborts;
      ticks, asked, read, log := 0, 0, 0, [];
    }

    method Now() returns (t: int)
      modifies `ticks
      ensures t == times(old(ticks)) && ticks == old(ticks) + 1
    {
      t := times(ticks);
      ticks := ticks + 1;
    }

    method Ask(call: Call) returns (a: Answer)
      modifies `asked, `log
      ensures log == old(log) + [Asked(call, a)] && a == answers(old(asked)) && asked == old(asked) + 1
    {
      a := answers(asked);
      asked := asked + 1;
      log := log + [Asked(call, a)];
    }

    /** None when the adapter has no status, fails to give it, or is too late. */
    method ReadStatus() returns (s: Option<Status>)
      modifies `read, `log
      ensures log == old(log) + [StatusRead(s)] && s == statuses(old(read)) && read == old(read) + 1
    {
      s := statuses(read);
      read := read + 1;
      log := log + [StatusRead(s)];
    }

    predicate Late(tick: nat, deadline: int) { times(tick) >= deadline || aborts(tick + 1) }

    /** The deadline has passed or the caller has aborted. */
    method OutOfTime(deadline: int) returns (late: bool)
      modifies `ticks
      ensures late == Late(old(ticks), deadline) && ticks == old(ticks) + 1
    {
      var now := Now();
      late := deadline - now <= 0 || aborts(ticks);
    }
  }

  // ----- a faithful run -----

  function Exchanges(asked: seq<(Call, Answer)>): seq<Exchange> {
    seq(|asked|, i requires 0 <= i < |asked| => Asked(asked[i].0, asked[i].1))
  }

  function StepLog(o: Observed): seq<Exchange> {
    Exchanges(o.asked) + (if o.answer.Returned? then [StatusRead(o.after)] else [])
  }

  function RunLog(seen: seq<Observed>): seq<Exchange> {
    if seen == [] then [] else RunLog(seen[..|seen| - 1]) + StepLog(seen[|seen| - 1])
  }

  /** The step's calls were made in order and up to the first that failed; the step's answer
  is the last one, or a timeout before any call. */
  predicate Honest(o: Observed, calls: seq<Call>) {
    && |o.asked| <= |calls|
    && (forall j :: 0 <= j < |o.asked| ==> o.asked[j].0 == calls[j])
    && (forall j :: 0 <= j < |o.asked| - 1 ==> o.asked[j].1.Returned?)
    && (if o.asked == [] then o.answer == Raised(TIMED_OUT) else o.answer == o.asked[|o.asked| - 1].1)
    && (o.answer.Returned? ==> |o.asked| == |calls|)
    && (o.answer.Raised? ==> o.after.None?)
  }

  function StatusRevision(s: Option<Status>): Option<nat> { if s.Some? then s.value.pageRevision else None }

  function WithRevision(s: Summary, revision: Option<nat>): Summary { s.(revision := revision) }

  function SafeErrorMessage(code: Str): Str {
    if code == Ascii("SESSION_PAUSED_CHALLENGE") then Ascii("Automation paused for human challenge handling.")
    else if code == Ascii("PAGE_REVISION_MISMATCH") then Ascii("The page changed; obtain a fresh snapshot.")
    else if code == Ascii("WORKFLOW_TIMEOUT") || code == Ascii("ACTION_TIMEOUT") then Ascii("The workflow deadline was exceeded.")
    else if code == Ascii("TARGET_AMBIGUOUS") then Ascii("The target was ambiguous.")
    else if code == Ascii("TARGET_NOT_FOUND") then Ascii("The target was not found.")
    else if code == Ascii("NAVIGATION_DENIED") || code == Ascii("PRIVATE_NETWORK_DENIED") then Ascii("Navigation was denied by policy.")
    else Ascii("The workflow step failed.")
  }

  function ReportOf(index: nat, s: Step, o: Observed, elapsedMs: nat): StepReport {
    match o.answer
    case Returned(raw) =>
      var revision := Orelse(StatusRevision(o.after), raw.revision);
      StepReport(index, OperationOf(s), Success, true, elapsedMs, revision, Some(WithRevision(raw.summary, revision)), None)
    case Raised(f) =>
      var c := ClassifyFailure(f);
      StepReport(index, OperationOf(s), if c.reason == Interrupt then Interrupted else Error, false, elapsedMs, c.actual, None,
                 Some(ErrorSummary(c.code, c.retryable, Some(SafeErrorMessage(c.code)), c.expected, c.actual)))
  }

  /** The reports tell, in order, of the first steps; every step but the last one succeeded
  and no stop condition fired after it. */
  predicate Faithful(steps: seq<Step>, g: Guards, initial: Option<Status>, stopOn: set<Trigger>,
                     seen: seq<Observed>, reports: seq<StepReport>) {
    && |reports| == |seen| <= |steps|
    && (forall i :: 0 <= i < |seen| ==> Honest(seen[i], CallsOf(steps[i], GuardsAt(steps, i, g))))
    && (forall i :: 0 <= i < |seen| ==> reports[i] == ReportOf(i, steps[i], seen[i], reports[i].elapsedMs))
    && (forall i :: 0 <= i < |seen| - 1 ==> StopOf(StatusBefore(initial, seen, i), seen[i], stopOn) == None)
  }

  predicate NoStop(initial: Option<Status>, stopOn: set<Trigger>, seen: seq<Observed>) {
    forall i :: 0 <= i < |seen| ==> StopOf(StatusBefore(initial, seen, i), seen[i], stopOn) == None
  }

  /** Why a run ended after these steps. */
  function Reason(steps: seq<Step>, initial: Option<Status>, stopOn: set<Trigger>, seen: seq<Observed>): StopReason {
    var last := if seen == [] then None else StopOf(StatusBefore(initial, seen, |seen| - 1), seen[|seen| - 1], stopOn);
    match last
    case Some(reason) => reason
    case None => if |seen| == |steps| then AllDone else Timeout
  }

  lemma {:induction false} StatusBeforeAppend(initial: Option<Status>, seen: seq<Observed>, o: Observed, i: nat)
    requires i <= |seen|
    ensures StatusBefore(initial, seen + [o], i) == StatusBefore(initial, seen, i)
  {
    if i > 0 {
      StatusBeforeAppend(initial, seen, o, i - 1);
    }
  }

  lemma RunLogAppend(seen: seq<Observed>, o: Observed)
    ensures RunLog(seen + [o]) == RunLog(seen) + StepLog(o)
  {
    assert (seen + [o])[..|seen|] == seen;
  }

  lemma FaithfulAppend(steps: seq<Step>, g: Guards, initial: Option<Status>, stopOn: set<Trigger>,
                       seen: seq<Observed>, reports: seq<StepReport>, o: Observed, report: StepReport)
    requires Faithful(steps, g, initial, stopOn, seen, reports) && NoStop(initial, stopOn, seen) && |seen| < |steps|
    requires Honest(o, CallsOf(steps[|seen|], GuardsAt(steps, |seen|, g)))
    requires report == ReportOf(|seen|, steps[|seen|], o, report.elapsedMs)
    ensures Faithful(steps, g, initial, stopOn, seen + [o], reports + [report])
    ensures NoStop(initial, stopOn, seen + [o]) <==> StopOf(StatusBefore(initial, seen, |seen|), o, stopOn) == None
    ensures StatusBefore(initial, seen + [o], |seen| + 1) == Orelse(o.after, StatusBefore(initial, seen, |seen|))
  {
    hide Honest, ReportOf, StopOf, CallsOf, GuardsAt;
    var all := seen + [o];
    forall i | 0 <= i <= |seen|
      ensures StatusBefore(initial, all, i) == StatusBefore(initial, seen, i)
    {
      StatusBeforeAppend(initial, seen, o, i);
    }
    assert all[|seen|] == o;
  }

  lemma ReasonOfNoStop(steps: seq<Step>, initial: Option<Status>, stopOn: set<Trigger>, seen: seq<Observed>)
    requires NoStop(initial, stopOn, seen)
    ensures Reason(steps, initial, stopOn, seen) == if |seen| == |steps| then AllDone else Timeout
  {
  }

  lemma ReasonOfStop(steps: seq<Step>, initial: Option<Status>, stopOn: set<Trigger>, seen: seq<Observed>, o: Observed)
    requires StopOf(StatusBefore(initial, seen, |seen|), o, stopOn).Some?
    ensures Reason(steps, initial, stopOn, seen + [o]) == StopOf(StatusBefore(initial, seen, |seen|), o, stopOn).value
  {
    hide StopOf;
    StatusBeforeAppend(initial, seen, o, |seen|);
  }

  // ----- the loop -----

  /** Makes a step's calls until one fails. */
  method Invoke(s: Step, g: Guards, world: World) returns (a: Answer, ghost asked: seq<(Call, Answer)>)
    requires CallsOf(s, g) != []
    modifies world
    ensures world.log == old(world.log) + Exchanges(asked) && world.ticks == old(world.ticks)
    ensures Honest(Observed(asked, a, None), CallsOf(s, g)) && asked != []
  {
    hide CallsOf;
    var calls := CallsOf(s, g);
    a, asked := Raised(TIMED_OUT), [];
    for i := 0 to |calls|
      invariant |asked| == i && world.log == old(world.log) + Exchanges(asked) && world.ticks == old(world.ticks)
      invariant forall j :: 0 <= j < i ==> asked[j].0 == calls[j] && asked[j].1.Returned?
      invariant i > 0 ==> a == asked[i - 1].1
    {
      a := world.Ask(calls[i]);
      ghost var before := asked;
      asked := asked + [(calls[i], a)];
      assert Exchanges(asked) == Exchanges(before) + [Asked(calls[i], a)];
      if a.Raised? {
        return;
      }
    }
  }

  method PerformStep(s: Step, g: Guards, deadline: int, world: World) returns (a: Answer, ghost asked: seq<(Call, Answer)>)
    requires CallsOf(s, g) != []
    modifies world
    ensures world.log == old(world.log) + Exchanges(asked)
    ensures asked == [] <==> world.Late(old(world.ticks), deadline)
    ensures world.ticks == old(world.ticks) + 1 && (a.Raised? || asked != [])
    ensures forall after :: (a.Raised? ==> after == None) ==> Honest(Observed(asked, a, after), CallsOf(s, g))
  {
    var late := world.OutOfTime(deadline);
    if late {
      a, asked := Raised(TIMED_OUT), [];
    } else {
      a, asked := Invoke(s, g, world);
    }
  }

  /** Has the step something to ask the adapter? True of every normalised step. */
  predicate Askable(s: Step) { s.Select? && s.values.Some? ==> s.values.value != [] }

  lemma AskableHasCalls(s: Step, g: Guards)
    requires Askable(s)
    ensures CallsOf(s, g) != []
  {
  }

  datatype RunOptions = RunOptions(guards: Guards, stopOn: set<Trigger>, maxDurationMs: nat, maxResultBytes: nat)

  /** The checks on the status before the first step. */
  function EarlyStop(initial: Option<Status>, g: Guards): Option<StopReason> {
    match initial
    case None => None
    case Some(s) =>
      if g.expectedTabId.Some? && s.tabId.Some? && s.tabId != g.expectedTabId then Some(RevisionMismatch)
      else if g.expectedPageRevision.Some? && s.pageRevision.Some? && s.pageRevision != g.expectedPageRevision then Some(RevisionMismatch)
      else if s.challengeDetected then Some(Challenge)
      else None
  }

  /** The result before it is bounded. */
  predicate FullResult(v: View, steps: seq<Step>, o: RunOptions, initial: Option<Status>, seen: seq<Observed>) {
    && (v.ok <==> EarlyStop(initial, o.guards).None? && |seen| == |steps| && NoStop(initial, o.stopOn, seen))
    && v.status == (if v.ok then Completed else Stopped)
    && v.completedSteps == Some(CountSuccess(v.steps)) && v.truncated == Some(false)
    && match EarlyStop(initial, o.guards)
       case Some(reason) => seen == [] && v.steps == [] && v.stopReason == reason
       case None =>
         && Faithful(steps, o.guards, initial, o.stopOn, seen, v.steps)
         && v.stopReason == Reason(steps, initial, o.stopOn, seen)
         && (|seen| < |steps| && NoStop(initial, o.stopOn, seen) ==> v.stopReason == Timeout)
  }

  lemma ReasonIsDoneOnlyWhenDone(steps: seq<Step>, o: RunOptions, initial: Option<Status>, seen: seq<Observed>, reports: seq<StepReport>)
    requires Faithful(steps, o.guards, initial, o.stopOn, seen, reports)
    ensures Reason(steps, initial, o.stopOn, seen) == AllDone <==> |seen| == |steps| && NoStop(initial, o.stopOn, seen)
  {
    hide Honest, ReportOf, CallsOf, GuardsAt, StopOf, StatusBefore;
    if seen != [] {
      StopIsNeverDone(StatusBefore(initial, seen, |seen| - 1), seen[|seen| - 1], o.stopOn);
    }
  }

  lemma StopIsNeverDone(before: Option<Status>, o: Observed, stopOn: set<Trigger>)
    ensures StopOf(before, o, stopOn) != Some(AllDone)
  {
    hide Mentions;
  }

  lemma ReportIgnoresCalls(index: nat, s: Step, o: Observed, elapsedMs: nat)
    ensures ReportOf(index, s, Observed([], o.answer, o.after), elapsedMs) == ReportOf(index, s, o, elapsedMs)
    ensures ReportOf(index, s, o, elapsedMs).elapsedMs == elapsedMs
  {
  }

  lemma StopIgnoresCalls(before: Option<Status>, o: Observed, stopOn: set<Trigger>)
    ensures StopOf(before, Observed([], o.answer, o.after), stopOn) == StopOf(before, o, stopOn)
  {
  }

  /** One step: its calls, the status after it, its report, and the stop that it causes. */
  method ExecuteStep(s: Step, index: nat, g: Guards, previous: Option<Status>, stopOn: set<Trigger>, deadline: int, world: World)
    returns (report: StepReport, stop: Option<StopReason>, after: Option<Status>, ghost observed: Observed)
    requires Askable(s)
    modifies world
    ensures world.log == old(world.log) + StepLog(observed)
    ensures Honest(observed, CallsOf(s, g)) && after == observed.after
    ensures report == ReportOf(index, s, observed, report.elapsedMs)
    ensures stop == StopOf(previous, observed, stopOn)
    ensures observed.asked == [] <==> world.Late(old(world.ticks) + 1, deadline)
    ensures world.ticks == old(world.ticks) + 3
    ensures report.elapsedMs == Max(0, world.times(old(world.ticks) + 2) - world.times(old(world.ticks)))
  {
    hide StopOf, ReportOf, CallsOf, Honest;
    var startedAt := world.Now();
    AskableHasCalls(s, g);
    var answer, asked := PerformStep(s, g, deadline, world);
    after := None;
    if answer.Returned? {
      after := world.ReadStatus();
    }
    var finishedAt := world.Now();
    var elapsed := Max(0, finishedAt - startedAt);
    observed := Observed(asked, answer, after);
    report := ReportOf(index, s, Observed([], answer, after), elapsed);
    stop := StopOf(previous, Observed([], answer, after), stopOn);
    ReportIgnoresCalls(index, s, observed, elapsed);
    StopIgnoresCalls(previous, observed, stopOn);
  }

  /** The clock readings just before each of the first n steps were before the deadline; a step
  takes four readings. */
  predicate OnTime(world: World, tick: nat, n: nat, deadline: int) {
    forall i :: 0 <= i < n ==> world.times(tick + 4 * i) < deadline
  }

  /** Runs the steps until one fails, a stop condition fires, or the time is up: no step is
  begun from the deadline on, and a run that ends before its last step without a stop
  condition has reached it. */
  method RunSteps(steps: seq<Step>, o: RunOptions, initial: Option<Status>, deadline: int, world: World)
    returns (reports: seq<StepReport>, stopReason: StopReason, ghost seen: seq<Observed>)
    requires forall i :: 0 <= i < |steps| ==> Askable(steps[i])
    modifies world
    ensures world.log == old(world.log) + RunLog(seen)
    ensures OnTime(world, old(world.ticks), |seen|, deadline)
    ensures |seen| < |steps| && NoStop(initial, o.stopOn, seen) ==> world.times(old(world.ticks) + 4 * |seen|) >= deadline
    ensures Faithful(steps, o.guards, initial, o.stopOn, seen, reports) && |reports| == |seen| <= |steps|
    ensures stopReason == Reason(steps, initial, o.stopOn, seen)
  {
    hide Faithful, NoStop, StopOf, Reason, ReportOf, CallsOf, Honest, FirstWrite, StatusBefore, RunLog, StepLog, Orelse;
    reports, seen := [], [];
    var previous := initial;
    var firstWrite := FirstWrite(steps);
    NothingYet(steps, o, initial);
    for index := 0 to |steps|
      invariant |seen| == |reports| == index
      invariant world.log == old(world.log) + RunLog(seen)
      invariant Faithful(steps, o.guards, initial, o.stopOn, seen, reports) && NoStop(initial, o.stopOn, seen)
      invariant previous == StatusBefore(initial, seen, index)
      invariant world.ticks == old(world.ticks) + 4 * index && OnTime(world, old(world.ticks), index, deadline)
    {
      var now := world.Now();
      if deadline - now <= 0 {
        ReasonOfNoStop(steps, initial, o.stopOn, seen);
        return reports, Timeout, seen;
      }
      var guards := if index == firstWrite then o.guards else NO_GUARDS;
      var report, stop, after, observed := ExecuteStep(steps[index], index, guards, previous, o.stopOn, deadline, world);
      FaithfulAppend(steps, o.guards, initial, o.stopOn, seen, reports, observed, report);
      RunLogAppend(seen, observed);
      if stop.Some? {
        ReasonOfStop(steps, initial, o.stopOn, seen, observed);
        return reports + [report], stop.value, seen + [observed];
      }
      reports, seen := reports + [report], seen + [observed];
      previous := Orelse(after, previous);
    }
    ReasonOfNoStop(steps, initial, o.stopOn, seen);
    stopReason := AllDone;
  }

  lemma NothingYet(steps: seq<Step>, o: RunOptions, initial: Option<Status>)
    ensures Faithful(steps, o.guards, initial, o.stopOn, [], []) && NoStop(initial, o.stopOn, [])
    ensures StatusBefore(initial, [], 0) == initial && RunLog([]) == []
  {
  }

  /** A whole run: the initial checks, the steps, and the bounded result. */
  method RunUncached(steps: seq<Step>, o: RunOptions, world: World)
    returns (r: BoundResult.Result, ghost full: View, ghost initial: Option<Status>, ghost seen: seq<Observed>)
    requires forall i :: 0 <= i < |steps| ==> Askable(steps[i])
    modifies world
    ensures fresh(r)
    ensures world.log == old(world.log) + [StatusRead(initial)] + RunLog(seen)
    ensures var start := old(world.ticks);
            var deadline := world.times(start) + o.maxDurationMs;
            && OnTime(world, start + 1, |seen|, deadline)
            && (EarlyStop(initial, o.guards).None? && |seen| < |steps| && NoStop(initial, o.stopOn, seen) ==>
                  world.times(start + 1 + 4 * |seen|) >= deadline)
    ensures FullResult(full, steps, o, initial, seen)
    ensures r.ok == full.ok && r.status == full.status && r.stopReason == full.stopReason
    ensures r.resultBytes == Size(r.ToView()) && (o.maxResultBytes >= MIN_RESULT_BYTES ==> r.resultBytes <= o.maxResultBytes)
    ensures (&& StepsReduced(full.steps, r.steps) && Sparing(full.steps, r.steps, o.maxResultBytes / 4)
             && r.completedSteps == Some(CountSuccess(r.steps)))
            || r.ToView() == Fallback(full.ok, full.status, full.stopReason, r.resultBytes)
  {
    hide Faithful, NoStop, Reason, Size, StepsReduced, Sparing, CountSuccess, RunLog, Fallback;
    var startedAt := world.Now();
    var deadline := startedAt + o.maxDurationMs;
    var status := world.ReadStatus();
    initial := status;
    seen := [];
    var early := EarlyStop(status, o.guards);
    var reports, reason := [], AllDone;
    NothingLogged();
    if early.Some? {
      reason := early.value;
    } else {
      reports, reason, seen := RunSteps(steps, o, status, deadline, world);
      ReasonIsDoneOnlyWhenDone(steps, o, initial, seen, reports);
      ReasonWhenShort(steps, initial, o.stopOn, seen);
    }
    var finishedAt := world.Now();
    var ok := early.None? && reason == AllDone && |reports| == |steps|;
    var view := View(ok, if ok then Completed else Stopped, reason, reports, Some(CountSuccess(reports)),
                     Some(Max(0, finishedAt - startedAt)), 0, Some(false));
    full := view;
    r := Bounded(view, o.maxResultBytes);
  }

  method Bounded(v: View, maxBytes: nat) returns (r: BoundResult.Result)
    requires v.completedSteps == Some(CountSuccess(v.steps))
    ensures fresh(r)
    ensures r.ok == v.ok && r.status == v.status && r.stopReason == v.stopReason
    ensures r.resultBytes == Size(r.ToView()) && (maxBytes >= MIN_RESULT_BYTES ==> r.resultBytes <= maxBytes)
    ensures (&& StepsReduced(v.steps, r.steps) && Sparing(v.steps, r.steps, maxBytes / 4)
             && r.completedSteps == Some(CountSuccess(r.steps)))
            || r.ToView() == Fallback(v.ok, v.status, v.stopReason, r.resultBytes)
  {
    hide Size, StepsReduced, Sparing, CountSuccess, Measured, Stage;
    var input := new BoundResult.Result(v);
    ghost var n;
    r, n := Bound(input, maxBytes);
    StageIsReduced(v, maxBytes / 4, n);
  }

  lemma NothingLogged()
    ensures RunLog([]) == []
    ensures CountSuccess([]) == 0
  {
  }

  lemma ReasonWhenShort(steps: seq<Step>, initial: Option<Status>, stopOn: set<Trigger>, seen: seq<Observed>)
    ensures |seen| < |steps| && NoStop(initial, stopOn, seen) ==> Reason(steps, initial, stopOn, seen) == Timeout
  {
  }

  // ----- what a faithful run means -----

  /** The reports carry indices 0, 1, ... in order; all but possibly the last succeed; and a
  step that is reported as a success made all its calls. */
  lemma ReportsTellTheRun(steps: seq<Step>, g: Guards, initial: Option<Status>, stopOn: set<Trigger>,
                          seen: seq<Observed>, reports: seq<StepReport>, i: nat)
    requires Faithful(steps, g, initial, stopOn, seen, reports) && i < |reports|
    ensures reports[i].index == i && reports[i].op == OperationOf(steps[i])
    ensures reports[i].ok <==> reports[i].status == Success
    ensures i < |reports| - 1 ==> reports[i].ok
    ensures reports[i].ok ==> |seen[i].asked| == |CallsOf(steps[i], GuardsAt(steps, i, g))|
    ensures reports[i].ok ==> reports[i].error.None?
    ensures !reports[i].ok ==> reports[i].summary.None? && reports[i].error.Some?
  {
    hide CallsOf, GuardsAt, FirstWrite, StatusStopReason, RawStopReason, NavigationDetected, StatusBefore, Mentions;
    assert reports[i] == ReportOf(i, steps[i], seen[i], reports[i].elapsedMs);
    assert Honest(seen[i], CallsOf(steps[i], GuardsAt(steps, i, g)));
  }

  lemma {:induction false} AllSuccesses(reports: seq<StepReport>)
    ensures CountSuccess(reports) == |reports| <==> forall i :: 0 <= i < |reports| ==> reports[i].status == Success
    ensures CountSuccess(reports) <= |reports|
  {
    if reports != [] {
      AllSuccesses(reports[..|reports| - 1]);
    }
  }

  /** A run is ok exactly when every step has a report, every report is a success, and no
  stop condition fired, not even after the last step. */
  lemma OkMeansDone(v: View, steps: seq<Step>, o: RunOptions, initial: Option<Status>, seen: seq<Observed>)
    requires FullResult(v, steps, o, initial, seen)
    ensures v.ok <==> && EarlyStop(initial, o.guards).None?
                      && |v.steps| == |steps| && CountSuccess(v.steps) == |steps| && NoStop(initial, o.stopOn, seen)
    ensures v.ok ==> v.stopReason == AllDone
  {
    hide CountSuccess, EarlyStop, Honest, Reason;
    AllSuccesses(v.steps);
    if EarlyStop(initial, o.guards).None? {
      ReasonIsDoneOnlyWhenDone(steps, o, initial, seen, v.steps);
      if |seen| == |steps| && NoStop(initial, o.stopOn, seen) {
        forall i | 0 <= i < |v.steps|
          ensures v.steps[i].status == Success
        {
          NoStopIsSuccess(steps, o, initial, seen, v.steps, i);
        }
      }
    }
  }

  lemma NoStopIsSuccess(steps: seq<Step>, o: RunOptions, initial: Option<Status>, seen: seq<Observed>, reports: seq<StepReport>, i: nat)
    requires Faithful(steps, o.guards, initial, o.stopOn, seen, reports) && NoStop(initial, o.stopOn, seen) && i < |reports|
    ensures reports[i].status == Success
  {
    hide Honest, CallsOf, GuardsAt, StatusBefore, StatusStopReason, RawStopReason, NavigationDetected, Mentions;
    assert reports[i] == ReportOf(i, steps[i], seen[i], reports[i].elapsedMs);
    assert StopOf(StatusBefore(initial, seen, i), seen[i], o.stopOn) == None;
  }

  /** The guards reach the adapter only with the first call of the first write step. */
  lemma OnlyFirstWriteIsGuarded(steps: seq<Step>, g: Guards, i: nat, k: nat)
    requires i < |steps| && k < |CallsOf(steps[i], GuardsAt(steps, i, g))|
    ensures var call := CallsOf(steps[i], GuardsAt(steps, i, g))[k];
            call.guards == if i == FirstWrite(steps) && k == 0 then g else NO_GUARDS
  {
  }

  /** How a step failed: by the adapter's own answer, or given up at the deadline. The calls of
  a step that is given up still settle, each in its way. */
  datatype Fate = AdapterFailed | GivenUp(settles: nat -> Answer)

  /** The calls that an invocation makes after its first `made` calls: the next one follows
  only when the one before it has succeeded. */
  function CallsAfter(calls: seq<Call>, made: nat, settles: nat -> Answer): (r: seq<Call>)
    requires 0 < made <= |calls|
    ensures |r| <= |calls| - made && r == calls[made..made + |r|]
    decreases |calls| - made
  {
    if made == |calls| || settles(made - 1).Raised? then []
    else
      var rest := CallsAfter(calls, made + 1, settles);
      assert [calls[made]] + calls[made + 1..made + 1 + |rest|] == calls[made..made + 1 + |rest|];
      [calls[made]] + rest
  }

  /** The calls of a failed step that reach the adapter after the run has returned. */
  function LateCalls(s: Step, g: Guards, o: Observed, fate: Fate): seq<Call>
    requires |o.asked| <= |CallsOf(s, g)|
  {
    if o.asked == [] || fate.AdapterFailed? then [] else CallsAfter(CallsOf(s, g), |o.asked|, fate.settles)
  }

  /** A failed step makes calls after the run's return exactly when it was given up at the
  deadline during a call that succeeded after all, and it is a select with values left. They
  carry no precondition and select values that were left, in order; all of them follow
  exactly when each one before the last succeeds. */
  lemma OnlySelectsGoOn(s: Step, g: Guards, o: Observed, fate: Fate)
    requires Honest(o, CallsOf(s, g)) && o.answer.Raised?
    ensures var late := LateCalls(s, g, o, fate);
            && (late != [] <==>
                  && fate.GivenUp? && o.asked != [] && fate.settles(|o.asked| - 1).Returned?
                  && s.Select? && s.values.Some? && |o.asked| < |s.values.value|)
            && |o.asked| + |late| <= |CallsOf(s, g)|
            && (forall i :: 0 <= i < |late| ==> late[i] == CallsOf(s, NO_GUARDS)[|o.asked| + i])
            && (fate.GivenUp? && o.asked != [] ==>
                  (|o.asked| + |late| == |CallsOf(s, g)| <==>
                     forall k :: |o.asked| - 1 <= k < |CallsOf(s, g)| - 1 ==> fate.settles(k).Returned?))
  {
    if fate.GivenUp? && o.asked != [] {
      CallsFollow(CallsOf(s, g), |o.asked|, fate.settles);
    }
  }

  lemma {:induction false} CallsFollow(calls: seq<Call>, made: nat, settles: nat -> Answer)
    requires 0 < made <= |calls|
    ensures made + |CallsAfter(calls, made, settles)| == |calls| <==>
              forall k :: made - 1 <= k < |calls| - 1 ==> settles(k).Returned?
    decreases |calls| - made
  {
    if made < |calls| && settles(made - 1).Returned? {
      CallsFollow(calls, made + 1, settles);
    }
  }

  /** A new interrupt of a type that must always stop the run is let through exactly when
  the last interrupt of the step is a dialog or download that the caller tolerates: only the
  last type is looked at. */
  lemma InterruptIsMissed(before: Option<Status>, after: Status, stopOn: set<Trigger>)
    requires NewInterrupt(before, after) && !Unsafe(after) && (before.value.challengeDetected || !after.challengeDetected)
    ensures StatusStopReason(before, Some(after), stopOn) == None <==>
              && stopOn != {} && OnInterrupt !in stopOn
              && (|| (LatestType(after) == Some(Ascii("DIALOG_BLOCKED")) && OnDialog !in stopOn)
                  || (LatestType(after) == Some(Ascii("DOWNLOAD_BLOCKED")) && OnDownload !in stopOn))
  {
    hide Ascii;
    DialogIsNotDownload();
  }

  /** A blocked dialog or download that the caller has not asked to stop at. */
  predicate ToleratedType(latest: Option<Str>, stopOn: set<Trigger>) {
    && stopOn != {} && OnInterrupt !in stopOn
    && (|| (latest == Some(Ascii("DIALOG_BLOCKED")) && OnDialog !in stopOn)
        || (latest == Some(Ascii("DOWNLOAD_BLOCKED")) && OnDownload !in stopOn))
  }

  predicate Tolerated(s: Status, stopOn: set<Trigger>) { ToleratedType(LatestType(s), stopOn) }

  lemma InterruptStops(latest: Option<Str>, stopOn: set<Trigger>)
    ensures InterruptStop(latest, stopOn) == (if ToleratedType(latest, stopOn) then None else Some(Interrupt))
  {
    hide Ascii;
    DialogIsNotDownload();
  }

  /** The status after a step lets the run go on exactly when there is no new challenge, no
  takeover or error, and no new interrupt but a tolerated dialog or download. A new challenge
  is the reason that is given first. */
  lemma StatusLetsRunGoOn(before: Option<Status>, after: Status, stopOn: set<Trigger>)
    ensures var stop := StatusStopReason(before, Some(after), stopOn);
            var challenged := after.challengeDetected && !(before.Some? && before.value.challengeDetected);
            && (stop == None <==> !challenged && !Unsafe(after) && (NewInterrupt(before, after) ==> Tolerated(after, stopOn)))
            && (stop.Some? ==> stop.value == if challenged then Challenge else Interrupt)
  {
    hide Ascii, Unsafe, NewInterrupt, LatestType, InterruptStop, ToleratedType;
    InterruptStops(LatestType(after), stopOn);
  }

  predicate Blocked(interruptType: Option<Str>) {
    interruptType == Some(Ascii("DIALOG_BLOCKED")) || interruptType == Some(Ascii("DOWNLOAD_BLOCKED"))
  }

  /** Does the result carry an interrupt that is not a blocked dialog or download? */
  predicate OtherInterrupt(raw: Raw) {
    !Blocked(raw.interruptType) && (raw.interruptType.Some? || raw.interrupted || raw.hasInterrupt)
  }

  /** A step's own result lets the run go on exactly when it carries no challenge, no interrupt
  but a tolerated dialog or download, and, unless it carries one of those, no challenge and
  no blocking interrupt in the status inside it. So a challenge in the inner status is missed
  behind a tolerated dialog. */
  lemma RawLetsRunGoOn(raw: Raw, stopOn: set<Trigger>)
    ensures var stop := RawStopReason(raw, stopOn);
            var counted := raw.nested.latestInterruptSequence.Some? || raw.nested.interruptTotal.Some?;
            && (stop == None <==>
                  && !raw.challenge
                  && (if Blocked(raw.interruptType) then ToleratedType(raw.interruptType, stopOn)
                      else
                        && !OtherInterrupt(raw) && !raw.nested.challengeDetected
                        && (counted && raw.blocked ==> ToleratedType(LatestType(raw.nested), stopOn))))
            && (stop.Some? ==>
                  stop.value == if raw.challenge || (!Blocked(raw.interruptType) && !OtherInterrupt(raw) && raw.nested.challengeDetected)
                                then Challenge else Interrupt)
  {
    hide Ascii, LatestType, InterruptStop, ToleratedType;
    InterruptStops(raw.interruptType, stopOn);
    InterruptStops(LatestType(raw.nested), stopOn);
  }

  /** The page has changed under a step: its revision was known before and after, and differs. */
  predicate Navigated(before: Option<Status>, after: Option<Status>, raw: Raw) {
    && before.Some? && before.value.pageRevision.Some?
    && if after.Some? && after.value.pageRevision.Some? then after.value.pageRevision != before.value.pageRevision
       else raw.revision.Some? && raw.revision != before.value.pageRevision
  }

  /** A step that was answered stops the run exactly when its status or its result does, or,
  if the caller asked for that, when the page has changed. */
  lemma StopTells(before: Option<Status>, o: Observed, stopOn: set<Trigger>)
    requires o.answer.Returned?
    ensures var raw := o.answer.raw;
            var status, result := StatusStopReason(before, o.after, stopOn), RawStopReason(raw, stopOn);
            && (StopOf(before, o, stopOn) == None <==>
                  status.None? && result.None? && (OnNavigation in stopOn ==> !Navigated(before, o.after, raw)))
            && (StopOf(before, o, stopOn) == Some(Navigation) <==>
                  status.None? && result.None? && OnNavigation in stopOn && Navigated(before, o.after, raw))
  {
    hide Ascii, LatestType, InterruptStop, Unsafe, NewInterrupt;
    if o.after.Some? {
      StatusLetsRunGoOn(before, o.after.value, stopOn);
    }
    RawLetsRunGoOn(o.answer.raw, stopOn);
  }

  /** The reason that a failure gives: a timeout and a revision mismatch are told by their
  codes, and only those are retryable whatever the adapter says; the revisions come with a
  mismatch only. */
  lemma FailureTells(f: Failure)
    ensures var c := ClassifyFailure(f);
            && c.code == f.code
            && (c.reason == Timeout <==> f.code == Ascii("WORKFLOW_TIMEOUT") || f.code == Ascii("ACTION_TIMEOUT"))
            && (c.reason == Challenge ==> Mentions(f.code, "CHALLENGE"))
            && (Mentions(f.code, "CHALLENGE") ==> c.reason == Challenge || c.reason == Timeout)
            && (c.reason == RevisionMismatch <==> f.code == Ascii("PAGE_REVISION_MISMATCH") && !Mentions(f.code, "CHALLENGE"))
            && (c.reason == Interrupt ==> IsInterruptCode(f.code))
            && (c.reason == Failed ==> !IsInterruptCode(f.code))
            && (c.retryable <==> f.retryable || c.reason == Timeout || c.reason == RevisionMismatch)
            && (c.expected.Some? || c.actual.Some? ==> f.code == Ascii("PAGE_REVISION_MISMATCH"))
  {
    hide Mentions, IsInterruptCode;
    CodesDiffer();
  }

  lemma CodesDiffer()
    ensures Ascii("PAGE_REVISION_MISMATCH") != Ascii("WORKFLOW_TIMEOUT") && Ascii("PAGE_REVISION_MISMATCH") != Ascii("ACTION_TIMEOUT")
  {
    assert |Ascii("PAGE_REVISION_MISMATCH")| == 22 && |Ascii("WORKFLOW_TIMEOUT")| == 16 && |Ascii("ACTION_TIMEOUT")| == 14;
  }

  /** What a report says of its step: on success the revision read afterwards, or else the one
  in the answer, and the answer's summary; on failure its code, and never a summary. */
  lemma ReportTells(steps: seq<Step>, g: Guards, initial: Option<Status>, stopOn: set<Trigger>,
                    seen: seq<Observed>, reports: seq<StepReport>, i: nat)
    requires Faithful(steps, g, initial, stopOn, seen, reports) && i < |reports|
    ensures match seen[i].answer
            case Returned(raw) =>
              && reports[i].status == Success && reports[i].error == None
              && reports[i].revision == (if seen[i].after.Some? && seen[i].after.value.pageRevision.Some?
                                         then seen[i].after.value.pageRevision else raw.revision)
              && reports[i].summary == Some(raw.summary.(revision := reports[i].revision))
            case Raised(f) =>
              && reports[i].summary == None && reports[i].error.Some?
              && reports[i].error.value.code == f.code
              && (reports[i].status == Interrupted <==> ClassifyFailure(f).reason == Interrupt)
              && (reports[i].status == Error <==> ClassifyFailure(f).reason != Interrupt)
              && reports[i].revision == reports[i].error.value.actualRevision == ClassifyFailure(f).actual
  {
    hide CallsOf, GuardsAt, StopOf, StatusBefore, FailureReason, Honest;
    assert reports[i] == ReportOf(i, steps[i], seen[i], reports[i].elapsedMs);
  }

  /** A run makes its first step exactly when the status before it, as far as it is known,
  shows the tab and the revision that the caller expects, and no challenge. */
  lemma StartsWhen(initial: Option<Status>, g: Guards)
    ensures var stop := EarlyStop(initial, g);
            var moved := initial.Some? &&
                         (|| (g.expectedTabId.Some? && initial.value.tabId.Some? && g.expectedTabId != initial.value.tabId)
                          || (g.expectedPageRevision.Some? && initial.value.pageRevision.Some?
                              && g.expectedPageRevision != initial.value.pageRevision));
            && (stop == Some(RevisionMismatch) <==> moved)
            && (stop == Some(Challenge) <==> !moved && initial.Some? && initial.value.challengeDetected)
            && (stop == None <==> !moved && (initial.Some? ==> !initial.value.challengeDetected))
  {
  }

  /** A normalised step says the same by `clear` and `clearFirst`, and by `compact` and
  `format`, so it does not matter which of them the executor prefers. */
  lemma PreferenceDoesNotMatter(s: Step, l: Limits, httpUrl: Str -> bool, g: Guards)
    requires ValidStep(s, l, httpUrl)
    ensures s.Type? ==> CallsOf(s, g)[0].request.clearFirst == (if s.clear.Some? then s.clear else s.clearFirst)
    ensures s.Snapshot? ==>
              CallsOf(s, g)[0].request.format == (if s.compact.Some? then Some(if s.compact.value then Compact else Structured) else s.format)
    ensures Askable(s)
  {
  }

  lemma DialogIsNotDownload()
    ensures Ascii("DIALOG_BLOCKED") != Ascii("DOWNLOAD_BLOCKED")
  {
    assert Ascii("DIALOG_BLOCKED")[1] != Ascii("DOWNLOAD_BLOCKED")[1];
  }

  /** For instance a blocked popup that is followed by a tolerated dialog in the same step. */
  lemma PopupBehindDialogIsMissed(n: nat)
    ensures var before := Status(None, None, None, false, Some(n), [], Some(n));
            var after := Status(None, None, None, false, Some(n + 2), [Ascii("POPUP_BLOCKED"), Ascii("DIALOG_BLOCKED")], Some(n + 2));
            StatusStopReason(Some(before), Some(after), {OnNavigation}) == None
  {
    hide Ascii;
  }
}
