/** The workflow language and its normaliser (src/browser/workflow.ts): untrusted JSON
becomes a bounded workflow, or is refused. */
module WorkflowSteps {
  import opened Common
  import opened Text
  import SnapshotText
  import opened WorkflowResult

  // ----- workflows -----

  datatype Target =
    | Opaque(ref: Str)                                         // a plain string
    | ByRole(role: Str, name: Str, exact: Option<bool>)
    | ByLabel(caption: Str, exact: Option<bool>)
    | ByTestId(testId: Str)
    | ByRef(ref: Str)

  datatype Choice = Plain(text: Str) | Value(text: Str) | Caption(text: Str)

  datatype ElementState = Visible | Hidden | Enabled

  datatype Condition = Condition(ref: Str, state: ElementState)

  datatype WaitUntil = DomContentLoaded | Load

  datatype Direction = Up | Down | Left | Right

  datatype Format = Structured | Compact

  datatype Step =
    | Open(url: Str, waitUntil: Option<WaitUntil>, timeoutMs: Option<nat>)
    | Click(target: Target, timeoutMs: Option<nat>)
    | Type(target: Target, text: Str, clear: Option<bool>, clearFirst: Option<bool>, submit: Option<bool>,
           sensitive: Option<bool>, timeoutMs: Option<nat>)
    | Select(target: Target, choice: Option<Choice>, values: Option<seq<Str>>, timeoutMs: Option<nat>)
    | Scroll(direction: Direction, amount: nat, place: Option<Target>)
    | Wait(durationMs: Option<nat>, condition: Option<Condition>, place: Option<Target>, timeoutMs: Option<nat>)
    | Snapshot(maxNodes: Option<nat>, maxChars: Option<nat>, maxBytes: Option<nat>, includeText: Option<bool>,
               compact: Option<bool>, format: Option<Format>)

  datatype Trigger =
    | OnNavigation | OnChallenge | OnDialog | OnDownload | OnInterrupt | OnRevisionMismatch | OnError | OnAmbiguity | OnTimeout

  datatype Workflow = Workflow(
    steps: seq<Step>, actionId: Option<Str>, expectedPageRevision: Option<nat>, expectedTabId: Option<Str>,
    maxDurationMs: nat, maxResultBytes: nat, stopOn: seq<Trigger>)

  function OperationOf(s: Step): Operation {
    match s
    case Open(_, _, _) => OpOpen
    case Click(_, _) => OpClick
    case Type(_, _, _, _, _, _, _) => OpType
    case Select(_, _, _, _) => OpSelect
    case Scroll(_, _, _) => OpScroll
    case Wait(_, _, _, _) => OpWait
    case Snapshot(_, _, _, _, _, _) => OpSnapshot
  }

  // ----- limits -----

  const MAX_STEPS := 100
  const MAX_DURATION_MS := 5 * 60_000
  const MAX_RESULT_BYTES := 1_024 * 1_024
  const MIN_RESULT_BYTES := 100
  const MAX_SNAPSHOT_BYTES := 4 * 1024 * 1024
  const MAX_SCROLL_AMOUNT := 20
  const MAX_ACTION_TIMEOUT_MS := 5 * 60_000
  const MAX_WAIT_DURATION_MS := 10_000
  const MAX_SNAPSHOT_CHARS := 50_000
  const MAX_SNAPSHOT_NODES := 2_000
  const MAX_TEXT_CHARS := 10_000
  const MAX_TARGET_CHARS := 500
  const MAX_TEST_ID_CHARS := 128
  const MAX_ROLE_CHARS := 64
  const MAX_URL_CHARS := 2_048
  const MAX_CHOICE_CHARS := 1_000
  const MAX_VALUE_CHARS := 200
  const MAX_VALUES := 32
  const MAX_TAB_ID_CHARS := 100

  datatype Limits = Limits(maxSteps: int, maxDurationMs: int, maxResultBytes: int, maxSnapshotBytes: int, maxScrollAmount: int)

  /** None for a requested limit that is not a safe integer. */
  datatype Requested = Requested(maxSteps: Option<int>, maxDurationMs: Option<int>, maxResultBytes: Option<int>,
                                 maxSnapshotBytes: Option<int>, maxScrollAmount: Option<int>)

  function ClampLimit(value: Option<int>, minimum: int, maximum: int, fallback: int): int {
    match value
    case None => fallback
    case Some(v) => Max(minimum, Min(maximum, v))
  }

  /** The limits that apply, `defaults` being those of the default policy. */
  function ResolveLimits(r: Requested, defaults: Limits): Limits {
    Limits(ClampLimit(r.maxSteps, 1, MAX_STEPS, defaults.maxSteps),
           ClampLimit(r.maxDurationMs, 1, MAX_DURATION_MS, defaults.maxDurationMs),
           ClampLimit(r.maxResultBytes, MIN_RESULT_BYTES, MAX_RESULT_BYTES, defaults.maxResultBytes),
           ClampLimit(r.maxSnapshotBytes, 100, MAX_SNAPSHOT_BYTES, defaults.maxSnapshotBytes),
           ClampLimit(r.maxScrollAmount, 1, MAX_SCROLL_AMOUNT, defaults.maxScrollAmount))
  }

  predicate WithinHardLimits(l: Limits) {
    && 1 <= l.maxSteps <= MAX_STEPS && 1 <= l.maxDurationMs <= MAX_DURATION_MS
    && MIN_RESULT_BYTES <= l.maxResultBytes <= MAX_RESULT_BYTES
    && 100 <= l.maxSnapshotBytes <= MAX_SNAPSHOT_BYTES && 1 <= l.maxScrollAmount <= MAX_SCROLL_AMOUNT
  }

  // ----- what is accepted -----

  predicate Hex(u: CodeUnit) { 0x30 <= u <= 0x39 || 0x41 <= u <= 0x46 || 0x61 <= u <= 0x66 }

  /** A UUID of version 1 to 8 with the standard variant, in either case. */
  predicate ActionIdShape(s: Str) {
    && |s| == 36
    && (forall i :: 0 <= i < 36 ==> if i == 8 || i == 13 || i == 18 || i == 23 then s[i] == 0x2D else Hex(s[i]))
    && 0x31 <= s[14] <= 0x38
    && (s[19] == 0x38 || s[19] == 0x39 || s[19] == 0x41 || s[19] == 0x42 || s[19] == 0x61 || s[19] == 0x62)
  }

  predicate RefUnit(u: CodeUnit) {
    0x30 <= u <= 0x39 || 0x41 <= u <= 0x5A || 0x61 <= u <= 0x7A || u == 0x5F || u == 0x2D
  }

  predicate RefShape(s: Str) {
    && 5 <= |s| <= 100 && s[0] == 'r' as int && s[1] == 'e' as int && s[2] == 'f' as int && s[3] == '_' as int
    && forall i :: 4 <= i < |s| ==> RefUnit(s[i])
  }

  predicate BoundedString(s: Str, max: nat) { 0 < |s| <= max }

  predicate InRange(n: Option<nat>, low: int, high: int) { n.Some? ==> low <= n.value <= high }

  predicate ValidTarget(t: Target) {
    match t
    case Opaque(ref) => RefShape(ref)
    case ByRole(role, name, _) => BoundedString(role, MAX_ROLE_CHARS) && BoundedString(name, MAX_TARGET_CHARS)
    case ByLabel(caption, _) => BoundedString(caption, MAX_TARGET_CHARS)
    case ByTestId(id) => BoundedString(id, MAX_TEST_ID_CHARS)
    case ByRef(ref) => RefShape(ref)
  }

  predicate ValidStep(s: Step, l: Limits, httpUrl: Str -> bool) {
    match s
    case Open(url, _, timeout) => BoundedString(url, MAX_URL_CHARS) && httpUrl(url) && InRange(timeout, 1, MAX_ACTION_TIMEOUT_MS)
    case Click(target, timeout) => ValidTarget(target) && InRange(timeout, 1, MAX_ACTION_TIMEOUT_MS)
    case Type(target, text, clear, clearFirst, _, _, timeout) =>
      && ValidTarget(target) && |text| <= MAX_TEXT_CHARS && InRange(timeout, 1, MAX_ACTION_TIMEOUT_MS)
      && (clear.Some? && clearFirst.Some? ==> clear == clearFirst)
    case Select(target, choice, values, timeout) =>
      && ValidTarget(target) && InRange(timeout, 1, MAX_ACTION_TIMEOUT_MS)
      && (choice.Some? <==> values.None?)
      && (choice.Some? ==> BoundedString(choice.value.text, MAX_CHOICE_CHARS))
      && (values.Some? ==> 1 <= |values.value| <= MAX_VALUES
                           && forall i :: 0 <= i < |values.value| ==> BoundedString(values.value[i], MAX_VALUE_CHARS))
    case Scroll(_, amount, place) => 1 <= amount <= l.maxScrollAmount && (place.Some? ==> ValidTarget(place.value))
    case Wait(duration, condition, place, timeout) =>
      && InRange(duration, 1, MAX_WAIT_DURATION_MS) && InRange(timeout, 1, MAX_WAIT_DURATION_MS)
      && (condition.Some? ==> RefShape(condition.value.ref)) && (place.Some? ==> ValidTarget(place.value))
      && (duration.Some? ==> condition.None? && place.None?) && (condition.Some? ==> place.None?)
      && (duration.Some? || condition.Some? || place.Some?)
    case Snapshot(nodes, chars, bytes, _, compact, format) =>
      && InRange(nodes, 1, MAX_SNAPSHOT_NODES) && InRange(chars, 100, MAX_SNAPSHOT_CHARS)
      && InRange(bytes, 100, Min(MAX_SNAPSHOT_BYTES, l.maxSnapshotBytes))
      && (compact.Some? && format.Some? ==> compact.value == format.value.Compact?)
  }

  predicate Distinct(ts: seq<Trigger>) { forall i, j :: 0 <= i < j < |ts| ==> ts[i] != ts[j] }

  predicate ValidTabId(s: Str) {
    BoundedString(s, MAX_TAB_ID_CHARS) && forall i :: 0 <= i < |s| ==> !SnapshotText.Control(s[i])
  }

  predicate ValidWorkflow(w: Workflow, l: Limits, httpUrl: Str -> bool) {
    && 1 <= |w.steps| <= l.maxSteps
    && (forall i :: 0 <= i < |w.steps| ==> ValidStep(w.steps[i], l, httpUrl))
    && (w.actionId.Some? ==> ActionIdShape(w.actionId.value))
    && InRange(w.expectedPageRevision, 0, MAX_SAFE_INTEGER)
    && (w.expectedTabId.Some? ==> ValidTabId(w.expectedTabId.value))
    && 1 <= w.maxDurationMs <= l.maxDurationMs
    && MIN_RESULT_BYTES <= w.maxResultBytes <= l.maxResultBytes
    && Distinct(w.stopOn)
  }

  predicate InsideOf(v: Option<int>, low: int, high: int) { v.Some? && low <= v.value <= high }

  /** A requested limit inside the hard ones is kept, and any other is moved inside them. */
  lemma LimitsAreWithin(r: Requested, defaults: Limits)
    requires WithinHardLimits(defaults)
    ensures WithinHardLimits(ResolveLimits(r, defaults))
    ensures var l := ResolveLimits(r, defaults);
            && (InsideOf(r.maxSteps, 1, MAX_STEPS) ==> l.maxSteps == r.maxSteps.value)
            && (InsideOf(r.maxDurationMs, 1, MAX_DURATION_MS) ==> l.maxDurationMs == r.maxDurationMs.value)
            && (InsideOf(r.maxResultBytes, MIN_RESULT_BYTES, MAX_RESULT_BYTES) ==> l.maxResultBytes == r.maxResultBytes.value)
            && (InsideOf(r.maxSnapshotBytes, 100, MAX_SNAPSHOT_BYTES) ==> l.maxSnapshotBytes == r.maxSnapshotBytes.value)
            && (InsideOf(r.maxScrollAmount, 1, MAX_SCROLL_AMOUNT) ==> l.maxScrollAmount == r.maxScrollAmount.value)
  {
  }
}
