/** `normalizeWorkflow` and its validators (src/browser/workflow.ts). A field name stands for
itself in `Key`; every name that the language does not know is `Unknown`. */
module WorkflowNormalize {
  import opened Common
  import opened Text
  import opened Json
  import opened WorkflowResult
  import opened WorkflowSteps

  datatype Key =
    | KSteps | KActionId | KExpectedPageRevision | KExpectedTabId | KMaxDurationMs | KMaxResultBytes | KStopOn
    | KOp | KUrl | KWaitUntil | KTimeoutMs | KTarget | KText | KClear | KClearFirst | KSubmit | KSensitive
    | KValue | KLabel | KChoice | KValues | KDirection | KAmount | KMilliseconds | KDurationMs | KCondition
    | KMaxNodes | KMaxChars | KMaxBytes | KIncludeText | KCompact | KFormat
    | KRole | KName | KExact | KTestId | KRef | KState
    | Unknown(name: Str)

  /** Untrusted input. A number is a natural number or something else. */
  datatype Input =
    | Missing
    | Nil
    | Flag(b: bool)
    | Natural(n: nat)
    | OtherNumber
    | Txt(s: Str)
    | List(items: seq<Input>)
    | Fields(fields: map<Key, Input>)

  datatype ValidationError = InvalidWorkflow | StepLimitExceeded

  datatype Outcome<+T> = Accepted(value: T) | Refused(error: ValidationError) {
    predicate IsFailure() { Refused? }

    function PropagateFailure<U>(): Outcome<U>
      requires Refused?
    {
      Refused(error)
    }

    function Extract(): T
      requires Accepted?
    {
      value
    }
  }

  function Invalid<T>(): Outcome<T> { Refused(InvalidWorkflow) }

  function Get(v: Input, k: Key): Input {
    if v.Fields? && k in v.fields then v.fields[k] else Missing
  }

  predicate OnlyKeys(v: Input, allowed: set<Key>) {
    v.Fields? && v.fields.Keys <= allowed
  }

  // ----- scalar fields -----

  function BoundedNat(v: Input, low: int, high: int): Outcome<nat> {
    if v.Natural? && v.n <= MAX_SAFE_INTEGER && low <= v.n <= high then Accepted(v.n) else Invalid()
  }

  function OptionalNat(v: Input, low: int, high: int): Outcome<Option<nat>> {
    if v.Missing? then Accepted(None)
    else
      var n :- BoundedNat(v, low, high);
      Accepted(Some(n))
  }

  function OptionalBool(v: Input): Outcome<Option<bool>> {
    if v.Missing? then Accepted(None) else if v.Flag? then Accepted(Some(v.b)) else Invalid()
  }

  function StringUpTo(v: Input, max: nat): Outcome<Str> {
    if v.Txt? && BoundedString(v.s, max) then Accepted(v.s) else Invalid()
  }

  function ValidateRef(v: Input): Outcome<Str> {
    if v.Txt? && RefShape(v.s) then Accepted(v.s) else Invalid()
  }

  function OptionalWaitUntil(v: Input): Outcome<Option<WaitUntil>> {
    if v.Missing? then Accepted(None)
    else if v == Txt(Ascii("domcontentloaded")) then Accepted(Some(DomContentLoaded))
    else if v == Txt(Ascii("load")) then Accepted(Some(Load))
    else Invalid()
  }

  function OptionalFormat(v: Input): Outcome<Option<Format>> {
    if v.Missing? then Accepted(None)
    else if v == Txt(Ascii("structured")) then Accepted(Some(Structured))
    else if v == Txt(Ascii("compact")) then Accepted(Some(Compact))
    else Invalid()
  }

  function ValidateDirection(v: Input): Outcome<Direction> {
    if v == Txt(Ascii("up")) then Accepted(Up)
    else if v == Txt(Ascii("down")) then Accepted(Down)
    else if v == Txt(Ascii("left")) then Accepted(Left)
    else if v == Txt(Ascii("right")) then Accepted(Right)
    else Invalid()
  }

  function ValidateState(v: Input): Outcome<ElementState> {
    if v == Txt(Ascii("visible")) then Accepted(Visible)
    else if v == Txt(Ascii("hidden")) then Accepted(Hidden)
    else if v == Txt(Ascii("enabled")) then Accepted(Enabled)
    else Invalid()
  }

  function ValidateOp(v: Input): Outcome<Operation> {
    if v == Txt(Ascii("open")) then Accepted(OpOpen)
    else if v == Txt(Ascii("click")) then Accepted(OpClick)
    else if v == Txt(Ascii("type")) then Accepted(OpType)
    else if v == Txt(Ascii("select")) then Accepted(OpSelect)
    else if v == Txt(Ascii("scroll")) then Accepted(OpScroll)
    else if v == Txt(Ascii("wait")) then Accepted(OpWait)
    else if v == Txt(Ascii("snapshot")) then Accepted(OpSnapshot)
    else Invalid()
  }

  function ValidateTrigger(v: Input): Outcome<Trigger> {
    if v == Txt(Ascii("navigation")) then Accepted(OnNavigation)
    else if v == Txt(Ascii("challenge")) then Accepted(OnChallenge)
    else if v == Txt(Ascii("dialog")) then Accepted(OnDialog)
    else if v == Txt(Ascii("download")) then Accepted(OnDownload)
    else if v == Txt(Ascii("interrupt")) then Accepted(OnInterrupt)
    else if v == Txt(Ascii("revision_mismatch")) then Accepted(OnRevisionMismatch)
    else if v == Txt(Ascii("error")) then Accepted(OnError)
    else if v == Txt(Ascii("ambiguity")) then Accepted(OnAmbiguity)
    else if v == Txt(Ascii("timeout")) then Accepted(OnTimeout)
    else Invalid()
  }

  // ----- targets, choices, conditions -----

  function Count(b: bool): nat { if b then 1 else 0 }

  function ValidateTarget(v: Input): Outcome<Target> {
    if v.Txt? then
      var ref :- ValidateRef(v);
      Accepted(Opaque(ref))
    else if !OnlyKeys(v, {KRole, KName, KExact, KLabel, KTestId, KRef}) then Invalid()
    else
      var hasRole := Get(v, KRole) != Missing || Get(v, KName) != Missing;
      var hasLabel, hasTestId, hasRef := Get(v, KLabel) != Missing, Get(v, KTestId) != Missing, Get(v, KRef) != Missing;
      if Count(hasRole) + Count(hasLabel) + Count(hasTestId) + Count(hasRef) != 1 then Invalid()
      else if hasRole then
        var role :- StringUpTo(Get(v, KRole), MAX_ROLE_CHARS);
        var name :- StringUpTo(Get(v, KName), MAX_TARGET_CHARS);
        var exact :- OptionalBool(Get(v, KExact));
        Accepted(ByRole(role, name, exact))
      else if hasLabel then
        var caption :- StringUpTo(Get(v, KLabel), MAX_TARGET_CHARS);
        var exact :- OptionalBool(Get(v, KExact));
        Accepted(ByLabel(caption, exact))
      else if hasTestId then
        var id :- StringUpTo(Get(v, KTestId), MAX_TEST_ID_CHARS);
        if Get(v, KExact) != Missing then Invalid() else Accepted(ByTestId(id))
      else if Get(v, KExact) != Missing then Invalid()
      else
        var ref :- ValidateRef(Get(v, KRef));
        Accepted(ByRef(ref))
  }

  function OptionalTarget(v: Input): Outcome<Option<Target>> {
    if v.Missing? then Accepted(None)
    else
      var t :- ValidateTarget(v);
      Accepted(Some(t))
  }

  function ValidateChoice(v: Input): Outcome<Choice> {
    if v.Txt? then
      var text :- StringUpTo(v, MAX_CHOICE_CHARS);
      Accepted(Plain(text))
    else if !OnlyKeys(v, {KValue, KLabel}) then Invalid()
    else
      var hasValue, hasLabel := Get(v, KValue) != Missing, Get(v, KLabel) != Missing;
      if hasValue == hasLabel then Invalid()
      else
        var text :- StringUpTo(Get(v, if hasValue then KValue else KLabel), MAX_CHOICE_CHARS);
        Accepted(if hasValue then Value(text) else Caption(text))
  }

  function ValidateCondition(v: Input): Outcome<Condition> {
    if !OnlyKeys(v, {KRef, KState}) then Invalid()
    else
      var ref :- ValidateRef(Get(v, KRef));
      var state :- ValidateState(Get(v, KState));
      Accepted(Condition(ref, state))
  }

  function OptionalCondition(v: Input): Outcome<Option<Condition>> {
    if v.Missing? then Accepted(None)
    else
      var c :- ValidateCondition(v);
      Accepted(Some(c))
  }

  function ValidateValues(items: seq<Input>): Outcome<seq<Str>> {
    if items == [] then Accepted([])
    else
      var first :- StringUpTo(items[0], MAX_VALUE_CHARS);
      var rest :- ValidateValues(items[1..]);
      Accepted([first] + rest)
  }

  // ----- the seven kinds of steps -----

  function NormalizeOpen(v: Input, httpUrl: Str -> bool): Outcome<Step> {
    if !OnlyKeys(v, {KOp, KUrl, KWaitUntil, KTimeoutMs}) then Invalid()
    else
      var waitUntil :- OptionalWaitUntil(Get(v, KWaitUntil));
      var timeout :- OptionalNat(Get(v, KTimeoutMs), 1, MAX_ACTION_TIMEOUT_MS);
      var url :- StringUpTo(Get(v, KUrl), MAX_URL_CHARS);
      if httpUrl(url) then Accepted(Open(url, waitUntil, timeout)) else Invalid()
  }

  function NormalizeClick(v: Input): Outcome<Step> {
    if !OnlyKeys(v, {KOp, KTarget, KTimeoutMs}) then Invalid()
    else
      var timeout :- OptionalNat(Get(v, KTimeoutMs), 1, MAX_ACTION_TIMEOUT_MS);
      var target :- ValidateTarget(Get(v, KTarget));
      Accepted(Click(target, timeout))
  }

  function NormalizeType(v: Input): Outcome<Step> {
    if !OnlyKeys(v, {KOp, KTarget, KText, KClear, KClearFirst, KSubmit, KSensitive, KTimeoutMs}) then Invalid()
    else if !Get(v, KText).Txt? || |Get(v, KText).s| > MAX_TEXT_CHARS then Invalid()
    else
      var clear :- OptionalBool(Get(v, KClear));
      var clearFirst :- OptionalBool(Get(v, KClearFirst));
      if clear.Some? && clearFirst.Some? && clear != clearFirst then Invalid()
      else
        var submit :- OptionalBool(Get(v, KSubmit));
        var sensitive :- OptionalBool(Get(v, KSensitive));
        var timeout :- OptionalNat(Get(v, KTimeoutMs), 1, MAX_ACTION_TIMEOUT_MS);
        var target :- ValidateTarget(Get(v, KTarget));
        Accepted(Type(target, Get(v, KText).s, clear, clearFirst, submit, sensitive, timeout))
  }

  /** The choice or the values of a select step: exactly one of the four forms. */
  function SelectForms(v: Input): Outcome<(Option<Choice>, Option<seq<Str>>)> {
    var hasValue, hasLabel := Get(v, KValue) != Missing, Get(v, KLabel) != Missing;
    var hasChoice, values := Get(v, KChoice) != Missing, Get(v, KValues);
    if values != Missing then
      if hasValue || hasLabel || hasChoice || !values.List? || !(1 <= |values.items| <= MAX_VALUES) then Invalid()
      else
        var texts :- ValidateValues(values.items);
        Accepted((None, Some(texts)))
    else if hasChoice then
      if hasValue || hasLabel then Invalid()
      else
        var choice :- ValidateChoice(Get(v, KChoice));
        Accepted((Some(choice), None))
    else if hasValue == hasLabel then Invalid()
    else
      var text :- StringUpTo(Get(v, if hasValue then KValue else KLabel), MAX_CHOICE_CHARS);
      Accepted((Some(if hasValue then Value(text) else Caption(text)), None))
  }

  function NormalizeSelect(v: Input): Outcome<Step> {
    if !OnlyKeys(v, {KOp, KTarget, KValue, KLabel, KChoice, KValues, KTimeoutMs}) then Invalid()
    else
      var forms :- SelectForms(v);
      var timeout :- OptionalNat(Get(v, KTimeoutMs), 1, MAX_ACTION_TIMEOUT_MS);
      var target :- ValidateTarget(Get(v, KTarget));
      Accepted(Select(target, forms.0, forms.1, timeout))
  }

  function NormalizeScroll(v: Input, l: Limits): Outcome<Step> {
    if !OnlyKeys(v, {KOp, KDirection, KAmount, KTarget}) then Invalid()
    else
      var direction :- ValidateDirection(Get(v, KDirection));
      var amount :- OptionalNat(Get(v, KAmount), 1, l.maxScrollAmount);
      var place :- OptionalTarget(Get(v, KTarget));
      Accepted(Scroll(direction, amount.GetOr(1), place))
  }

  function NormalizeWait(v: Input): Outcome<Step> {
    if !OnlyKeys(v, {KOp, KMilliseconds, KDurationMs, KCondition, KTarget, KTimeoutMs}) then Invalid()
    else if Get(v, KMilliseconds) != Missing && Get(v, KDurationMs) != Missing then Invalid()
    else
      var duration :- OptionalNat(if Get(v, KMilliseconds) != Missing then Get(v, KMilliseconds) else Get(v, KDurationMs), 1, MAX_WAIT_DURATION_MS);
      var condition :- OptionalCondition(Get(v, KCondition));
      var place :- OptionalTarget(Get(v, KTarget));
      if duration.None? && condition.None? && place.None? then Invalid()
      else if duration.Some? && (condition.Some? || place.Some?) then Invalid()
      else if condition.Some? && place.Some? then Invalid()
      else
        var timeout :- OptionalNat(Get(v, KTimeoutMs), 1, MAX_WAIT_DURATION_MS);
        Accepted(Wait(duration, condition, place, timeout))
  }

  function NormalizeSnapshot(v: Input, l: Limits): Outcome<Step> {
    if !OnlyKeys(v, {KOp, KMaxNodes, KMaxChars, KMaxBytes, KIncludeText, KCompact, KFormat}) then Invalid()
    else
      var nodes :- OptionalNat(Get(v, KMaxNodes), 1, MAX_SNAPSHOT_NODES);
      var chars :- OptionalNat(Get(v, KMaxChars), 100, MAX_SNAPSHOT_CHARS);
      var bytes :- OptionalNat(Get(v, KMaxBytes), 100, Min(MAX_SNAPSHOT_BYTES, l.maxSnapshotBytes));
      var includeText :- OptionalBool(Get(v, KIncludeText));
      var compact :- OptionalBool(Get(v, KCompact));
      var format :- OptionalFormat(Get(v, KFormat));
      if compact.Some? && format.Some? && compact.value != format.value.Compact? then Invalid()
      else Accepted(Snapshot(nodes, chars, bytes, includeText, compact, format))
  }

  function NormalizeStep(v: Input, l: Limits, httpUrl: Str -> bool): Outcome<Step> {
    if !v.Fields? then Invalid()
    else
      var op :- ValidateOp(Get(v, KOp));
      match op
      case OpOpen => NormalizeOpen(v, httpUrl)
      case OpClick => NormalizeClick(v)
      case OpType => NormalizeType(v)
      case OpSelect => NormalizeSelect(v)
      case OpScroll => NormalizeScroll(v, l)
      case OpWait => NormalizeWait(v)
      case OpSnapshot => NormalizeSnapshot(v, l)
  }

  // ----- the workflow -----

  function NormalizeSteps(items: seq<Input>, l: Limits, httpUrl: Str -> bool): Outcome<seq<Step>> {
    if items == [] then Accepted([])
    else
      var first :- NormalizeStep(items[0], l, httpUrl);
      var rest :- NormalizeSteps(items[1..], l, httpUrl);
      Accepted([first] + rest)
  }

  /** A set of triggers, in the order in which they were first named. */
  function NormalizeStopOn(items: seq<Input>): Outcome<seq<Trigger>> {
    if items == [] then Accepted([])
    else
      var rest :- NormalizeStopOn(items[..|items| - 1]);
      var last :- ValidateTrigger(items[|items| - 1]);
      Accepted(if last in rest then rest else rest + [last])
  }

  function OptionalStopOn(v: Input): Outcome<seq<Trigger>> {
    if v.Missing? then Accepted([]) else if v.List? then NormalizeStopOn(v.items) else Invalid()
  }

  function OptionalActionId(v: Input): Outcome<Option<Str>> {
    if v.Missing? then Accepted(None)
    else if v.Txt? && ActionIdShape(v.s) then Accepted(Some(v.s))
    else Invalid()
  }

  function OptionalTabId(v: Input): Outcome<Option<Str>> {
    if v.Missing? then Accepted(None)
    else if v.Txt? && ValidTabId(v.s) then Accepted(Some(v.s))
    else Invalid()
  }

  /** `v ?? option ?? limit`: missing and null both fall through. */
  function Candidate(v: Input, option: Option<nat>, limit: int): Input {
    if v.Missing? || v.Nil? then Natural(Max(0, option.GetOr(Max(0, limit)))) else v
  }

  function NormalizeWorkflow(v: Input, l: Limits, maxDurationMs: Option<nat>, maxResultBytes: Option<nat>,
                             httpUrl: Str -> bool): Outcome<Workflow> {
    if !OnlyKeys(v, {KSteps, KActionId, KExpectedPageRevision, KExpectedTabId, KMaxDurationMs, KMaxResultBytes, KStopOn})
       || !Get(v, KSteps).List? then Invalid()
    else
      var items := Get(v, KSteps).items;
      if |items| > l.maxSteps then Refused(StepLimitExceeded)
      else if items == [] then Invalid()
      else
        var actionId :- OptionalActionId(Get(v, KActionId));
        var revision :- OptionalNat(Get(v, KExpectedPageRevision), 0, MAX_SAFE_INTEGER);
        var tabId :- OptionalTabId(Get(v, KExpectedTabId));
        var duration :- BoundedNat(Candidate(Get(v, KMaxDurationMs), maxDurationMs, l.maxDurationMs), 1, l.maxDurationMs);
        var bytes :- BoundedNat(Candidate(Get(v, KMaxResultBytes), maxResultBytes, l.maxResultBytes), MIN_RESULT_BYTES, l.maxResultBytes);
        var stopOn :- OptionalStopOn(Get(v, KStopOn));
        var steps :- NormalizeSteps(items, l, httpUrl);
        Accepted(Workflow(steps, actionId, revision, tabId, duration, bytes, stopOn))
  }

  // ----- what is accepted is bounded -----

  lemma TargetIsValid(v: Input)
    ensures ValidateTarget(v).Accepted? ==> ValidTarget(ValidateTarget(v).value)
  {
    hide RefShape, OnlyKeys;
  }

  lemma OptionalTargetIsValid(v: Input)
    ensures OptionalTarget(v).Accepted? && OptionalTarget(v).value.Some? ==> ValidTarget(OptionalTarget(v).value.value)
  {
    TargetIsValid(v);
  }

  lemma {:induction false} ValuesAreValid(items: seq<Input>)
    ensures ValidateValues(items).Accepted? ==>
              && |ValidateValues(items).value| == |items|
              && forall i :: 0 <= i < |items| ==> BoundedString(ValidateValues(items).value[i], MAX_VALUE_CHARS)
  {
    if items != [] {
      ValuesAreValid(items[1..]);
    }
  }

  lemma SelectFormsAreValid(v: Input)
    ensures SelectForms(v).Accepted? ==>
              var (choice, values) := SelectForms(v).value;
              && (choice.Some? <==> values.None?)
              && (choice.Some? ==> BoundedString(choice.value.text, MAX_CHOICE_CHARS))
              && (values.Some? ==> 1 <= |values.value| <= MAX_VALUES
                                   && forall i :: 0 <= i < |values.value| ==> BoundedString(values.value[i], MAX_VALUE_CHARS))
  {
    hide ValidateValues, OnlyKeys;
    if Get(v, KValues).List? {
      ValuesAreValid(Get(v, KValues).items);
    }
  }

  lemma WaitIsValid(v: Input, l: Limits, httpUrl: Str -> bool)
    ensures NormalizeWait(v).Accepted? ==> ValidStep(NormalizeWait(v).value, l, httpUrl)
  {
    hide OptionalTarget, ValidTarget, RefShape, OnlyKeys, ValidateState;
    OptionalTargetIsValid(Get(v, KTarget));
  }

  lemma TypeIsValid(v: Input, l: Limits, httpUrl: Str -> bool)
    ensures NormalizeType(v).Accepted? ==> ValidStep(NormalizeType(v).value, l, httpUrl)
  {
    hide ValidateTarget, ValidTarget, OnlyKeys;
    TargetIsValid(Get(v, KTarget));
  }

  lemma PointerStepsAreValid(v: Input, l: Limits, httpUrl: Str -> bool)
    requires 1 <= l.maxScrollAmount
    ensures NormalizeClick(v).Accepted? ==> ValidStep(NormalizeClick(v).value, l, httpUrl)
    ensures NormalizeScroll(v, l).Accepted? ==> ValidStep(NormalizeScroll(v, l).value, l, httpUrl)
  {
    hide ValidateTarget, ValidTarget, OptionalTarget, OnlyKeys, ValidateDirection;
    TargetIsValid(Get(v, KTarget));
    OptionalTargetIsValid(Get(v, KTarget));
  }

  lemma SelectIsValid(v: Input, l: Limits, httpUrl: Str -> bool)
    ensures NormalizeSelect(v).Accepted? ==> ValidStep(NormalizeSelect(v).value, l, httpUrl)
  {
    hide ValidateTarget, ValidTarget, OnlyKeys, SelectForms;
    TargetIsValid(Get(v, KTarget));
    SelectFormsAreValid(v);
  }

  lemma PageStepsAreValid(v: Input, l: Limits, httpUrl: Str -> bool)
    ensures NormalizeOpen(v, httpUrl).Accepted? ==> ValidStep(NormalizeOpen(v, httpUrl).value, l, httpUrl)
    ensures NormalizeSnapshot(v, l).Accepted? ==> ValidStep(NormalizeSnapshot(v, l).value, l, httpUrl)
  {
    hide OnlyKeys, OptionalWaitUntil, OptionalFormat;
  }

  lemma StepIsValid(v: Input, l: Limits, httpUrl: Str -> bool)
    requires 1 <= l.maxScrollAmount
    ensures NormalizeStep(v, l, httpUrl).Accepted? ==> ValidStep(NormalizeStep(v, l, httpUrl).value, l, httpUrl)
  {
    hide ValidStep, ValidateOp, NormalizeOpen, NormalizeClick, NormalizeType, NormalizeSelect, NormalizeScroll, NormalizeWait, NormalizeSnapshot;
    PointerStepsAreValid(v, l, httpUrl);
    SelectIsValid(v, l, httpUrl);
    PageStepsAreValid(v, l, httpUrl);
    WaitIsValid(v, l, httpUrl);
    TypeIsValid(v, l, httpUrl);
  }

  lemma {:induction false} StepsAreValid(items: seq<Input>, l: Limits, httpUrl: Str -> bool)
    requires 1 <= l.maxScrollAmount
    ensures var r := NormalizeSteps(items, l, httpUrl);
            r.Accepted? ==> |r.value| == |items| && forall i :: 0 <= i < |items| ==> ValidStep(r.value[i], l, httpUrl)
  {
    hide NormalizeStep, ValidStep;
    if items != [] {
      StepIsValid(items[0], l, httpUrl);
      StepsAreValid(items[1..], l, httpUrl);
    }
  }

  lemma {:induction false} StopOnIsDistinct(items: seq<Input>)
    ensures NormalizeStopOn(items).Accepted? ==> Distinct(NormalizeStopOn(items).value)
  {
    hide ValidateTrigger;
    if items != [] {
      StopOnIsDistinct(items[..|items| - 1]);
    }
  }

  /** Every count, duration and size of an accepted workflow is inside the limits. */
  lemma WorkflowIsValid(v: Input, l: Limits, maxDurationMs: Option<nat>, maxResultBytes: Option<nat>, httpUrl: Str -> bool)
    requires 1 <= l.maxScrollAmount
    ensures var r := NormalizeWorkflow(v, l, maxDurationMs, maxResultBytes, httpUrl);
            r.Accepted? ==> ValidWorkflow(r.value, l, httpUrl)
  {
    hide NormalizeSteps, NormalizeStopOn, ValidStep, ActionIdShape, ValidTabId, OnlyKeys, Distinct, Candidate;
    if Get(v, KSteps).List? {
      StepsAreValid(Get(v, KSteps).items, l, httpUrl);
    }
    if Get(v, KStopOn).List? {
      StopOnIsDistinct(Get(v, KStopOn).items);
    }
    NothingIsDistinct();
  }

  lemma NothingIsDistinct()
    ensures Distinct([])
  {
  }

  // ----- the public form of a workflow -----

  function Put(m: map<Key, Input>, k: Key, v: Input): map<Key, Input> {
    if v.Missing? then m else m[k := v]
  }

  function NatInput(n: Option<nat>): Input { if n.Some? then Natural(n.value) else Missing }

  function BoolInput(b: Option<bool>): Input { if b.Some? then Flag(b.value) else Missing }

  function TextInput(s: Option<Str>): Input { if s.Some? then Txt(s.value) else Missing }

  function WaitUntilText(w: WaitUntil): string { if w.Load? then "load" else "domcontentloaded" }

  function FormatText(f: Format): string { if f.Compact? then "compact" else "structured" }

  function DirectionText(d: Direction): string {
    match d case Up => "up" case Down => "down" case Left => "left" case Right => "right"
  }

  function StateText(s: ElementState): string {
    match s case Visible => "visible" case Hidden => "hidden" case Enabled => "enabled"
  }

  function TriggerText(t: Trigger): string {
    match t
    case OnNavigation => "navigation"
    case OnChallenge => "challenge"
    case OnDialog => "dialog"
    case OnDownload => "download"
    case OnInterrupt => "interrupt"
    case OnRevisionMismatch => "revision_mismatch"
    case OnError => "error"
    case OnAmbiguity => "ambiguity"
    case OnTimeout => "timeout"
  }

  function TargetInput(t: Target): Input {
    match t
    case Opaque(ref) => Txt(ref)
    case ByRole(role, name, exact) => Fields(Put(map[KRole := Txt(role), KName := Txt(name)], KExact, BoolInput(exact)))
    case ByLabel(caption, exact) => Fields(Put(map[KLabel := Txt(caption)], KExact, BoolInput(exact)))
    case ByTestId(id) => Fields(map[KTestId := Txt(id)])
    case ByRef(ref) => Fields(map[KRef := Txt(ref)])
  }

  function OptTargetInput(t: Option<Target>): Input { if t.Some? then TargetInput(t.value) else Missing }

  function ChoiceInput(c: Choice): Input {
    match c
    case Plain(text) => Txt(text)
    case Value(text) => Fields(map[KValue := Txt(text)])
    case Caption(text) => Fields(map[KLabel := Txt(text)])
  }

  function ConditionInput(c: Condition): Input {
    Fields(map[KRef := Txt(c.ref), KState := Txt(Ascii(StateText(c.state)))])
  }

  function TextInputs(values: seq<Str>): (r: seq<Input>)
    ensures |r| == |values| && forall i :: 0 <= i < |r| ==> r[i] == Txt(values[i])
  {
    seq(|values|, i requires 0 <= i < |values| => Txt(values[i]))
  }

  function OpInput(op: Operation): Input { Txt(Ascii(OperationText(op))) }

  /** The step as an object; only the fields that it has. */
  function StepFields(s: Step): map<Key, Input> {
    var m := map[KOp := OpInput(OperationOf(s))];
    match s
    case Open(url, waitUntil, timeout) =>
      Put(Put(m[KUrl := Txt(url)], KWaitUntil, if waitUntil.Some? then Txt(Ascii(WaitUntilText(waitUntil.value))) else Missing),
          KTimeoutMs, NatInput(timeout))
    case Click(target, timeout) => Put(m[KTarget := TargetInput(target)], KTimeoutMs, NatInput(timeout))
    case Type(target, text, clear, clearFirst, submit, sensitive, timeout) =>
      Put(Put(Put(Put(Put(m[KTarget := TargetInput(target)][KText := Txt(text)], KClear, BoolInput(clear)),
                      KClearFirst, BoolInput(clearFirst)), KSubmit, BoolInput(submit)),
              KSensitive, BoolInput(sensitive)), KTimeoutMs, NatInput(timeout))
    case Select(target, choice, values, timeout) =>
      Put(Put(Put(m[KTarget := TargetInput(target)], KChoice, if choice.Some? then ChoiceInput(choice.value) else Missing),
              KValues, if values.Some? then List(TextInputs(values.value)) else Missing), KTimeoutMs, NatInput(timeout))
    case Scroll(direction, amount, place) =>
      Put(m[KDirection := Txt(Ascii(DirectionText(direction)))][KAmount := Natural(amount)], KTarget, OptTargetInput(place))
    case Wait(duration, condition, place, timeout) =>
      Put(Put(Put(Put(m, KDurationMs, NatInput(duration)),
                  KCondition, if condition.Some? then ConditionInput(condition.value) else Missing),
              KTarget, OptTargetInput(place)), KTimeoutMs, NatInput(timeout))
    case Snapshot(nodes, chars, bytes, includeText, compact, format) =>
      Put(Put(Put(Put(Put(Put(m, KMaxNodes, NatInput(nodes)), KMaxChars, NatInput(chars)), KMaxBytes, NatInput(bytes)),
                      KIncludeText, BoolInput(includeText)), KCompact, BoolInput(compact)),
          KFormat, if format.Some? then Txt(Ascii(FormatText(format.value))) else Missing)
  }

  function StepInputs(steps: seq<Step>): (r: seq<Input>)
    ensures |r| == |steps| && forall i :: 0 <= i < |r| ==> r[i] == Fields(StepFields(steps[i]))
  {
    seq(|steps|, i requires 0 <= i < |steps| => Fields(StepFields(steps[i])))
  }

  function TriggerInputs(ts: seq<Trigger>): (r: seq<Input>)
    ensures |r| == |ts| && forall i :: 0 <= i < |r| ==> r[i] == Txt(Ascii(TriggerText(ts[i])))
  {
    seq(|ts|, i requires 0 <= i < |ts| => Txt(Ascii(TriggerText(ts[i]))))
  }

  function WorkflowInput(w: Workflow): Input {
    Fields(Put(Put(Put(map[KSteps := List(StepInputs(w.steps)), KMaxDurationMs := Natural(w.maxDurationMs),
                           KMaxResultBytes := Natural(w.maxResultBytes), KStopOn := List(TriggerInputs(w.stopOn))],
                       KActionId, TextInput(w.actionId)),
                   KExpectedPageRevision, NatInput(w.expectedPageRevision)), KExpectedTabId, TextInput(w.expectedTabId)))
  }

  lemma SnapshotSizes(s: Step)
    requires s.Snapshot?
    ensures var v := Fields(StepFields(s));
            && Get(v, KMaxNodes) == NatInput(s.maxNodes) && Get(v, KMaxChars) == NatInput(s.maxChars)
            && Get(v, KMaxBytes) == NatInput(s.maxBytes)
  {
    hide NatInput, BoolInput, Ascii, FormatText, OpInput;
  }

  lemma SnapshotOptions(s: Step)
    requires s.Snapshot?
    ensures var v := Fields(StepFields(s));
            && Get(v, KIncludeText) == BoolInput(s.includeText) && Get(v, KCompact) == BoolInput(s.compact)
            && Get(v, KFormat) == (if s.format.Some? then Txt(Ascii(FormatText(s.format.value))) else Missing)
  {
    hide NatInput, BoolInput, Ascii, FormatText, OpInput;
  }

  lemma SnapshotKeys(s: Step)
    requires s.Snapshot?
    ensures OnlyKeys(Fields(StepFields(s)), {KOp, KMaxNodes, KMaxChars, KMaxBytes, KIncludeText, KCompact, KFormat})
  {
    hide NatInput, BoolInput, Ascii, FormatText, OpInput;
  }

  lemma TypeFlags(s: Step)
    requires s.Type?
    ensures var v := Fields(StepFields(s));
            && Get(v, KClear) == BoolInput(s.clear) && Get(v, KClearFirst) == BoolInput(s.clearFirst)
            && Get(v, KSubmit) == BoolInput(s.submit) && Get(v, KSensitive) == BoolInput(s.sensitive)
  {
    hide NatInput, BoolInput, TargetInput, OpInput;
  }

  lemma TypeRest(s: Step)
    requires s.Type?
    ensures var v := Fields(StepFields(s));
            && Get(v, KTarget) == TargetInput(s.target) && Get(v, KText) == Txt(s.text)
            && Get(v, KTimeoutMs) == NatInput(s.timeoutMs)
  {
    hide NatInput, BoolInput, TargetInput, OpInput;
  }

  lemma TypeKeys(s: Step)
    requires s.Type?
    ensures OnlyKeys(Fields(StepFields(s)), {KOp, KTarget, KText, KClear, KClearFirst, KSubmit, KSensitive, KTimeoutMs})
  {
    hide NatInput, BoolInput, TargetInput, OpInput;
  }

  // ----- names are told apart -----

  lemma DifferentStart(a: string, b: string)
    requires a != [] && b != [] && a[0] != b[0] && a[0] < 128 as char && b[0] < 128 as char
    ensures Ascii(a) != Ascii(b)
  {
    assert Ascii(a)[0] != Ascii(b)[0];
  }

  lemma DifferentAt(a: string, b: string, i: nat)
    requires i < |a| && i < |b| && a[i] != b[i] && a[i] < 128 as char && b[i] < 128 as char
    ensures Ascii(a) != Ascii(b)
  {
    assert Ascii(a)[i] != Ascii(b)[i];
  }

  lemma OpIsRead(op: Operation)
    ensures ValidateOp(OpInput(op)) == Accepted(op)
  {
    hide Ascii;
    DifferentStart("type", "open");
    DifferentStart("type", "click");
    DifferentStart("wait", "open");
    DifferentStart("wait", "type");
    DifferentAt("scroll", "select", 1);
  }

  lemma WaitUntilIsRead(w: WaitUntil)
    ensures OptionalWaitUntil(Txt(Ascii(WaitUntilText(w)))) == Accepted(Some(w))
  {
    hide Ascii;
    DifferentStart("load", "domcontentloaded");
  }

  lemma FormatIsRead(f: Format)
    ensures OptionalFormat(Txt(Ascii(FormatText(f)))) == Accepted(Some(f))
  {
    hide Ascii;
    DifferentStart("structured", "compact");
  }

  lemma DirectionIsRead(d: Direction)
    ensures ValidateDirection(Txt(Ascii(DirectionText(d)))) == Accepted(d)
  {
    hide Ascii;
    DifferentStart("down", "left");
    DifferentStart("left", "right");
    DifferentStart("down", "right");
    DifferentStart("up", "down");
    DifferentStart("up", "left");
    DifferentStart("up", "right");
  }

  lemma StateIsRead(s: ElementState)
    ensures ValidateState(Txt(Ascii(StateText(s)))) == Accepted(s)
  {
    hide Ascii;
    DifferentStart("visible", "hidden");
    DifferentStart("visible", "enabled");
    DifferentStart("hidden", "enabled");
  }

  lemma TriggerIsRead(t: Trigger)
    ensures ValidateTrigger(Txt(Ascii(TriggerText(t)))) == Accepted(t)
  {
    hide Ascii;
    DifferentStart("challenge", "navigation");
    DifferentStart("challenge", "interrupt");
    DifferentStart("navigation", "interrupt");
    DifferentStart("challenge", "ambiguity");
    DifferentStart("navigation", "ambiguity");
    DifferentStart("interrupt", "ambiguity");
    DifferentStart("dialog", "error");
    DifferentStart("download", "timeout");
    DifferentLengths();
  }

  lemma DifferentLengths()
    ensures |Ascii("navigation")| == 10 && |Ascii("challenge")| == 9 && |Ascii("dialog")| == 6 && |Ascii("download")| == 8
    ensures |Ascii("interrupt")| == 9 && |Ascii("revision_mismatch")| == 17 && |Ascii("error")| == 5
    ensures |Ascii("ambiguity")| == 9 && |Ascii("timeout")| == 7
  {
  }

  // ----- a bounded workflow is accepted unchanged -----

  lemma TargetIsRead(t: Target)
    requires ValidTarget(t)
    ensures ValidateTarget(TargetInput(t)) == Accepted(t) && TargetInput(t) != Missing
  {
    hide RefShape;
  }

  lemma OptionalTargetIsRead(t: Option<Target>)
    requires t.Some? ==> ValidTarget(t.value)
    ensures OptionalTarget(OptTargetInput(t)) == Accepted(t)
  {
    hide ValidateTarget, TargetInput, ValidTarget;
    if t.Some? {
      TargetIsRead(t.value);
    }
  }

  lemma ChoiceIsRead(c: Choice)
    requires BoundedString(c.text, MAX_CHOICE_CHARS)
    ensures ValidateChoice(ChoiceInput(c)) == Accepted(c) && ChoiceInput(c) != Missing
  {
  }

  lemma ConditionIsRead(c: Condition)
    requires RefShape(c.ref)
    ensures ValidateCondition(ConditionInput(c)) == Accepted(c)
  {
    hide RefShape, Ascii, ValidateState;
    StateIsRead(c.state);
  }

  lemma {:induction false} ValuesAreRead(values: seq<Str>)
    requires forall i :: 0 <= i < |values| ==> BoundedString(values[i], MAX_VALUE_CHARS)
    ensures ValidateValues(TextInputs(values)) == Accepted(values)
  {
    if values != [] {
      assert TextInputs(values)[1..] == TextInputs(values[1..]);
      ValuesAreRead(values[1..]);
      assert values == [values[0]] + values[1..];
    }
  }

  lemma OptionalNatIsRead(n: Option<nat>, low: int, high: int)
    requires InRange(n, low, high) && high <= MAX_SAFE_INTEGER
    ensures OptionalNat(NatInput(n), low, high) == Accepted(n)
  {
  }

  lemma OptionalBoolIsRead(b: Option<bool>)
    ensures OptionalBool(BoolInput(b)) == Accepted(b)
  {
  }

  lemma OpenIsRead(s: Step, l: Limits, httpUrl: Str -> bool)
    requires s.Open? && ValidStep(s, l, httpUrl)
    ensures NormalizeOpen(Fields(StepFields(s)), httpUrl) == Accepted(s)
  {
    hide OptionalNat, OptionalWaitUntil, Ascii, OperationText;
    OptionalNatIsRead(s.timeoutMs, 1, MAX_ACTION_TIMEOUT_MS);
    if s.waitUntil.Some? {
      WaitUntilIsRead(s.waitUntil.value);
    } else {
      MissingIsNone();
    }
  }

  lemma MissingIsNone()
    ensures OptionalWaitUntil(Missing) == Accepted(None) && OptionalFormat(Missing) == Accepted(None)
    ensures OptionalCondition(Missing) == Accepted(None)
  {
  }

  lemma ClickIsRead(s: Step, l: Limits, httpUrl: Str -> bool)
    requires s.Click? && ValidStep(s, l, httpUrl)
    ensures NormalizeClick(Fields(StepFields(s))) == Accepted(s)
  {
    hide OptionalNat, Ascii, OperationText, ValidateTarget, TargetInput, ValidTarget;
    OptionalNatIsRead(s.timeoutMs, 1, MAX_ACTION_TIMEOUT_MS);
    TargetIsRead(s.target);
  }

  lemma TypeIsRead(s: Step, l: Limits, httpUrl: Str -> bool)
    requires s.Type? && ValidStep(s, l, httpUrl)
    ensures NormalizeType(Fields(StepFields(s))) == Accepted(s)
  {
    hide OptionalNat, OptionalBool, ValidateTarget, TargetInput, ValidTarget, StepFields, OnlyKeys, Get;
    TypeFlags(s);
    TypeRest(s);
    TypeKeys(s);
    OptionalNatIsRead(s.timeoutMs, 1, MAX_ACTION_TIMEOUT_MS);
    OptionalBoolIsRead(s.clear);
    OptionalBoolIsRead(s.clearFirst);
    OptionalBoolIsRead(s.submit);
    OptionalBoolIsRead(s.sensitive);
    TargetIsRead(s.target);
  }

  lemma SelectIsRead(s: Step, l: Limits, httpUrl: Str -> bool)
    requires s.Select? && ValidStep(s, l, httpUrl)
    ensures NormalizeSelect(Fields(StepFields(s))) == Accepted(s)
  {
    hide OptionalNat, Ascii, OperationText, ValidateTarget, TargetInput, ValidTarget, ValidateChoice, ChoiceInput, ValidateValues;
    OptionalNatIsRead(s.timeoutMs, 1, MAX_ACTION_TIMEOUT_MS);
    TargetIsRead(s.target);
    if s.choice.Some? {
      ChoiceIsRead(s.choice.value);
    } else {
      ValuesAreRead(s.values.value);
    }
  }

  lemma ScrollIsRead(s: Step, l: Limits, httpUrl: Str -> bool)
    requires s.Scroll? && ValidStep(s, l, httpUrl) && l.maxScrollAmount <= MAX_SCROLL_AMOUNT
    ensures NormalizeScroll(Fields(StepFields(s)), l) == Accepted(s)
  {
    hide OptionalNat, Ascii, OperationText, OptionalTarget, OptTargetInput, ValidTarget, ValidateDirection;
    OptionalNatIsRead(Some(s.amount), 1, l.maxScrollAmount);
    OptionalTargetIsRead(s.place);
    DirectionIsRead(s.direction);
  }

  lemma WaitIsRead(s: Step, l: Limits, httpUrl: Str -> bool)
    requires s.Wait? && ValidStep(s, l, httpUrl)
    ensures NormalizeWait(Fields(StepFields(s))) == Accepted(s)
  {
    hide OptionalNat, Ascii, OperationText, OptionalTarget, OptTargetInput, ValidTarget, ValidateCondition, RefShape;
    OptionalNatIsRead(s.durationMs, 1, MAX_WAIT_DURATION_MS);
    OptionalNatIsRead(s.timeoutMs, 1, MAX_WAIT_DURATION_MS);
    OptionalTargetIsRead(s.place);
    if s.condition.Some? {
      ConditionIsRead(s.condition.value);
    }
  }

  lemma SnapshotIsRead(s: Step, l: Limits, httpUrl: Str -> bool)
    requires s.Snapshot? && ValidStep(s, l, httpUrl)
    ensures NormalizeSnapshot(Fields(StepFields(s)), l) == Accepted(s)
  {
    hide OptionalNat, OptionalBool, OptionalFormat, Ascii, FormatText, StepFields, OnlyKeys, Get;
    SnapshotSizes(s);
    SnapshotOptions(s);
    SnapshotKeys(s);
    OptionalNatIsRead(s.maxNodes, 1, MAX_SNAPSHOT_NODES);
    OptionalNatIsRead(s.maxChars, 100, MAX_SNAPSHOT_CHARS);
    OptionalNatIsRead(s.maxBytes, 100, Min(MAX_SNAPSHOT_BYTES, l.maxSnapshotBytes));
    OptionalBoolIsRead(s.includeText);
    OptionalBoolIsRead(s.compact);
    if s.format.Some? {
      FormatIsRead(s.format.value);
    } else {
      MissingIsNone();
    }
  }

  lemma OpOfFields(s: Step)
    ensures Get(Fields(StepFields(s)), KOp) == OpInput(OperationOf(s))
  {
  }

  /** A step inside the limits is accepted as it is. */
  lemma StepIsRead(s: Step, l: Limits, httpUrl: Str -> bool)
    requires ValidStep(s, l, httpUrl) && l.maxScrollAmount <= MAX_SCROLL_AMOUNT
    ensures NormalizeStep(Fields(StepFields(s)), l, httpUrl) == Accepted(s)
  {
    hide StepFields, ValidStep, OpInput, ValidateOp, NormalizeOpen, NormalizeClick, NormalizeType, NormalizeSelect,
         NormalizeScroll, NormalizeWait, NormalizeSnapshot;
    OpOfFields(s);
    OpIsRead(OperationOf(s));
    match s
    case Open(_, _, _) => OpenIsRead(s, l, httpUrl);
    case Click(_, _) => ClickIsRead(s, l, httpUrl);
    case Type(_, _, _, _, _, _, _) => TypeIsRead(s, l, httpUrl);
    case Select(_, _, _, _) => SelectIsRead(s, l, httpUrl);
    case Scroll(_, _, _) => ScrollIsRead(s, l, httpUrl);
    case Wait(_, _, _, _) => WaitIsRead(s, l, httpUrl);
    case Snapshot(_, _, _, _, _, _) => SnapshotIsRead(s, l, httpUrl);
  }

  lemma {:induction false} StepsAreRead(steps: seq<Step>, l: Limits, httpUrl: Str -> bool)
    requires l.maxScrollAmount <= MAX_SCROLL_AMOUNT
    requires forall i :: 0 <= i < |steps| ==> ValidStep(steps[i], l, httpUrl)
    ensures NormalizeSteps(StepInputs(steps), l, httpUrl) == Accepted(steps)
  {
    hide NormalizeStep, ValidStep, StepFields;
    if steps != [] {
      assert StepInputs(steps)[1..] == StepInputs(steps[1..]);
      StepIsRead(steps[0], l, httpUrl);
      StepsAreRead(steps[1..], l, httpUrl);
      assert steps == [steps[0]] + steps[1..];
    }
  }

  lemma {:induction false} StopOnIsRead(ts: seq<Trigger>)
    requires Distinct(ts)
    ensures NormalizeStopOn(TriggerInputs(ts)) == Accepted(ts)
  {
    hide ValidateTrigger, Ascii, TriggerText;
    if ts != [] {
      var n := |ts| - 1;
      assert TriggerInputs(ts)[..n] == TriggerInputs(ts[..n]);
      StopOnIsRead(ts[..n]);
      TriggerIsRead(ts[n]);
      assert ts == ts[..n] + [ts[n]];
    }
  }

  /** The fields of a workflow's object. */
  lemma WorkflowFields(w: Workflow)
    ensures var v := WorkflowInput(w);
            && OnlyKeys(v, {KSteps, KActionId, KExpectedPageRevision, KExpectedTabId, KMaxDurationMs, KMaxResultBytes, KStopOn})
            && Get(v, KSteps) == List(StepInputs(w.steps)) && Get(v, KStopOn) == List(TriggerInputs(w.stopOn))
            && Get(v, KMaxDurationMs) == Natural(w.maxDurationMs) && Get(v, KMaxResultBytes) == Natural(w.maxResultBytes)
            && Get(v, KActionId) == TextInput(w.actionId) && Get(v, KExpectedTabId) == TextInput(w.expectedTabId)
            && Get(v, KExpectedPageRevision) == NatInput(w.expectedPageRevision)
  {
    hide StepInputs, TriggerInputs, TextInput, NatInput;
  }

  /** A workflow inside the limits is accepted as it is, whatever the options say. */
  lemma WorkflowIsRead(w: Workflow, l: Limits, maxDurationMs: Option<nat>, maxResultBytes: Option<nat>, httpUrl: Str -> bool)
    requires ValidWorkflow(w, l, httpUrl) && WithinHardLimits(l)
    ensures NormalizeWorkflow(WorkflowInput(w), l, maxDurationMs, maxResultBytes, httpUrl) == Accepted(w)
  {
    hide WorkflowInput, Get, OnlyKeys, NormalizeSteps, NormalizeStopOn, ValidStep, ActionIdShape, ValidTabId, Distinct, OptionalNat;
    WorkflowFields(w);
    StepsAreRead(w.steps, l, httpUrl);
    StopOnIsRead(w.stopOn);
    OptionalNatIsRead(w.expectedPageRevision, 0, MAX_SAFE_INTEGER);
  }

  /** Normalising is idempotent: what an accepted workflow normalises to is accepted again,
  unchanged. */
  lemma NormalizeIsIdempotent(v: Input, l: Limits, maxDurationMs: Option<nat>, maxResultBytes: Option<nat>, httpUrl: Str -> bool)
    requires WithinHardLimits(l)
    ensures var r := NormalizeWorkflow(v, l, maxDurationMs, maxResultBytes, httpUrl);
            r.Accepted? ==> NormalizeWorkflow(WorkflowInput(r.value), l, maxDurationMs, maxResultBytes, httpUrl) == r
  {
    hide NormalizeWorkflow, WorkflowInput;
    var r := NormalizeWorkflow(v, l, maxDurationMs, maxResultBytes, httpUrl);
    if r.Accepted? {
      WorkflowIsValid(v, l, maxDurationMs, maxResultBytes, httpUrl);
      WorkflowIsRead(r.value, l, maxDurationMs, maxResultBytes, httpUrl);
    }
  }

  /** The normal forms are exactly the workflows inside the limits. */
  lemma NormalFormsAreValid(w: Workflow, l: Limits, maxDurationMs: Option<nat>, maxResultBytes: Option<nat>, httpUrl: Str -> bool)
    requires WithinHardLimits(l)
    ensures ValidWorkflow(w, l, httpUrl) <==>
              NormalizeWorkflow(WorkflowInput(w), l, maxDurationMs, maxResultBytes, httpUrl) == Accepted(w)
  {
    hide NormalizeWorkflow, WorkflowInput;
    WorkflowIsValid(WorkflowInput(w), l, maxDurationMs, maxResultBytes, httpUrl);
    if ValidWorkflow(w, l, httpUrl) {
      WorkflowIsRead(w, l, maxDurationMs, maxResultBytes, httpUrl);
    }
  }

  // ----- other spellings -----

  predicate NamesOperation(m: map<Key, Input>, op: Operation) { KOp in m && m[KOp] == OpInput(op) }

  lemma WaitsAlike(m: map<Key, Input>, v: Input)
    requires KMilliseconds !in m && KDurationMs !in m && !v.Missing?
    ensures NormalizeWait(Fields(m[KMilliseconds := v])) == NormalizeWait(Fields(m[KDurationMs := v]))
  {
    hide OptionalCondition, OptionalTarget, OptionalNat;
    SameKeysAllowed(m, KMilliseconds, KDurationMs, v, v, {KOp, KMilliseconds, KDurationMs, KCondition, KTarget, KTimeoutMs});
  }

  /** `milliseconds` is another name for `durationMs`, whatever else the step says. */
  lemma MillisecondsIsDuration(m: map<Key, Input>, v: Input, l: Limits, httpUrl: Str -> bool)
    requires NamesOperation(m, OpWait) && KMilliseconds !in m && KDurationMs !in m && !v.Missing?
    ensures NormalizeStep(Fields(m[KMilliseconds := v]), l, httpUrl) == NormalizeStep(Fields(m[KDurationMs := v]), l, httpUrl)
  {
    hide OpInput, ValidateOp, NormalizeWait;
    OpIsRead(OpWait);
    WaitsAlike(m, v);
  }

  lemma SameKeysAllowed(m: map<Key, Input>, j: Key, k: Key, v: Input, w: Input, allowed: set<Key>)
    requires j in allowed && k in allowed
    ensures OnlyKeys(Fields(m[j := v]), allowed) == OnlyKeys(Fields(m[k := w]), allowed) == OnlyKeys(Fields(m), allowed)
  {
    assert m[j := v].Keys == m.Keys + {j} && m[k := w].Keys == m.Keys + {k};
  }

  /** A value or a label given directly is the choice of that value or label, whatever else
  the step says. */
  lemma ValueIsChoice(m: map<Key, Input>, v: Input, byLabel: bool, l: Limits, httpUrl: Str -> bool)
    requires NamesOperation(m, OpSelect) && !v.Missing?
    requires KValue !in m && KLabel !in m && KChoice !in m && KValues !in m
    ensures var key := if byLabel then KLabel else KValue;
            NormalizeStep(Fields(m[key := v]), l, httpUrl) ==
            NormalizeStep(Fields(m[KChoice := Fields(map[key := v])]), l, httpUrl)
  {
    hide OpInput, ValidateOp, ValidateTarget, SelectForms, OptionalNat;
    OpIsRead(OpSelect);
    var key := if byLabel then KLabel else KValue;
    var a, b := Fields(m[key := v]), Fields(m[KChoice := Fields(map[key := v])]);
    SameKeysAllowed(m, key, KChoice, v, Fields(map[key := v]), {KOp, KTarget, KValue, KLabel, KChoice, KValues, KTimeoutMs});
    assert forall k :: k != key && k != KChoice ==> Get(a, k) == Get(b, k);
    ChoiceForms(m, v, key);
  }

  lemma ChoiceForms(m: map<Key, Input>, v: Input, key: Key)
    requires KValue !in m && KLabel !in m && KChoice !in m && KValues !in m && !v.Missing?
    requires key == KValue || key == KLabel
    ensures SelectForms(Fields(m[key := v])) == SelectForms(Fields(m[KChoice := Fields(map[key := v])]))
  {
    hide StringUpTo;
    var choice := Fields(map[key := v]);
    assert OnlyKeys(choice, {KValue, KLabel});
    assert Get(Fields(m[KChoice := choice]), KChoice) == choice;
  }

  lemma ScrollsAlike(m: map<Key, Input>, l: Limits)
    requires KAmount !in m && l.maxScrollAmount >= 1
    ensures NormalizeScroll(Fields(m), l) == NormalizeScroll(Fields(m[KAmount := Natural(1)]), l)
  {
    hide ValidateDirection, OptionalTarget;
    SameKeysAllowed(m, KAmount, KAmount, Natural(1), Natural(1), {KOp, KDirection, KAmount, KTarget});
  }

  /** A scroll without an amount scrolls by one, whatever else the step says. */
  lemma ScrollsByOne(m: map<Key, Input>, l: Limits, httpUrl: Str -> bool)
    requires NamesOperation(m, OpScroll) && KAmount !in m && l.maxScrollAmount >= 1
    ensures NormalizeStep(Fields(m), l, httpUrl) == NormalizeStep(Fields(m[KAmount := Natural(1)]), l, httpUrl)
  {
    hide OpInput, ValidateOp, NormalizeScroll;
    OpIsRead(OpScroll);
    ScrollsAlike(m, l);
  }

  /** A field that the operation does not know refuses the step. */
  lemma UnknownFieldIsRefused(v: Input, name: Str, l: Limits, httpUrl: Str -> bool)
    requires v.Fields? && Unknown(name) in v.fields
    ensures NormalizeStep(v, l, httpUrl) == Invalid()
  {
    hide OptionalNat, OptionalBool, ValidateTarget, SelectForms, OptionalTarget, OptionalCondition, OptionalFormat, OptionalWaitUntil, ValidateDirection;
  }
}
