/** `boundResult` (src/browser/workflow.ts): shrink a result in place until the JSON
that contains its own length fits a byte budget. */
module BoundResult {
  import opened Common
  import opened Text
  import opened Json
  import opened Decimal
  import opened WorkflowResult

  // ----- what the two shrinking passes do to one step -----

  predicate HasContent(s: StepReport) {
    && s.summary.Some? && s.summary.value.SnapshotSummary? && s.summary.value.content.Some?
  }

  predicate Overlong(s: StepReport, target: nat) {
    HasContent(s) && s.summary.value.content.value != [] && ByteLength(s.summary.value.content.value) > target
  }

  function Shortened(s: StepReport, target: nat): StepReport
    requires Overlong(s, target)
  {
    var cut := TruncateUtf8(s.summary.value.content.value, target);
    s.(summary := Some(s.summary.value.(content := Some(cut.value), contentBytes := Some(cut.bytes), truncated := Some(true))))
  }

  function Flag(b: bool): nat { if b then 1 else 0 }

  /** How many optional fields can still be deleted from a step. */
  function RemovableFields(s: StepReport): nat {
    (match s.summary
     case Some(SnapshotSummary(_, snapshotId, _, _, content, _, _)) => Flag(content.Some?) + Flag(snapshotId.Some?)
     case Some(OpenSummary(url, title, _)) => Flag(title.Some?) + Flag(url.Some?)
     case _ => 0)
    + Flag(s.error.Some? && s.error.value.message.Some?)
  }

  /** Deletes the first deletable field in the source's order of preference. */
  function Stripped(s: StepReport): StepReport
    requires RemovableFields(s) > 0
  {
    match s.summary
    case Some(SnapshotSummary(tabId, snapshotId, revision, format, content, bytes, truncated)) =>
      if content.Some? then
        s.(summary := Some(SnapshotSummary(tabId, snapshotId, revision, format, None, None, Some(true))))
      else if snapshotId.Some? then
        s.(summary := Some(SnapshotSummary(tabId, None, revision, format, content, bytes, truncated)))
      else StripMessage(s)
    case Some(OpenSummary(url, title, revision)) =>
      if title.Some? then s.(summary := Some(OpenSummary(url, None, revision)))
      else if url.Some? then s.(summary := Some(OpenSummary(None, title, revision)))
      else StripMessage(s)
    case _ => StripMessage(s)
  }

  function StripMessage(s: StepReport): StepReport {
    if s.error.Some? then s.(error := Some(s.error.value.(message := None))) else s
  }

  // ----- a reduced report still tells the truth -----

  predicate Kept<T(==)>(before: Option<T>, after: Option<T>) {
    after == None || after == before
  }

  /** Content may be gone or cut to a whole-character prefix whose byte count is stated. */
  predicate ContentReduced(before: Summary, after: Summary)
    requires before.SnapshotSummary? && after.SnapshotSummary?
  {
    || (&& after.content == before.content && after.contentBytes == before.contentBytes
        && after.truncated == before.truncated)
    || (&& before.content.Some?
        && after.truncated == Some(true)
        && (after.content.None? ==> after.contentBytes.None?)
        && (after.content.Some? ==>
              && ScalarsOf(after.content.value) <= ScalarsOf(before.content.value)
              && after.contentBytes == Some(ByteLength(after.content.value))))
  }

  predicate SummaryReduced(before: Summary, after: Summary) {
    match (before, after)
    case (SnapshotSummary(tab, id, revision, format, _, _, _), SnapshotSummary(tab', id', revision', format', _, _, _)) =>
      tab == tab' && revision == revision' && format == format' && Kept(id, id') && ContentReduced(before, after)
    case (OpenSummary(url, title, revision), OpenSummary(url', title', revision')) =>
      revision == revision' && Kept(url, url') && Kept(title, title')
    case _ => before == after
  }

  /** `after` says nothing that `before` did not say. */
  predicate Reduced(before: StepReport, after: StepReport) {
    && after.index == before.index && after.op == before.op && after.status == before.status
    && after.ok == before.ok && after.elapsedMs == before.elapsedMs && after.revision == before.revision
    && after.summary.Some? == before.summary.Some?
    && (before.summary.Some? ==> SummaryReduced(before.summary.value, after.summary.value))
    && after.error.Some? == before.error.Some?
    && (before.error.Some? ==>
          && Kept(before.error.value.message, after.error.value.message)
          && after.error.value == before.error.value.(message := after.error.value.message))
  }

  lemma ReducedTransitive(a: StepReport, b: StepReport, c: StepReport)
    requires Reduced(a, b) && Reduced(b, c)
    ensures Reduced(a, c)
  {
  }

  lemma ShortenedIsReduced(s: StepReport, target: nat)
    requires Overlong(s, target)
    ensures Reduced(s, Shortened(s, target))
    ensures !Overlong(Shortened(s, target), target)
    ensures RemovableFields(Shortened(s, target)) == RemovableFields(s)
  {
    TruncateUtf8Correct(s.summary.value.content.value, target);
  }

  lemma StrippedIsReduced(s: StepReport)
    requires RemovableFields(s) > 0
    ensures Reduced(s, Stripped(s))
    ensures RemovableFields(Stripped(s)) == RemovableFields(s) - 1
  {
    hide ScalarsOf, ByteLength;
    if s.summary.Some? && s.summary.value.SnapshotSummary? && s.summary.value.content.Some? {
    } else if s.summary.Some? && s.summary.value.SnapshotSummary? && s.summary.value.snapshotId.Some? {
    } else if s.summary.Some? && s.summary.value.OpenSummary? && s.summary.value.title.Some? {
    } else if s.summary.Some? && s.summary.value.OpenSummary? && s.summary.value.url.Some? {
    }
  }

  /** A prefix of the steps, each reduced. */
  predicate StepsReduced(before: seq<StepReport>, after: seq<StepReport>) {
    && |after| <= |before|
    && forall i :: 0 <= i < |after| ==> Reduced(before[i], after[i])
  }

  lemma StepsReducedUpdate(steps: seq<StepReport>, i: nat, s: StepReport)
    requires i < |steps| && Reduced(steps[i], s)
    ensures StepsReduced(steps, steps[i := s])
  {
  }

  lemma StepsReducedReflexive(steps: seq<StepReport>)
    ensures StepsReduced(steps, steps)
  {
  }

  lemma StepsReducedTransitive(a: seq<StepReport>, b: seq<StepReport>, c: seq<StepReport>)
    requires StepsReduced(a, b) && StepsReduced(b, c)
    ensures StepsReduced(a, c)
  {
    forall i | 0 <= i < |c|
      ensures Reduced(a[i], c[i])
    {
      ReducedTransitive(a[i], b[i], c[i]);
    }
  }

  function CountSuccess(steps: seq<StepReport>): nat {
    if steps == [] then 0
    else CountSuccess(steps[..|steps| - 1]) + Flag(steps[|steps| - 1].status == Success)
  }

  // ----- the termination measure -----

  function Removable(steps: seq<StepReport>): nat {
    if steps == [] then 0 else RemovableFields(steps[0]) + Removable(steps[1..])
  }

  function OverlongCount(steps: seq<StepReport>, target: nat): nat {
    if steps == [] then 0 else Flag(Overlong(steps[0], target)) + OverlongCount(steps[1..], target)
  }

  lemma {:induction false} RemovableUpdate(steps: seq<StepReport>, i: nat, s: StepReport)
    requires i < |steps|
    ensures Removable(steps[i := s]) == Removable(steps) - RemovableFields(steps[i]) + RemovableFields(s)
  {
    if i > 0 {
      assert steps[i := s][1..] == steps[1..][i - 1 := s];
      RemovableUpdate(steps[1..], i - 1, s);
    } else {
      assert steps[i := s][1..] == steps[1..];
    }
  }

  lemma {:induction false} OverlongUpdate(steps: seq<StepReport>, i: nat, s: StepReport, target: nat)
    requires i < |steps|
    ensures OverlongCount(steps[i := s], target)
         == OverlongCount(steps, target) - Flag(Overlong(steps[i], target)) + Flag(Overlong(s, target))
  {
    if i > 0 {
      assert steps[i := s][1..] == steps[1..][i - 1 := s];
      OverlongUpdate(steps[1..], i - 1, s, target);
    } else {
      assert steps[i := s][1..] == steps[1..];
    }
  }

  /** The lexicographic order in which every pass makes progress. */
  predicate Smaller(after: seq<StepReport>, before: seq<StepReport>, target: nat) {
    || |after| < |before|
    || (|after| == |before| && Removable(after) < Removable(before))
    || (|after| == |before| && Removable(after) == Removable(before)
        && OverlongCount(after, target) < OverlongCount(before, target))
  }

  lemma {:induction false} SameSuccesses(before: seq<StepReport>, after: seq<StepReport>)
    requires |after| == |before| && StepsReduced(before, after)
    ensures CountSuccess(after) == CountSuccess(before)
  {
    if before != [] {
      SameSuccesses(before[..|before| - 1], after[..|after| - 1]);
    }
  }

  // ----- one reduction -----

  /** The index of the first over-long content, or the number of steps. */
  function FirstOverlong(steps: seq<StepReport>, target: nat): (i: nat)
    ensures i <= |steps| && (i < |steps| ==> Overlong(steps[i], target))
    ensures forall j :: 0 <= j < i ==> !Overlong(steps[j], target)
  {
    if steps == [] || Overlong(steps[0], target) then 0
    else
      var rest := FirstOverlong(steps[1..], target);
      assert forall j :: 1 <= j < rest + 1 ==> steps[j] == steps[1..][j - 1];
      rest + 1
  }

  /** The index of the first step with a field to delete, or the number of steps. */
  function FirstRemovable(steps: seq<StepReport>): (i: nat)
    ensures i <= |steps| && (i < |steps| ==> RemovableFields(steps[i]) > 0)
    ensures forall j :: 0 <= j < i ==> RemovableFields(steps[j]) == 0
  {
    if steps == [] || RemovableFields(steps[0]) > 0 then 0
    else
      var rest := FirstRemovable(steps[1..]);
      assert forall j :: 1 <= j < rest + 1 ==> steps[j] == steps[1..][j - 1];
      rest + 1
  }

  /** Nothing is left to shorten or to delete. */
  predicate Bare(steps: seq<StepReport>, target: nat) {
    FirstOverlong(steps, target) == |steps| == FirstRemovable(steps)
  }

  /** One pass over the steps: shorten a content, else delete a field. */
  function Shrunk(steps: seq<StepReport>, target: nat): seq<StepReport> {
    var i, j := FirstOverlong(steps, target), FirstRemovable(steps);
    if i < |steps| then steps[i := Shortened(steps[i], target)]
    else if j < |steps| then steps[j := Stripped(steps[j])]
    else steps
  }

  /** Nothing is left that could make the result smaller. */
  predicate Exhausted(v: View, target: nat) { |v.steps| <= 1 && Bare(v.steps, target) }

  /** A pass, or the last step dropped when a pass finds nothing to do. */
  function Reduction(v: View, target: nat): View {
    if !Bare(v.steps, target) then v.(steps := Shrunk(v.steps, target), truncated := Some(true))
    else if |v.steps| > 1 then
      var steps := v.steps[..|v.steps| - 1];
      v.(steps := steps, completedSteps := Some(CountSuccess(steps)), truncated := Some(true))
    else v
  }

  /** The result after n reductions. */
  function Stage(v: View, target: nat, n: nat): View {
    if n == 0 then v else Reduction(Stage(v, target, n - 1), target)
  }

  /** The count that measuring a result ends with. */
  function Measured(v: View): nat { Settled(Base(v)) }

  lemma MeasuredIgnoresCount(v: View, count: nat)
    ensures Measured(v.(resultBytes := count)) == Measured(v)
  {
    BaseIgnoresCount(v, count);
  }

  lemma ShrunkProgresses(steps: seq<StepReport>, target: nat)
    ensures StepsReduced(steps, Shrunk(steps, target)) && |Shrunk(steps, target)| == |steps|
    ensures !Bare(steps, target) ==> Smaller(Shrunk(steps, target), steps, target)
  {
    hide Reduced, Overlong, Shortened, Stripped, RemovableFields, Removable, OverlongCount;
    var i, j := FirstOverlong(steps, target), FirstRemovable(steps);
    StepsReducedReflexive(steps);
    if i < |steps| {
      var s := Shortened(steps[i], target);
      ShortenedIsReduced(steps[i], target);
      StepsReducedUpdate(steps, i, s);
      RemovableUpdate(steps, i, s);
      OverlongUpdate(steps, i, s, target);
    } else if j < |steps| {
      var s := Stripped(steps[j]);
      StrippedIsReduced(steps[j]);
      StepsReducedUpdate(steps, j, s);
      RemovableUpdate(steps, j, s);
    }
  }

  /** A reduction makes progress until nothing is left. */
  lemma ReductionProgresses(v: View, target: nat)
    ensures Exhausted(v, target) ==> Reduction(v, target) == v
    ensures !Exhausted(v, target) ==> Smaller(Reduction(v, target).steps, v.steps, target)
    ensures StepsReduced(v.steps, Reduction(v, target).steps)
  {
    hide Bare, Shrunk, Removable, OverlongCount, Reduced;
    ShrunkProgresses(v.steps, target);
    StepsReducedReflexive(v.steps);
  }

  // ----- what the stages keep -----

  /** Every stage tells the truth: its steps say nothing new, the outcome and the time are the
  same, and the number of successes is that of its own steps. */
  lemma {:induction false} StageIsReduced(v: View, target: nat, n: nat)
    ensures var t := Stage(v, target, n);
            && t.ok == v.ok && t.status == v.status && t.stopReason == v.stopReason && t.elapsedMs == v.elapsedMs
            && StepsReduced(v.steps, t.steps)
            && (v.completedSteps == Some(CountSuccess(v.steps)) ==> t.completedSteps == Some(CountSuccess(t.steps)))
            && (t == v || t.truncated == Some(true))
  {
    hide Bare, Shrunk, CountSuccess, Reduced;
    if n == 0 {
      StepsReducedReflexive(v.steps);
    } else {
      var before := Stage(v, target, n - 1);
      StageIsReduced(v, target, n - 1);
      ReductionProgresses(before, target);
      StepsReducedTransitive(v.steps, before.steps, Stage(v, target, n).steps);
      ShrunkProgresses(before.steps, target);
      SameSuccesses(before.steps, Shrunk(before.steps, target));
    }
  }

  /** A content that is still there is the original one, or exactly its longest prefix of
  whole characters within the target, with its own byte count. */
  predicate ContentKept(before: StepReport, after: StepReport, target: nat) {
    HasContent(after) ==>
      && HasContent(before)
      && var (was, now) := (before.summary.value, after.summary.value);
         || (now.content == was.content && now.contentBytes == was.contentBytes && now.truncated == was.truncated)
         || (&& ByteLength(was.content.value) > target
             && now.content == Some(TruncateUtf8(was.content.value, target).value)
             && now.contentBytes == Some(ByteLength(now.content.value))
             && now.truncated == Some(true))
  }

  predicate HasMessage(s: StepReport) { s.error.Some? && s.error.value.message.Some? }

  /** The fields of a step go in the order content, snapshot id, or title, URL, and then the
  message of an error. */
  predicate GoneInOrder(before: StepReport, after: StepReport) {
    && (match (before.summary, after.summary)
        case (Some(SnapshotSummary(_, id, _, _, _, _, _)), Some(SnapshotSummary(_, id', _, _, content', _, _))) =>
          id.Some? && id'.None? ==> content'.None?
        case (Some(OpenSummary(url, _, _)), Some(OpenSummary(url', title', _))) => url.Some? && url'.None? ==> title'.None?
        case _ => true)
    && (HasMessage(before) && !HasMessage(after) ==> RemovableFields(after) == 0)
  }

  /** What one step has come to. */
  predicate StepKept(before: StepReport, after: StepReport, target: nat) {
    ContentKept(before, after, target) && GoneInOrder(before, after) && RemovableFields(after) <= RemovableFields(before)
  }

  lemma SameIsKept(s: StepReport, target: nat)
    ensures StepKept(s, s, target)
  {
  }

  lemma ShortenedIsKept(before: StepReport, s: StepReport, target: nat)
    requires StepKept(before, s, target) && Overlong(s, target)
    ensures StepKept(before, Shortened(s, target), target)
  {
    ShortenedIsReduced(s, target);
    TruncateUtf8Correct(before.summary.value.content.value, target);
    TruncateUtf8Correct(s.summary.value.content.value, target);
  }

  lemma StrippedIsKept(before: StepReport, s: StepReport, target: nat)
    requires StepKept(before, s, target) && RemovableFields(s) > 0
    ensures StepKept(before, Stripped(s), target)
  {
    hide ByteLength;
    StrippedIsReduced(s);
  }

  predicate NoneOverlong(steps: seq<StepReport>, n: nat, target: nat)
    requires n <= |steps|
  {
    forall i :: 0 <= i < n ==> !Overlong(steps[i], target)
  }

  predicate NoneRemovable(steps: seq<StepReport>, n: nat)
    requires n <= |steps|
  {
    forall i :: 0 <= i < n ==> RemovableFields(steps[i]) == 0
  }

  predicate ContentCut(before: StepReport, after: StepReport) {
    HasContent(before) && HasContent(after) && after.summary.value.content != before.summary.value.content
  }

  /** Nothing was given up without need: contents are cut from the first step on and only
  when over-long, a field is deleted only when no content is over-long and no earlier step
  has one left, and a step is dropped only when there is nothing left to cut or delete. */
  predicate Sparing(before: seq<StepReport>, after: seq<StepReport>, target: nat) {
    && |after| <= |before|
    && (forall i :: 0 <= i < |after| ==> StepKept(before[i], after[i], target))
    && (|after| < |before| ==> NoneOverlong(after, |after|, target) && NoneRemovable(after, |after|))
    && (forall i :: 0 <= i < |after| && RemovableFields(after[i]) < RemovableFields(before[i]) ==>
          NoneOverlong(after, |after|, target) && NoneRemovable(after, i))
    && (forall i :: 0 <= i < |after| && ContentCut(before[i], after[i]) ==> NoneOverlong(after, i + 1, target))
  }

  lemma BareMeans(steps: seq<StepReport>, target: nat)
    ensures Bare(steps, target) <==> NoneOverlong(steps, |steps|, target) && NoneRemovable(steps, |steps|)
  {
    hide Overlong, RemovableFields;
  }

  lemma StrippedIsNotOverlong(s: StepReport, target: nat)
    requires RemovableFields(s) > 0 && !Overlong(s, target)
    ensures !Overlong(Stripped(s), target)
  {
    hide ByteLength;
  }

  lemma SameIsSparing(steps: seq<StepReport>, target: nat)
    ensures Sparing(steps, steps, target)
  {
    hide Overlong, RemovableFields, StepKept, HasContent;
    forall i | 0 <= i < |steps|
      ensures StepKept(steps[i], steps[i], target)
    {
      SameIsKept(steps[i], target);
    }
  }

  lemma ShorteningIsSparing(first: seq<StepReport>, steps: seq<StepReport>, i: nat, target: nat)
    requires Sparing(first, steps, target) && i < |steps| && Overlong(steps[i], target) && NoneOverlong(steps, i, target)
    ensures Sparing(first, steps[i := Shortened(steps[i], target)], target)
  {
    hide Overlong, RemovableFields, StepKept, Shortened, ContentCut;
    ShortenedIsReduced(steps[i], target);
    ShortenedIsKept(first[i], steps[i], target);
  }

  lemma StrippingIsSparing(first: seq<StepReport>, steps: seq<StepReport>, i: nat, target: nat)
    requires Sparing(first, steps, target) && i < |steps| && RemovableFields(steps[i]) > 0
    requires NoneOverlong(steps, |steps|, target) && NoneRemovable(steps, i)
    ensures Sparing(first, steps[i := Stripped(steps[i])], target)
  {
    hide Overlong, RemovableFields, StepKept, Stripped, ContentCut;
    StrippedIsReduced(steps[i]);
    StrippedIsKept(first[i], steps[i], target);
    StrippedIsNotOverlong(steps[i], target);
  }

  lemma DroppingIsSparing(first: seq<StepReport>, steps: seq<StepReport>, target: nat)
    requires Sparing(first, steps, target) && steps != []
    requires NoneOverlong(steps, |steps|, target) && NoneRemovable(steps, |steps|)
    ensures Sparing(first, steps[..|steps| - 1], target)
  {
    hide Overlong, RemovableFields, StepKept, ContentCut;
  }

  lemma {:induction false} StageIsSparing(v: View, target: nat, n: nat)
    ensures Sparing(v.steps, Stage(v, target, n).steps, target)
  {
    hide Sparing, Overlong, RemovableFields, Shortened, Stripped;
    if n == 0 {
      SameIsSparing(v.steps, target);
    } else {
      var steps := Stage(v, target, n - 1).steps;
      StageIsSparing(v, target, n - 1);
      BareMeans(steps, target);
      var i, j := FirstOverlong(steps, target), FirstRemovable(steps);
      if i < |steps| {
        ShorteningIsSparing(v.steps, steps, i, target);
      } else if j < |steps| {
        StrippingIsSparing(v.steps, steps, j, target);
      } else if |steps| > 1 {
        DroppingIsSparing(v.steps, steps, target);
      }
    }
  }

  lemma {:induction false} ExhaustedStays(v: View, target: nat, n: nat, m: nat)
    requires Exhausted(Stage(v, target, n), target) && n <= m
    ensures Stage(v, target, m) == Stage(v, target, n)
  {
    hide Exhausted, Reduction;
    if n < m {
      ExhaustedStays(v, target, n, m - 1);
      ReductionProgresses(Stage(v, target, n), target);
    }
  }

  /** The result object that the passes change in place. */
  class Result {
    var ok: bool
    var status: RunStatus
    var stopReason: StopReason
    var steps: seq<StepReport>
    var completedSteps: Option<nat>
    var elapsedMs: Option<nat>
    var resultBytes: nat
    var truncated: Option<bool>

    constructor (v: View)
      ensures ToView() == v
    {
      ok, status, stopReason, steps := v.ok, v.status, v.stopReason, v.steps;
      completedSteps, elapsedMs, resultBytes, truncated := v.completedSteps, v.elapsedMs, v.resultBytes, v.truncated;
    }

    function ToView(): View
      reads this
    {
      View(ok, status, stopReason, steps, completedSteps, elapsedMs, resultBytes, truncated)
    }

    /** Cuts the first over-long content. */
    method ShortenContent(target: nat) returns (changed: bool)
      modifies this`steps
      ensures changed == exists i :: 0 <= i < |old(steps)| && Overlong(old(steps)[i], target)
      ensures !changed ==> steps == old(steps)
      ensures changed ==> exists i ::
                && 0 <= i < |old(steps)|
                && Overlong(old(steps)[i], target)
                && (forall j :: 0 <= j < i ==> !Overlong(old(steps)[j], target))
                && steps == old(steps)[i := Shortened(old(steps)[i], target)]
    {
      for i := 0 to |steps|
        invariant steps == old(steps)
        invariant forall j :: 0 <= j < i ==> !Overlong(steps[j], target)
      {
        if Overlong(steps[i], target) {
          steps := steps[i := Shortened(steps[i], target)];
          return true;
        }
      }
      changed := false;
    }

    /** Deletes one optional field from the first step that has one. */
    method RemoveOptionalFields() returns (changed: bool)
      modifies this`steps
      ensures changed == exists i :: 0 <= i < |old(steps)| && RemovableFields(old(steps)[i]) > 0
      ensures !changed ==> steps == old(steps)
      ensures changed ==> exists i ::
                && 0 <= i < |old(steps)|
                && RemovableFields(old(steps)[i]) > 0
                && (forall j :: 0 <= j < i ==> RemovableFields(old(steps)[j]) == 0)
                && steps == old(steps)[i := Stripped(old(steps)[i])]
    {
      for i := 0 to |steps|
        invariant steps == old(steps)
        invariant forall j :: 0 <= j < i ==> RemovableFields(steps[j]) == 0
      {
        if RemovableFields(steps[i]) > 0 {
          steps := steps[i := Stripped(steps[i])];
          return true;
        }
      }
      changed := false;
    }

    /** Measures until the count in the text is the length of the text. */
    method MeasuredResultBytes() returns (bytes: nat)
      modifies this`resultBytes
      ensures bytes == resultBytes == Size(ToView()) == Settled(Base(ToView())) == Settled(Base(old(ToView())))
    {
      hide Size, Base;
      var count := 0;
      ghost var base := Base(ToView());
      for attempt := 0 to 8
        invariant Base(ToView()) == base
        invariant count == Measure(base, attempt)
      {
        BaseIgnoresCount(ToView(), count);
        resultBytes := count;
        SizeSplit(ToView());
        var measured := Size(ToView());
        if measured == count {
          MeasureFixed(base, attempt);
          return measured;
        }
        count := measured;
      }
      BaseIgnoresCount(ToView(), count);
      resultBytes := count;
      SizeSplit(ToView());
      MeasureStays(base, 8);
      bytes := Size(ToView());
    }
  }

  /** Whenever measuring stops early it has reached the value it would reach anyway. */
  lemma {:induction false} MeasureFixed(base: nat, k: nat)
    requires Measure(base, k + 1) == Measure(base, k)
    ensures Measure(base, k) == Settled(base)
    decreases if k < 3 then 3 - k else 0
  {
    if k < 3 {
      assert Measure(base, k + 2) == Measure(base, k + 1);
      MeasureFixed(base, k + 1);
    } else {
      MeasureStays(base, k);
    }
  }

  /** The count of a text with few other bytes is small. */
  lemma SmallMeasure(base: nat)
    requires base <= 92
    ensures Settled(base) <= 94
  {
    assert Measure(base, 1) == base + 1;
    assert Width(base + 1) <= 2;
    assert Measure(base, 2) <= 94;
    WidthMonotone(Measure(base, 2), 94);
  }

  /** One pass over the steps: shorten, else delete a field. */
  method ShrinkOnce(result: Result, target: nat) returns (changed: bool)
    modifies result`steps
    ensures changed == !Bare(old(result.steps), target) && result.steps == Shrunk(old(result.steps), target)
    ensures !changed ==> result.steps == old(result.steps)
  {
    hide Overlong, Shortened, Stripped, RemovableFields;
    changed := result.ShortenContent(target);
    if !changed {
      changed := result.RemoveOptionalFields();
    }
  }

  lemma StageZero(v: View, target: nat)
    ensures Stage(v, target, 0) == v
  {
  }

  /** The next stage is a reduction, whatever count the result carries meanwhile. */
  lemma StageNext(v: View, target: nat, n: nat, count: nat)
    ensures Stage(v, target, n + 1) == Reduction(Stage(v, target, n), target)
    ensures Measured(Stage(v, target, n + 1).(resultBytes := count)) == Measured(Stage(v, target, n + 1))
    ensures var steps, next := Stage(v, target, n).steps, Stage(v, target, n + 1).steps;
            (|steps| <= 1 && Bare(steps, target)) || Smaller(next, steps, target)
  {
    hide Settled, Base, Bare, Shrunk, Removable, OverlongCount, CountSuccess;
    MeasuredIgnoresCount(Stage(v, target, n + 1), count);
    ReductionProgresses(Stage(v, target, n), target);
  }

  lemma NoStageFits(v: View, target: nat, n: nat, maxBytes: nat)
    requires |Stage(v, target, n).steps| <= 1 && Bare(Stage(v, target, n).steps, target)
    requires forall m :: 0 <= m <= n ==> Measured(Stage(v, target, m)) > maxBytes
    ensures forall m: nat :: Measured(Stage(v, target, m)) > maxBytes
  {
    hide Measured, Stage, Bare;
    forall m: nat
      ensures Measured(Stage(v, target, m)) > maxBytes
    {
      if m > n {
        ExhaustedStays(v, target, n, m);
      }
    }
  }

  lemma LastResort(ok: bool, status: RunStatus, stopReason: StopReason)
    ensures Measured(Fallback(ok, status, stopReason, 0)) <= 94
  {
    hide Base, Settled;
    FallbackIsSmall(ok, status, stopReason, 0);
    SmallMeasure(Base(Fallback(ok, status, stopReason, 0)));
  }

  /** Shrinks `input` in place until it fits, or gives up and returns the last-resort shape:
  the result is the first stage that fits, and the last resort only when no stage fits. In
  both cases the count in the result is the length of its own JSON. */
  method Bound(input: Result, maxBytes: nat) returns (r: Result, ghost n: nat)
    modifies input
    ensures r == input || fresh(r)
    ensures r.resultBytes == Size(r.ToView())
    ensures r.resultBytes <= maxBytes || maxBytes < 94
    ensures forall m :: 0 <= m < n ==> Measured(Stage(old(input.ToView()), maxBytes / 4, m)) > maxBytes
    ensures r == input <==> exists m: nat :: Measured(Stage(old(input.ToView()), maxBytes / 4, m)) <= maxBytes
    ensures r == input ==>
              && r.ToView() == Stage(old(input.ToView()), maxBytes / 4, n).(resultBytes := r.resultBytes)
              && r.resultBytes == Measured(Stage(old(input.ToView()), maxBytes / 4, n)) <= maxBytes
              && StepsReduced(old(input.steps), r.steps) && Sparing(old(input.steps), r.steps, maxBytes / 4)
    ensures r != input ==>
              r.ToView() == Fallback(old(input.ok), old(input.status), old(input.stopReason), r.resultBytes)
  {
    hide Size, Base, Settled, CountSuccess, Removable, OverlongCount, Bare, Shrunk, Stage, Exhausted, Sparing, StepsReduced;
    var target := maxBytes / 4;
    ghost var first := input.ToView();
    n := 0;
    StageZero(first, target);
    var bytes: nat := input.MeasuredResultBytes();
    while bytes > maxBytes
      invariant input.ToView() == Stage(first, target, n).(resultBytes := bytes)
      invariant bytes == Size(input.ToView()) == Measured(Stage(first, target, n))
      invariant forall m :: 0 <= m < n ==> Measured(Stage(first, target, m)) > maxBytes
      decreases |input.steps|, Removable(input.steps), OverlongCount(input.steps, target)
    {
      ghost var last := Stage(first, target, n);
      StageNext(first, target, n, bytes);
      var changed := ShrinkOnce(input, target);
      if changed {
        input.truncated := Some(true);
        bytes := input.MeasuredResultBytes();
        n := n + 1;
        continue;
      }
      if |input.steps| > 1 {
        input.steps := input.steps[..|input.steps| - 1];
        input.completedSteps := Some(CountSuccess(input.steps));
        input.truncated := Some(true);
        bytes := input.MeasuredResultBytes();
        n := n + 1;
        continue;
      }
      break;
    }
    StageIsReduced(first, target, n);
    if bytes > maxBytes {
      NoStageFits(first, target, n, maxBytes);
      r := new Result(Fallback(input.ok, input.status, input.stopReason, 0));
      var _ := r.MeasuredResultBytes();
      LastResort(input.ok, input.status, input.stopReason);
      return;
    }
    StageIsSparing(first, target, n);
    MeasuredIgnoresCount(Stage(first, target, n), bytes);
    input.resultBytes := bytes;
    var _ := input.MeasuredResultBytes();
    r := input;
  }
}
