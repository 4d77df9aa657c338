/** What the adapter was asked says what the workflow's steps were: the calls of the executor
(src/browser/workflow.ts) against the fields of the steps. */
module WorkflowLog {
  import opened Common
  import opened Text
  import opened WorkflowResult
  import opened WorkflowSteps
  import opened WorkflowExecutor

  // ----- the k-th request of a step, by its fields -----

  /** A target asked for is the step's, except that a ref given as an object is asked for as
  a plain string. */
  predicate SameTarget(t: Target, asked: Target) {
    asked == t || (t.ByRef? && asked.Opaque? && asked.ref == t.ref)
  }

  predicate SamePlace(t: Option<Target>, asked: Option<Target>) {
    t.Some? == asked.Some? && (t.Some? ==> SameTarget(t.value, asked.value) && !asked.value.ByRef?)
  }

  function CallCount(s: Step): nat { if s.Select? && s.values.Some? then |s.values.value| else 1 }

  /** The choices that a select step makes, in order. */
  predicate Chosen(s: Step, k: nat, c: Choice)
    requires s.Select? && k < CallCount(s)
  {
    if s.values.Some? then c == Value(s.values.value[k]) else s.choice == Some(c)
  }

  predicate Says<T(==)>(preferred: Option<T>, other: Option<T>, asked: Option<T>) {
    (preferred.Some? ==> asked == preferred) && (other.Some? ==> asked == other) && (preferred.None? && other.None? ==> asked.None?)
  }

  /** Is r what the k-th call of this step asks for? */
  predicate AskedFor(s: Step, k: nat, r: Request)
    requires k < CallCount(s)
  {
    match (s, r)
    case (Open(url, waitUntil, timeout), OpenPage(url', waitUntil', timeout')) =>
      url' == url && waitUntil' == waitUntil && timeout' == timeout
    case (Click(target, timeout), ClickOn(target', timeout')) =>
      SameTarget(target, target') && !target'.ByRef? && timeout' == timeout
    case (Type(target, text, clear, clearFirst, submit, sensitive, timeout), TypeInto(target', text', clear', submit', sensitive', timeout')) =>
      && SameTarget(target, target') && !target'.ByRef? && text' == text && Says(clear, clearFirst, clear')
      && submit' == submit && sensitive' == sensitive && timeout' == timeout
    case (Select(target, _, _, timeout), SelectIn(target', choice', timeout')) =>
      SameTarget(target, target') && !target'.ByRef? && Chosen(s, k, choice') && timeout' == timeout
    case (Scroll(direction, amount, place), ScrollTo(direction', amount', place')) =>
      direction' == direction && amount' == amount && SamePlace(place, place')
    case (Wait(duration, condition, place, timeout), WaitFor(duration', condition', place', timeout')) =>
      duration' == duration && condition' == condition && SamePlace(place, place') && timeout' == timeout
    case (Snapshot(nodes, chars, bytes, text, compact, format), TakeSnapshot(nodes', chars', bytes', text', format')) =>
      && nodes' == nodes && chars' == chars && bytes' == bytes && text' == text
      && (compact.Some? ==> format' == Some(if compact.value then Compact else Structured))
      && (format.Some? ==> format' == format) && (compact.None? && format.None? ==> format'.None?)
    case _ => false
  }

  lemma CallIsAskedFor(s: Step, g: Guards, l: Limits, httpUrl: Str -> bool, k: nat)
    requires ValidStep(s, l, httpUrl) && k < CallCount(s)
    ensures |CallsOf(s, g)| == CallCount(s) && AskedFor(s, k, CallsOf(s, g)[k].request)
  {
    if s.Select? {
      SelectCall(s, g, k);
    }
  }

  lemma SelectCall(s: Step, g: Guards, k: nat)
    requires s.Select? && k < CallCount(s) && s.choice.Some? == s.values.None?
    ensures |CallsOf(s, g)| == CallCount(s)
    ensures CallsOf(s, g)[k].request ==
              SelectIn(AdapterTarget(s.target), if s.values.Some? then Value(s.values.value[k]) else s.choice.value, s.timeoutMs)
  {
  }

  /** In a run of normalised steps, every call that a step made asks for what the step says,
  in the step's order; and a step that is reported as a success asked for all of it. */
  lemma StepsAreAskedFor(steps: seq<Step>, l: Limits, httpUrl: Str -> bool, g: Guards, initial: Option<Status>,
                         stopOn: set<Trigger>, seen: seq<Observed>, reports: seq<StepReport>, i: nat)
    requires Faithful(steps, g, initial, stopOn, seen, reports) && i < |seen| && ValidStep(steps[i], l, httpUrl)
    ensures |seen[i].asked| <= CallCount(steps[i])
    ensures forall k :: 0 <= k < |seen[i].asked| ==> AskedFor(steps[i], k, seen[i].asked[k].0.request)
    ensures reports[i].ok ==> |seen[i].asked| == CallCount(steps[i])
  {
    hide CallsOf, GuardsAt, AskedFor, ValidStep, StatusBefore, StopOf, CallCount;
    ReportsTellTheRun(steps, g, initial, stopOn, seen, reports, i);
    CallCountPositive(steps[i], l, httpUrl);
    forall k | 0 <= k < CallCount(steps[i])
      ensures |CallsOf(steps[i], GuardsAt(steps, i, g))| == CallCount(steps[i])
      ensures AskedFor(steps[i], k, CallsOf(steps[i], GuardsAt(steps, i, g))[k].request)
    {
      CallIsAskedFor(steps[i], GuardsAt(steps, i, g), l, httpUrl, k);
    }
    assert |CallsOf(steps[i], GuardsAt(steps, i, g))| == CallCount(steps[i]) by {
      CallIsAskedFor(steps[i], GuardsAt(steps, i, g), l, httpUrl, 0);
    }
  }

  lemma CallCountPositive(s: Step, l: Limits, httpUrl: Str -> bool)
    requires ValidStep(s, l, httpUrl)
    ensures CallCount(s) > 0
  {
  }

  // ----- two steps that ask for the same -----

  predicate SameSpot(t: Target, u: Target) {
    t == u || (((t.ByRef? && u.Opaque?) || (t.Opaque? && u.ByRef?)) && t.ref == u.ref)
  }

  predicate SameSpots(t: Option<Target>, u: Option<Target>) {
    t.Some? == u.Some? && (t.Some? ==> SameSpot(t.value, u.value))
  }

  function Either<T>(a: Option<T>, b: Option<T>): Option<T> { if a.Some? then a else b }

  function FormatOf(compact: Option<bool>): Option<Format> {
    if compact.Some? then Some(if compact.value then Compact else Structured) else None
  }

  /** The choices of a select step: a single choice, or that of each value. */
  function Choices(choice: Option<Choice>, values: Option<seq<Str>>): seq<Choice> {
    if values.Some? then seq(|values.value|, i requires 0 <= i < |values.value| => Value(values.value[i]))
    else if choice.Some? then [choice.value] else []
  }

  /** Equal up to spelling: a ref as a string or as an object, `clear` or `clearFirst`,
  `compact` or `format`, and a single value as a value or as the choice of it. */
  predicate SameStep(s: Step, t: Step) {
    match (s, t)
    case (Click(target, timeout), Click(target', timeout')) => SameSpot(target, target') && timeout == timeout'
    case (Type(target, text, clear, clearFirst, submit, sensitive, timeout), Type(target', text', clear', clearFirst', submit', sensitive', timeout')) =>
      && SameSpot(target, target') && text == text' && Either(clear, clearFirst) == Either(clear', clearFirst')
      && submit == submit' && sensitive == sensitive' && timeout == timeout'
    case (Select(target, choice, values, timeout), Select(target', choice', values', timeout')) =>
      SameSpot(target, target') && Choices(choice, values) == Choices(choice', values') && timeout == timeout'
    case (Scroll(direction, amount, place), Scroll(direction', amount', place')) =>
      direction == direction' && amount == amount' && SameSpots(place, place')
    case (Wait(duration, condition, place, timeout), Wait(duration', condition', place', timeout')) =>
      duration == duration' && condition == condition' && SameSpots(place, place') && timeout == timeout'
    case (Snapshot(nodes, chars, bytes, text, compact, format), Snapshot(nodes', chars', bytes', text', compact', format')) =>
      && nodes == nodes' && chars == chars' && bytes == bytes' && text == text'
      && Either(FormatOf(compact), format) == Either(FormatOf(compact'), format')
    case _ => s == t
  }

  predicate SameRequests(a: seq<Call>, b: seq<Call>) {
    |a| == |b| && forall k :: 0 <= k < |a| ==> a[k].request == b[k].request
  }

  /** Two normalised steps ask the adapter for the same exactly when they are equal up to
  spelling. */
  lemma RequestsTellStep(s: Step, t: Step, g: Guards, h: Guards, l: Limits, httpUrl: Str -> bool)
    requires ValidStep(s, l, httpUrl) && ValidStep(t, l, httpUrl)
    ensures SameRequests(CallsOf(s, g), CallsOf(t, h)) <==> SameStep(s, t)
  {
    hide RefShape, BoundedString, InRange;
    if s.Select? && t.Select? {
      SelectsTellStep(s, t, g, h);
    } else if s.Select? || t.Select? {
      FirstRequest(s, g);
      FirstRequest(t, h);
    } else {
      SinglesTellStep(s, t, g, h, l, httpUrl);
    }
  }

  lemma FirstRequest(s: Step, g: Guards)
    requires CallCount(s) > 0 && (s.Select? ==> s.choice.Some? == s.values.None?)
    ensures CallsOf(s, g) != [] && CallsOf(s, g)[0].request.SelectIn? == s.Select?
  {
    if s.Select? {
      SelectCall(s, g, 0);
    }
  }

  lemma SinglesTellStep(s: Step, t: Step, g: Guards, h: Guards, l: Limits, httpUrl: Str -> bool)
    requires ValidStep(s, l, httpUrl) && ValidStep(t, l, httpUrl) && !s.Select? && !t.Select?
    ensures SameRequests(CallsOf(s, g), CallsOf(t, h)) <==> SameStep(s, t)
  {
    hide RefShape, BoundedString, InRange;
    var a, b := CallsOf(s, g), CallsOf(t, h);
    assert |a| == 1 && |b| == 1;
    assert SameRequests(a, b) <==> a[0].request == b[0].request;
  }

  lemma SelectsTellStep(s: Step, t: Step, g: Guards, h: Guards)
    requires s.Select? && t.Select? && (s.choice.Some? <==> s.values.None?) && (t.choice.Some? <==> t.values.None?)
    requires CallCount(s) > 0 && CallCount(t) > 0
    ensures SameRequests(CallsOf(s, g), CallsOf(t, h)) <==> SameStep(s, t)
  {
    hide CallsOf;
    var a, b := CallsOf(s, g), CallsOf(t, h);
    var c, d := Choices(s.choice, s.values), Choices(t.choice, t.values);
    forall k | 0 <= k < CallCount(s)
      ensures |a| == |c| == CallCount(s) && a[k].request == SelectIn(AdapterTarget(s.target), c[k], s.timeoutMs)
    {
      SelectCall(s, g, k);
    }
    forall k | 0 <= k < CallCount(t)
      ensures |b| == |d| == CallCount(t) && b[k].request == SelectIn(AdapterTarget(t.target), d[k], t.timeoutMs)
    {
      SelectCall(t, h, k);
    }
    SelectCall(s, g, 0);
    SelectCall(t, h, 0);
    assert |c| == CallCount(s) && |d| == CallCount(t);
    if SameRequests(a, b) {
      assert a[0].request == b[0].request;
      assert forall k :: 0 <= k < |c| ==> a[k].request == b[k].request;
      assert c == d;
    }
  }

  // ----- the log of a run tells its steps -----

  /** The number of steps at the front that were answered; all that a faithful run leaves
  over is at most one failed step. */
  function Answered(seen: seq<Observed>): (n: nat)
    ensures n <= |seen| && forall i :: 0 <= i < n ==> seen[i].answer.Returned?
    ensures n < |seen| ==> seen[n].answer.Raised?
  {
    if seen == [] || seen[0].answer.Raised? then 0
    else
      var rest := Answered(seen[1..]);
      assert forall i :: 1 <= i < rest + 1 ==> seen[i] == seen[1..][i - 1];
      rest + 1
  }

  predicate AllAnswered(seen: seq<Observed>) { forall i :: 0 <= i < |seen| ==> seen[i].answer.Returned? }

  /** Calls only, after nothing or after the reading of a status. */
  predicate Tail(a: seq<Exchange>, x: seq<Exchange>) {
    && (a == [] || a[|a| - 1].StatusRead?)
    && forall i :: 0 <= i < |x| ==> x[i].Asked?
  }

  lemma TailsAreEqual(a: seq<Exchange>, x: seq<Exchange>, b: seq<Exchange>, y: seq<Exchange>)
    requires Tail(a, x) && Tail(b, y) && a + x == b + y
    ensures a == b && x == y
  {
    var log := a + x;
    assert forall i :: |a| <= i < |log| ==> log[i].Asked?;
    assert forall i :: |b| <= i < |log| ==> log[i].Asked?;
    assert a != [] ==> log[|a| - 1].StatusRead?;
    assert b != [] ==> log[|b| - 1].StatusRead?;
    assert a == (a + x)[..|a|] && b == (b + y)[..|b|];
    assert x == (a + x)[|a|..] && y == (b + y)[|b|..];
  }

  lemma AnsweredEndsInStatus(seen: seq<Observed>)
    requires AllAnswered(seen)
    ensures RunLog(seen) == [] || RunLog(seen)[|RunLog(seen)| - 1].StatusRead?
    ensures seen != [] ==> RunLog(seen) != []
  {
  }

  /** The calls that were answered determine the log's parts, and the log determines them. */
  lemma {:induction false} LogTellsCalls(seen: seq<Observed>, others: seq<Observed>)
    requires AllAnswered(seen) && AllAnswered(others) && RunLog(seen) == RunLog(others)
    ensures |seen| == |others| && forall i :: 0 <= i < |seen| ==> Exchanges(seen[i].asked) == Exchanges(others[i].asked)
  {
    AnsweredEndsInStatus(seen);
    AnsweredEndsInStatus(others);
    if seen != [] && others != [] {
      var n, m := |seen| - 1, |others| - 1;
      LastTellsCalls(seen, others);
      LogTellsCalls(seen[..n], others[..m]);
    }
  }

  lemma LastTellsCalls(seen: seq<Observed>, others: seq<Observed>)
    requires AllAnswered(seen) && AllAnswered(others) && seen != [] && others != [] && RunLog(seen) == RunLog(others)
    ensures RunLog(seen[..|seen| - 1]) == RunLog(others[..|others| - 1])
    ensures Exchanges(seen[|seen| - 1].asked) == Exchanges(others[|others| - 1].asked)
  {
    hide RunLog;
    var o, p := seen[|seen| - 1], others[|others| - 1];
    var a, b := RunLog(seen[..|seen| - 1]), RunLog(others[..|others| - 1]);
    var x, y := Exchanges(o.asked), Exchanges(p.asked);
    LogEnds(seen);
    LogEnds(others);
    AnsweredEndsInStatus(seen[..|seen| - 1]);
    AnsweredEndsInStatus(others[..|others| - 1]);
    assert (a + x + [StatusRead(o.after)])[..|a + x|] == a + x;
    assert (b + y + [StatusRead(p.after)])[..|b + y|] == b + y;
    TailsAreEqual(a, x, b, y);
  }

  lemma LogEnds(seen: seq<Observed>)
    requires AllAnswered(seen) && seen != []
    ensures var o := seen[|seen| - 1];
            RunLog(seen) == RunLog(seen[..|seen| - 1]) + Exchanges(o.asked) + [StatusRead(o.after)]
  {
    var o := seen[|seen| - 1];
    assert o.answer.Returned?;
    Regroup(RunLog(seen[..|seen| - 1]), Exchanges(o.asked), [StatusRead(o.after)]);
  }

  lemma Regroup(a: seq<Exchange>, b: seq<Exchange>, c: seq<Exchange>)
    ensures a + (b + c) == a + b + c
  {
  }

  /** The answered steps of a faithful run, and the calls of the failed one at the end. */
  lemma LogSplits(seen: seq<Observed>) returns (x: seq<Exchange>)
    requires forall i :: 0 <= i < |seen| - 1 ==> seen[i].answer.Returned?
    ensures AllAnswered(seen[..Answered(seen)]) && RunLog(seen) == RunLog(seen[..Answered(seen)]) + x
    ensures Tail(RunLog(seen[..Answered(seen)]), x)
  {
    var n := Answered(seen);
    AnsweredEndsInStatus(seen[..n]);
    if n == |seen| {
      x := [];
      assert seen[..n] == seen && RunLog(seen) + [] == RunLog(seen);
    } else {
      assert n == |seen| - 1;
      x := Exchanges(seen[n].asked);
      assert Exchanges(seen[n].asked) + [] == x;
    }
  }

  lemma FaithfulAnswers(steps: seq<Step>, g: Guards, initial: Option<Status>, stopOn: set<Trigger>,
                        seen: seq<Observed>, reports: seq<StepReport>)
    requires Faithful(steps, g, initial, stopOn, seen, reports)
    ensures |reports| == |seen| <= |steps|
    ensures forall i :: 0 <= i < |seen| ==> (seen[i].answer.Returned? <==> reports[i].ok)
    ensures forall i :: 0 <= i < |seen| - 1 ==> seen[i].answer.Returned?
  {
    hide CallsOf, GuardsAt, StatusBefore, StatusStopReason, RawStopReason, NavigationDetected, Mentions, Honest;
    forall i | 0 <= i < |seen|
      ensures (seen[i].answer.Returned? <==> reports[i].ok) && (i < |seen| - 1 ==> seen[i].answer.Returned?)
    {
      assert reports[i] == ReportOf(i, steps[i], seen[i], reports[i].elapsedMs);
    }
  }

  /** Two runs of normalised steps with the same log have succeeded in the same number of
  steps, and those are the same steps up to spelling. */
  lemma LogTellsSteps(steps: seq<Step>, others: seq<Step>, l: Limits, httpUrl: Str -> bool,
                      g: Guards, h: Guards, initial: Option<Status>, first: Option<Status>, stopOn: set<Trigger>, ends: set<Trigger>,
                      seen: seq<Observed>, reports: seq<StepReport>, met: seq<Observed>, told: seq<StepReport>)
    requires Faithful(steps, g, initial, stopOn, seen, reports) && Faithful(others, h, first, ends, met, told)
    requires forall i :: 0 <= i < |steps| ==> ValidStep(steps[i], l, httpUrl)
    requires forall i :: 0 <= i < |others| ==> ValidStep(others[i], l, httpUrl)
    requires RunLog(seen) == RunLog(met)
    ensures forall i :: 0 <= i < |reports| && reports[i].ok ==> i < |told| && told[i].ok && SameStep(steps[i], others[i])
    ensures forall i :: 0 <= i < |told| && told[i].ok ==> i < |reports| && reports[i].ok
  {
    hide ValidStep, SameStep, Faithful, RunLog;
    FaithfulAnswers(steps, g, initial, stopOn, seen, reports);
    FaithfulAnswers(others, h, first, ends, met, told);
    var n, m := Answered(seen), Answered(met);
    var x := LogSplits(seen);
    var y := LogSplits(met);
    TailsAreEqual(RunLog(seen[..n]), x, RunLog(met[..m]), y);
    LogTellsCalls(seen[..n], met[..m]);
    forall i | 0 <= i < n
      ensures SameStep(steps[i], others[i])
    {
      assert seen[..n][i] == seen[i] && met[..m][i] == met[i];
      CallsTellStep(steps, g, initial, stopOn, seen, reports, others, h, first, ends, met, told, i, l, httpUrl);
    }
  }

  lemma CallsTellStep(steps: seq<Step>, g: Guards, initial: Option<Status>, stopOn: set<Trigger>,
                      seen: seq<Observed>, reports: seq<StepReport>,
                      others: seq<Step>, h: Guards, first: Option<Status>, ends: set<Trigger>,
                      met: seq<Observed>, told: seq<StepReport>, i: nat, l: Limits, httpUrl: Str -> bool)
    requires Faithful(steps, g, initial, stopOn, seen, reports) && Faithful(others, h, first, ends, met, told)
    requires i < |seen| && i < |met| && ValidStep(steps[i], l, httpUrl) && ValidStep(others[i], l, httpUrl)
    requires seen[i].answer.Returned? && met[i].answer.Returned? && Exchanges(seen[i].asked) == Exchanges(met[i].asked)
    ensures SameStep(steps[i], others[i])
  {
    hide ValidStep, SameStep, CallsOf, GuardsAt, StopOf, ReportOf;
    var a, b := CallsOf(steps[i], GuardsAt(steps, i, g)), CallsOf(others[i], GuardsAt(others, i, h));
    var x, y := seen[i].asked, met[i].asked;
    assert Honest(seen[i], a) && Honest(met[i], b);
    assert |Exchanges(x)| == |x| && |Exchanges(y)| == |y|;
    forall k | 0 <= k < |a|
      ensures a[k] == b[k]
    {
      assert Exchanges(x)[k] == Asked(x[k].0, x[k].1) && Exchanges(y)[k] == Asked(y[k].0, y[k].1);
    }
    RequestsTellStep(steps[i], others[i], GuardsAt(steps, i, g), GuardsAt(others, i, h), l, httpUrl);
  }
}
