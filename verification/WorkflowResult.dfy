/** Workflow results and the byte bound on them (`boundResult` and its helpers in
src/browser/workflow.ts). The size of a result is the UTF-8 length of its own
JSON text, and that text contains the size. */
module WorkflowResult {
  import opened Common
  import opened Text
  import opened Json
  import opened Decimal

  datatype Operation = OpOpen | OpClick | OpType | OpSelect | OpScroll | OpWait | OpSnapshot

  datatype StepStatus = Success | Error | Interrupted

  datatype RunStatus = Completed | Stopped

  datatype StopReason =
    | AllDone | Navigation | Challenge | Interrupt | RevisionMismatch | Failed | Timeout

  datatype Summary =
    | OpenSummary(url: Option<Str>, title: Option<Str>, revision: Option<nat>)
    | TargetSummary(kind: Operation, ref: Option<Str>, length: Option<nat>, revision: Option<nat>)
    | ScrollSummary(direction: Str, amount: nat, revision: Option<nat>)
    | WaitSummary(waitedMs: Option<nat>, conditionMet: Option<bool>, revision: Option<nat>)
    | SnapshotSummary(tabId: Option<Str>, snapshotId: Option<Str>, revision: Option<nat>, format: Option<Str>,
                      content: Option<Str>, contentBytes: Option<nat>, truncated: Option<bool>)

  datatype ErrorSummary = ErrorSummary(code: Str, retryable: bool, message: Option<Str>,
                                       expectedRevision: Option<nat>, actualRevision: Option<nat>)

  datatype StepReport = StepReport(index: nat, op: Operation, status: StepStatus, ok: bool, elapsedMs: nat,
                                   revision: Option<nat>, summary: Option<Summary>, error: Option<ErrorSummary>)

  /** The public result. The last-resort shape has no count, time or truncation flag. */
  datatype View = View(ok: bool, status: RunStatus, stopReason: StopReason, steps: seq<StepReport>,
                       completedSteps: Option<nat>, elapsedMs: Option<nat>, resultBytes: nat, truncated: Option<bool>)

  // ----- the JSON of a result -----

  function OperationText(op: Operation): string {
    match op
    case OpOpen => "open"
    case OpClick => "click"
    case OpType => "type"
    case OpSelect => "select"
    case OpScroll => "scroll"
    case OpWait => "wait"
    case OpSnapshot => "snapshot"
  }

  function StatusText(s: StepStatus): string {
    match s case Success => "success" case Error => "error" case Interrupted => "interrupted"
  }

  function RunStatusText(s: RunStatus): string {
    match s case Completed => "completed" case Stopped => "stopped"
  }

  function StopReasonText(r: StopReason): string {
    match r
    case AllDone => "completed"
    case Navigation => "navigation"
    case Challenge => "challenge"
    case Interrupt => "interrupt"
    case RevisionMismatch => "revision_mismatch"
    case Failed => "error"
    case Timeout => "timeout"
  }

  function Member(key: string, v: Value): (Str, Value) { (Ascii(key), v) }

  function NatValue(n: nat): Value { Number(Digits(n)) }

  function OptNat(n: Option<nat>): Value { if n.Some? then NatValue(n.value) else Undefined }

  function OptText(s: Option<Str>): Value { if s.Some? then String(s.value) else Undefined }

  function OptBool(b: Option<bool>): Value { if b.Some? then Bool(b.value) else Undefined }

  function SummaryValue(s: Summary): Value {
    match s
    case OpenSummary(url, title, revision) =>
      Object([Member("kind", String(Ascii("open"))), Member("url", OptText(url)), Member("title", OptText(title)),
              Member("pageRevision", OptNat(revision))])
    case TargetSummary(kind, ref, length, revision) =>
      Object([Member("kind", String(Ascii(OperationText(kind)))), Member("ref", OptText(ref)),
              Member("length", OptNat(length)), Member("pageRevision", OptNat(revision))])
    case ScrollSummary(direction, amount, revision) =>
      Object([Member("kind", String(Ascii("scroll"))), Member("direction", String(direction)),
              Member("amount", NatValue(amount)), Member("pageRevision", OptNat(revision))])
    case WaitSummary(waitedMs, conditionMet, revision) =>
      Object([Member("kind", String(Ascii("wait"))), Member("waitedMs", OptNat(waitedMs)),
              Member("conditionMet", OptBool(conditionMet)), Member("pageRevision", OptNat(revision))])
    case SnapshotSummary(tabId, snapshotId, revision, format, content, contentBytes, truncated) =>
      Object([Member("tabId", OptText(tabId)), Member("kind", String(Ascii("snapshot"))),
              Member("snapshotId", OptText(snapshotId)), Member("pageRevision", OptNat(revision)),
              Member("format", OptText(format)), Member("content", OptText(content)),
              Member("contentBytes", OptNat(contentBytes)), Member("truncated", OptBool(truncated))])
  }

  function ErrorValue(e: ErrorSummary): Value {
    Object([Member("code", String(e.code)), Member("retryable", Bool(e.retryable)), Member("message", OptText(e.message)),
            Member("details",
                   if e.expectedRevision.None? && e.actualRevision.None? then Undefined
                   else Object([Member("expectedPageRevision", OptNat(e.expectedRevision)),
                                Member("actualPageRevision", OptNat(e.actualRevision))]))])
  }

  function StepValue(s: StepReport): Value {
    Object([Member("index", NatValue(s.index)), Member("op", String(Ascii(OperationText(s.op)))),
            Member("status", String(Ascii(StatusText(s.status)))), Member("ok", Bool(s.ok)),
            Member("elapsedMs", NatValue(s.elapsedMs)), Member("pageRevision", OptNat(s.revision)),
            Member("summary", if s.summary.Some? then SummaryValue(s.summary.value) else Undefined),
            Member("error", if s.error.Some? then ErrorValue(s.error.value) else Undefined)])
  }

  function StepValues(steps: seq<StepReport>): seq<Value> {
    if steps == [] then [] else [StepValue(steps[0])] + StepValues(steps[1..])
  }

  function Before(v: View): seq<(Str, Value)> {
    [Member("ok", Bool(v.ok)), Member("status", String(Ascii(RunStatusText(v.status)))),
     Member("stopReason", String(Ascii(StopReasonText(v.stopReason)))),
     Member("steps", Array(StepValues(v.steps))),
     Member("completedSteps", OptNat(v.completedSteps)), Member("elapsedMs", OptNat(v.elapsedMs))]
  }

  function After(v: View): seq<(Str, Value)> {
    [Member("truncated", OptBool(v.truncated))]
  }

  function ResultValue(v: View): Value {
    Object(Before(v) + ([Member("resultBytes", NatValue(v.resultBytes))] + After(v)))
  }

  /** The UTF-8 length of the result's own JSON text. */
  function Size(v: View): nat { ByteLength(Stringify(ResultValue(v))) }

  // ----- the text around the count -----

  lemma {:induction false} PruneConcat(a: seq<(Str, Value)>, b: seq<(Str, Value)>)
    ensures PruneMembers(a + b) == PruneMembers(a) + PruneMembers(b)
  {
    if a == [] {
      assert a + b == b;
    } else {
      assert (a + b)[1..] == a[1..] + b;
      PruneConcat(a[1..], b);
    }
  }

  lemma {:induction false} PrintConcat(a: seq<(Str, Value)>, b: seq<(Str, Value)>)
    requires a != [] && b != []
    ensures PrintMembers(a + b) == PrintMembers(a) + [COMMA] + PrintMembers(b)
  {
    var m := Quote(a[0].0) + ([COLON] + Print(a[0].1));
    assert (a + b)[1..] == a[1..] + b;
    if |a| == 1 {
      assert a[1..] + b == b;
    } else {
      PrintConcat(a[1..], b);
      RegroupFour(m + [COMMA], PrintMembers(a[1..]), [COMMA], PrintMembers(b));
    }
  }

  lemma RegroupFour(a: Str, b: Str, c: Str, d: Str)
    ensures a + (b + c + d) == (a + b) + c + d
  {
  }

  /** The result's text is a part before the count, the count, and a part after it. */
  function TextBefore(v: View): Str {
    [OPEN_BRACE] + (PrintMembers(PruneMembers(Before(v))) + [COMMA]) + (Quote(Ascii("resultBytes")) + [COLON])
  }

  function TextAfter(v: View): Str {
    MoreMembers(PruneMembers(After(v))) + [CLOSE_BRACE]
  }

  function MoreMembers(ms: seq<(Str, Value)>): Str {
    if ms == [] then [] else [COMMA] + PrintMembers(ms)
  }

  lemma BeforePruned(v: View)
    ensures PruneMembers(Before(v)) != []
  {
    var ms := Before(v);
    assert !ms[0].1.Undefined?;
    assert PruneMembers(ms) == [(ms[0].0, Prune(ms[0].1))] + PruneMembers(ms[1..]);
  }

  lemma CountMember(v: View)
    ensures var m := Member("resultBytes", NatValue(v.resultBytes));
            PruneMembers([m] + After(v)) == [m] + PruneMembers(After(v))
  {
    var m := Member("resultBytes", NatValue(v.resultBytes));
    assert ([m] + After(v))[1..] == After(v);
  }

  lemma PrintCountMember(m: (Str, Value), rest: seq<(Str, Value)>)
    ensures PrintMembers([m] + rest) == (Quote(m.0) + ([COLON] + Print(m.1))) + MoreMembers(rest)
  {
    assert ([m] + rest)[1..] == rest;
    if rest != [] {
      Regroup(Quote(m.0) + ([COLON] + Print(m.1)), [COMMA], PrintMembers(rest));
    }
  }

  lemma RegroupText(open: Str, before: Str, key: Str, colon: Str, digits: Str, tail: Str, close: Str)
    ensures open + (before + ((key + (colon + digits)) + tail)) + close
         == (open + before + (key + colon)) + digits + (tail + close)
  {
  }

  lemma MembersSplit(v: View)
    ensures var m := Member("resultBytes", NatValue(v.resultBytes));
            var rest := PruneMembers(After(v));
            PrintMembers(PruneMembers(Before(v) + ([m] + After(v)))) ==
              (PrintMembers(PruneMembers(Before(v))) + [COMMA]) + PrintMembers([m] + rest)
  {
    var m := Member("resultBytes", NatValue(v.resultBytes));
    BeforePruned(v);
    CountMember(v);
    PruneConcat(Before(v), [m] + After(v));
    PrintConcat(PruneMembers(Before(v)), [m] + PruneMembers(After(v)));
  }

  lemma TextSplit(v: View)
    ensures Stringify(ResultValue(v)) == TextBefore(v) + Digits(v.resultBytes) + TextAfter(v)
  {
    var m := Member("resultBytes", NatValue(v.resultBytes));
    var before, rest := PrintMembers(PruneMembers(Before(v))) + [COMMA], PruneMembers(After(v));
    calc {
      Stringify(ResultValue(v));
      [OPEN_BRACE] + PrintMembers(PruneMembers(Before(v) + ([m] + After(v)))) + [CLOSE_BRACE];
      { MembersSplit(v); }
      [OPEN_BRACE] + (before + PrintMembers([m] + rest)) + [CLOSE_BRACE];
      { PrintCountMember(m, rest); }
      [OPEN_BRACE] + (before + ((Quote(m.0) + ([COLON] + Digits(v.resultBytes))) + MoreMembers(rest))) + [CLOSE_BRACE];
      { RegroupText([OPEN_BRACE], before, Quote(m.0), [COLON], Digits(v.resultBytes), MoreMembers(rest), [CLOSE_BRACE]); }
      TextBefore(v) + Digits(v.resultBytes) + TextAfter(v);
    }
  }

  predicate IsAsciiText(s: Str) { forall i :: 0 <= i < |s| ==> s[i] < 0x80 }

  lemma {:induction false} AsciiByteLength(s: Str)
    requires IsAsciiText(s)
    ensures ByteLength(s) == |s|
  {
    if s != [] {
      AsciiByteLength(s[1..]);
      ByteLengthConcat([s[0]], s[1..]);
      assert [s[0]] + s[1..] == s;
      assert ScalarsOf([s[0]]) == [s[0]] + ScalarsOf([]);
    }
  }

  /** The bytes of a result besides its count. */
  function Base(v: View): nat { ByteLength(TextBefore(v)) + ByteLength(TextAfter(v)) }

  lemma SizeSplit(v: View)
    ensures Size(v) == Base(v) + Width(v.resultBytes)
  {
    var digits := Digits(v.resultBytes);
    TextSplit(v);
    AsciiByteLength(digits);
    ByteLengthConcat(TextBefore(v) + digits, TextAfter(v));
    ByteLengthConcat(TextBefore(v), digits);
  }

  lemma BaseIgnoresCount(v: View, n: nat)
    ensures Base(v.(resultBytes := n)) == Base(v)
  {
    var w := v.(resultBytes := n);
    assert Before(w) == Before(v) && After(w) == After(v);
  }

  // ----- the last-resort shape -----

  function Fallback(ok: bool, status: RunStatus, stopReason: StopReason, resultBytes: nat): View {
    View(ok, status, stopReason, [], None, None, resultBytes, None)
  }

  /** Printable ASCII without quote or backslash: quoting only adds the quotes. */
  predicate Plain(s: Str) {
    forall i :: 0 <= i < |s| ==> 0x20 <= s[i] < 0x80 && s[i] != QUOTE && s[i] != BACKSLASH
  }

  lemma {:induction false} PlainQuote(s: Str)
    requires Plain(s)
    ensures Escape(s) == s
  {
    if s != [] {
      PlainQuote(s[1..]);
    }
  }

  lemma PlainMember(key: Str, v: Value)
    requires Plain(key) && IsAsciiText(Print(v))
    ensures var t := Quote(key) + ([COLON] + Print(v));
            |t| == |key| + 3 + |Print(v)| && IsAsciiText(t)
  {
    PlainQuote(key);
  }

  lemma PlainText(s: Str)
    requires Plain(s)
    ensures |Print(String(s))| == |s| + 2 && IsAsciiText(Print(String(s)))
  {
    PlainQuote(s);
  }

  lemma PlainKeys()
    ensures Plain(Ascii("ok")) && Plain(Ascii("status")) && Plain(Ascii("stopReason")) && Plain(Ascii("steps"))
    ensures Plain(Ascii("resultBytes"))
  {
  }

  lemma PlainRunStatus(s: RunStatus)
    ensures Plain(Ascii(RunStatusText(s))) && |RunStatusText(s)| <= 9
  {
  }

  lemma PlainStopReason(r: StopReason)
    ensures Plain(Ascii(StopReasonText(r))) && |StopReasonText(r)| <= 17
  {
  }

  /** The members of the last-resort shape in front of the count. */
  function FallbackMembers(ok: bool, status: RunStatus, stopReason: StopReason): seq<(Str, Value)> {
    [Member("ok", Bool(ok)), Member("status", String(Ascii(RunStatusText(status)))),
     Member("stopReason", String(Ascii(StopReasonText(stopReason)))), Member("steps", Array([]))]
  }

  lemma {:induction false} PruneSimple(ms: seq<(Str, Value)>)
    requires forall i :: 0 <= i < |ms| ==> ms[i].1.Bool? || ms[i].1.String? || ms[i].1 == Array([])
    ensures PruneMembers(ms) == ms
  {
    if ms != [] {
      PruneSimple(ms[1..]);
    }
  }

  lemma FallbackPruned(ok: bool, status: RunStatus, stopReason: StopReason, n: nat)
    ensures PruneMembers(Before(Fallback(ok, status, stopReason, n))) == FallbackMembers(ok, status, stopReason)
    ensures PruneMembers(After(Fallback(ok, status, stopReason, n))) == []
  {
    var v := Fallback(ok, status, stopReason, n);
    var absent := [Member("completedSteps", Undefined), Member("elapsedMs", Undefined)];
    assert Before(v) == FallbackMembers(ok, status, stopReason) + absent;
    PruneConcat(FallbackMembers(ok, status, stopReason), absent);
    PruneSimple(FallbackMembers(ok, status, stopReason));
    assert absent[1..] == [Member("elapsedMs", Undefined)];
    assert PruneMembers(absent) == PruneMembers(absent[1..]) == [];
    assert After(v)[1..] == [];
  }

  /** One more plain member in front of printed ASCII members. */
  lemma PlainCons(m: (Str, Value), rest: seq<(Str, Value)>)
    requires Plain(m.0) && IsAsciiText(Print(m.1)) && IsAsciiText(PrintMembers(rest))
    ensures IsAsciiText(PrintMembers([m] + rest))
    ensures |PrintMembers([m] + rest)| ==
            |m.0| + 3 + |Print(m.1)| + (if rest == [] then 0 else 1 + |PrintMembers(rest)|)
  {
    PlainMember(m.0, m.1);
    PrintCountMember(m, rest);
  }

  lemma FourMembers(a: (Str, Value), b: (Str, Value), c: (Str, Value), d: (Str, Value))
    requires Plain(a.0) && Plain(b.0) && Plain(c.0) && Plain(d.0)
    requires IsAsciiText(Print(a.1)) && IsAsciiText(Print(b.1)) && IsAsciiText(Print(c.1)) && IsAsciiText(Print(d.1))
    ensures var t := PrintMembers([a, b, c, d]);
            && |t| == 15 + |a.0| + |b.0| + |c.0| + |d.0| + |Print(a.1)| + |Print(b.1)| + |Print(c.1)| + |Print(d.1)|
            && IsAsciiText(t)
  {
    PlainCons(d, []);
    PlainCons(c, [d]);
    PlainCons(b, [c, d]);
    PlainCons(a, [b, c, d]);
    assert [d] + [] == [d] && [c] + [d] == [c, d] && [b] + [c, d] == [b, c, d] && [a] + [b, c, d] == [a, b, c, d];
  }

  lemma ConstantTexts(b: bool)
    ensures IsAsciiText(Print(Bool(b))) && |Print(Bool(b))| <= 5
    ensures IsAsciiText(Print(Array([]))) && |Print(Array([]))| == 2
  {
  }

  lemma FallbackMembersText(ok: bool, status: RunStatus, stopReason: StopReason)
    ensures var t := PrintMembers(FallbackMembers(ok, status, stopReason));
            |t| <= 75 && IsAsciiText(t)
  {
    hide PrintMembers, Print, Plain, IsAsciiText, RunStatusText, StopReasonText;
    var ms := FallbackMembers(ok, status, stopReason);
    PlainKeys();
    PlainRunStatus(status);
    PlainStopReason(stopReason);
    PlainText(Ascii(RunStatusText(status)));
    PlainText(Ascii(StopReasonText(stopReason)));
    ConstantTexts(ok);
    FourMembers(ms[0], ms[1], ms[2], ms[3]);
  }

  /** The last-resort shape has at most 92 bytes besides its count. */
  lemma FallbackIsSmall(ok: bool, status: RunStatus, stopReason: StopReason, n: nat)
    ensures Base(Fallback(ok, status, stopReason, n)) <= 92
  {
    hide PrintMembers, PruneMembers, FallbackMembers, Before, Quote;
    var v := Fallback(ok, status, stopReason, n);
    FallbackPruned(ok, status, stopReason, n);
    FallbackMembersText(ok, status, stopReason);
    AsciiBefore(PrintMembers(FallbackMembers(ok, status, stopReason)));
    AsciiByteLength(TextBefore(v));
    AsciiByteLength([CLOSE_BRACE]);
    assert TextAfter(v) == [CLOSE_BRACE];
  }

  lemma AsciiBefore(members: Str)
    requires IsAsciiText(members)
    ensures var t := [OPEN_BRACE] + (members + [COMMA]) + (Quote(Ascii("resultBytes")) + [COLON]);
            IsAsciiText(t) && |t| == |members| + 16
  {
    var quoted := Print(String(Ascii("resultBytes")));
    PlainKeys();
    PlainText(Ascii("resultBytes"));
    AsciiConcat(quoted, [COLON]);
    AsciiConcat(members, [COMMA]);
    AsciiConcat([OPEN_BRACE], members + [COMMA]);
    AsciiConcat([OPEN_BRACE] + (members + [COMMA]), quoted + [COLON]);
  }

  lemma AsciiConcat(a: Str, b: Str)
    requires IsAsciiText(a) && IsAsciiText(b)
    ensures IsAsciiText(a + b)
  {
  }
}
