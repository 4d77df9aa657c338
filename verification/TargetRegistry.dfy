/** Short-lived opaque refs to page elements (src/browser/target-registry.ts). */
module TargetRegistry {
  import opened Common
  import opened Text
  import opened Json
  import WorkflowSteps

  // ----- refs -----

  const UNDERSCORE: CodeUnit := 0x5F

  function Digit36(d: nat): CodeUnit
    requires d < 36
  {
    if d < 10 then 0x30 + d else 0x61 + d - 10
  }

  predicate IsDigit36(u: CodeUnit) { 0x30 <= u <= 0x39 || 0x61 <= u <= 0x7A }

  /** `Number.prototype.toString(36)` of a natural number. */
  function Base36(n: nat): (s: Str)
    ensures s != [] && forall i :: 0 <= i < |s| ==> IsDigit36(s[i])
  {
    if n < 36 then [Digit36(n)] else Base36(n / 36) + [Digit36(n % 36)]
  }

  /** The number that a numeral in base 36 stands for. */
  function Value36(s: Str): int {
    if s == [] then 0
    else
      var u: int := s[|s| - 1];
      36 * Value36(s[..|s| - 1]) + (if u < 0x61 then u - 0x30 else u - 0x61 + 10)
  }

  lemma {:induction false} Base36RoundTrip(n: nat)
    ensures Value36(Base36(n)) == n
  {
    if n < 36 {
      assert Base36(n)[..0] == [];
    } else {
      Base36RoundTrip(n / 36);
      assert Base36(n)[..|Base36(n)| - 1] == Base36(n / 36);
    }
  }

  /** Sixteen random hexadecimal digits follow the counter. */
  predicate Suffix(s: Str) {
    |s| == 16 && forall i :: 0 <= i < 16 ==> 0x30 <= s[i] <= 0x39 || 0x61 <= s[i] <= 0x66
  }

  function OpaqueRef(counter: nat, suffix: Str): Str {
    Ascii("ref_") + Base36(counter) + [UNDERSCORE] + suffix
  }

  /** Whatever the random parts, refs of different counters are different. */
  lemma RefsOfCountersDiffer(a: nat, x: Str, b: nat, y: Str)
    requires OpaqueRef(a, x) == OpaqueRef(b, y)
    ensures a == b && x == y
  {
    hide Base36, Ascii;
    var p, q := Base36(a), Base36(b);
    var l, r := p + [UNDERSCORE] + x, q + [UNDERSCORE] + y;
    assert OpaqueRef(a, x)[4..] == l && OpaqueRef(b, y)[4..] == r;
    FirstUnderscore(p, x);
    FirstUnderscore(q, y);
    assert |p| == |q|;
    assert l[..|p|] == p && r[..|q|] == q;
    assert l[|p| + 1..] == x && r[|q| + 1..] == y;
    Base36RoundTrip(a);
    Base36RoundTrip(b);
  }

  lemma FirstUnderscore(p: Str, x: Str)
    requires forall i :: 0 <= i < |p| ==> IsDigit36(p[i])
    ensures var l := p + [UNDERSCORE] + x;
            l[|p|] == UNDERSCORE && forall i :: 0 <= i < |p| ==> l[i] != UNDERSCORE
  {
  }

  /** Every generated ref has the shape that the workflow language accepts, as long as the
  counter has at most 79 digits. */
  lemma RefIsAccepted(counter: nat, suffix: Str)
    requires Suffix(suffix)
    ensures |Base36(counter)| <= 79 <==> WorkflowSteps.RefShape(OpaqueRef(counter, suffix))
  {
    hide Base36;
    var digits := Base36(counter);
    var ref := OpaqueRef(counter, suffix);
    RefStart();
    assert ref[0] == 'r' as int && ref[1] == 'e' as int && ref[2] == 'f' as int && ref[3] == '_' as int;
    forall i | 4 <= i < |ref|
      ensures WorkflowSteps.RefUnit(ref[i])
    {
      assert ref[i] == if i < 4 + |digits| then digits[i - 4] else if i == 4 + |digits| then UNDERSCORE else suffix[i - 5 - |digits|];
    }
  }

  lemma RefStart()
    ensures var s := Ascii("ref_"); |s| == 4 && s[0] == 'r' as int && s[1] == 'e' as int && s[2] == 'f' as int && s[3] == '_' as int
  {
  }

  // ----- records -----

  datatype Record = Record(ref: Str, generation: int, frameGeneration: int, frameId: Str, createdAt: int, element: nat)

  datatype Error = InvalidTarget | InvalidGeneration | TargetNotFound | StaleTarget | ElementGone | ElementAmbiguous | NotActionable

  predicate Young(r: Record, now: int, ttlMs: nat) { now - r.createdAt <= ttlMs }

  function Unexpired(records: seq<Record>, now: int, ttlMs: nat): (r: seq<Record>)
    ensures |r| <= |records|
    ensures forall x :: x in r <==> x in records && Young(x, now, ttlMs)
  {
    if records == [] then []
    else (if Young(records[0], now, ttlMs) then [records[0]] else []) + Unexpired(records[1..], now, ttlMs)
  }

  function Newest(records: seq<Record>, n: nat): (r: seq<Record>)
    ensures |r| <= n && |r| <= |records| && r == records[|records| - |r|..]
  {
    if |records| <= n then records else records[|records| - n..]
  }

  predicate DistinctRefs(records: seq<Record>) {
    forall i, j :: 0 <= i < j < |records| ==> records[i].ref != records[j].ref
  }

  /** The refs were generated by the counters up to `sequence`. */
  ghost predicate Generated(records: seq<Record>, sequence: nat) {
    forall r :: r in records ==> exists c: nat, s: Str :: c <= sequence && Suffix(s) && r.ref == OpaqueRef(c, s)
  }

  lemma {:induction false} UnexpiredIsDistinct(records: seq<Record>, now: int, ttlMs: nat)
    requires DistinctRefs(records)
    ensures DistinctRefs(Unexpired(records, now, ttlMs))
  {
    if records != [] {
      var rest := Unexpired(records[1..], now, ttlMs);
      UnexpiredIsDistinct(records[1..], now, ttlMs);
      assert forall i :: 0 <= i < |rest| ==> rest[i] in records[1..];
    }
  }

  function Find(records: seq<Record>, ref: Str): (r: Option<nat>)
    ensures r.Some? ==> r.value < |records| && records[r.value].ref == ref
    ensures r.None? ==> forall x :: x in records ==> x.ref != ref
  {
    if records == [] then None
    else if records[0].ref == ref then Some(0)
    else
      assert forall x :: x in records ==> x == records[0] || x in records[1..];
      match Find(records[1..], ref)
      case None => None
      case Some(i) => Some(i + 1)
  }

  /** What the checks on the page said: the element's count, whether its semantics still
  match, and whether it can be acted on. */
  datatype PageCheck = PageCheck(count: nat, matches: bool, actionable: bool)

  function PageError(c: PageCheck): Option<Error> {
    if c.count == 0 then Some(ElementGone)
    else if c.count != 1 then Some(ElementAmbiguous)
    else if !c.matches then Some(StaleTarget)
    else if !c.actionable then Some(NotActionable)
    else None
  }

  /** Does the record stay when these generations are kept? None stays when none is named. */
  predicate Suits(r: Record, wanted: Option<int>, frameWanted: Option<int>) {
    && (wanted.Some? || frameWanted.Some?)
    && (wanted.Some? ==> r.generation == wanted.value) && (frameWanted.Some? ==> r.frameGeneration == frameWanted.value)
  }

  function Chosen(records: seq<Record>, wanted: Option<int>, frameWanted: Option<int>): (r: seq<Record>)
    ensures |r| <= |records|
    ensures forall x :: x in r <==> x in records && Suits(x, wanted, frameWanted)
  {
    if records == [] then []
    else (if Suits(records[0], wanted, frameWanted) then [records[0]] else []) + Chosen(records[1..], wanted, frameWanted)
  }

  lemma {:induction false} ChosenIsDistinct(records: seq<Record>, wanted: Option<int>, frameWanted: Option<int>)
    requires DistinctRefs(records)
    ensures DistinctRefs(Chosen(records, wanted, frameWanted))
  {
    if records != [] {
      var rest := Chosen(records[1..], wanted, frameWanted);
      ChosenIsDistinct(records[1..], wanted, frameWanted);
      assert forall i :: 0 <= i < |rest| ==> rest[i] in records[1..];
    }
  }

  lemma {:induction false} ChosenAppend(records: seq<Record>, r: Record, wanted: Option<int>, frameWanted: Option<int>)
    ensures Chosen(records + [r], wanted, frameWanted) ==
            Chosen(records, wanted, frameWanted) + (if Suits(r, wanted, frameWanted) then [r] else [])
  {
    if records == [] {
      assert [] + [r] == [r] && [r][1..] == [];
    } else {
      assert (records + [r])[1..] == records[1..] + [r];
      ChosenAppend(records[1..], r, wanted, frameWanted);
    }
  }

  // ----- one call -----

  datatype State = State(maxRefs: nat, ttlMs: nat, records: seq<Record>, sequence: nat, generation: int, frameGeneration: int)

  datatype Event =
    | RegisterCall(element: nat, generation: Option<int>, frameGeneration: Option<int>, frameId: Str, suffix: Str,
                   now: int, createdAt: int)
    | SetGenerationCall(to: int, frameTo: int)
    | LookUp(now: int)              // a ref is resolved, or the refs are counted
    | InvalidateCall(wanted: Option<int>, frameWanted: Option<int>)   // `clear` names neither

  /** The record that a registration makes. */
  function NewRecord(s: State, e: Event): Record
    requires e.RegisterCall?
  {
    Record(OpaqueRef(s.sequence + 1, e.suffix), e.generation.GetOr(s.generation), e.frameGeneration.GetOr(s.frameGeneration),
           e.frameId, e.createdAt, e.element)
  }

  function Step(s: State, e: Event): State
    requires s.maxRefs > 0
  {
    match e
    case RegisterCall(_, _, _, _, _, now, _) =>
      s.(sequence := s.sequence + 1,
         records := Newest(Unexpired(s.records, now, s.ttlMs), s.maxRefs - 1) + [NewRecord(s, e)])
    case SetGenerationCall(generation, frameGeneration) =>
      if generation < 0 then s else s.(generation := generation, frameGeneration := frameGeneration, records := [])
    case LookUp(now) => s.(records := Unexpired(s.records, now, s.ttlMs))
    case InvalidateCall(wanted, frameWanted) => s.(records := Chosen(s.records, wanted, frameWanted))
  }

  // ----- runs -----

  function After(s: State, trace: seq<Event>, n: nat): (r: State)
    requires n <= |trace| && s.maxRefs > 0
    ensures r.maxRefs == s.maxRefs && r.ttlMs == s.ttlMs
  {
    if n == 0 then s else Step(After(s, trace, n - 1), trace[n - 1])
  }

  /** Does the event leave the record where it is, but for the limit on the number of refs? */
  predicate Spares(e: Event, r: Record, ttlMs: nat) {
    match e
    case RegisterCall(_, _, _, _, _, now, _) => Young(r, now, ttlMs)
    case SetGenerationCall(generation, _) => generation < 0
    case LookUp(now) => Young(r, now, ttlMs)
    case InvalidateCall(wanted, frameWanted) => Suits(r, wanted, frameWanted)
  }

  function Registrations(trace: seq<Event>): nat {
    if trace == [] then 0
    else Registrations(trace[..|trace| - 1]) + (if trace[|trace| - 1].RegisterCall? then 1 else 0)
  }

  /** Is the record among the `d` newest? */
  predicate Among(records: seq<Record>, r: Record, d: nat) {
    exists i :: 0 <= i < |records| && |records| - i <= d && records[i] == r
  }

  lemma AmongBehind(front: seq<Record>, rest: seq<Record>, r: Record, d: nat)
    requires Among(rest, r, d)
    ensures Among(front + rest, r, d)
  {
    var j :| 0 <= j < |rest| && |rest| - j <= d && rest[j] == r;
    assert (front + rest)[|front| + j] == r;
  }

  lemma AmongNewest(u: seq<Record>, r: Record, d: nat, n: nat, added: Record)
    requires Among(u, r, d) && d <= n
    ensures Among(Newest(u, n) + [added], r, d + 1)
  {
    var i :| 0 <= i < |u| && |u| - i <= d && u[i] == r;
    var kept := Newest(u, n);
    var k := |u| - |kept|;
    hide Newest;
    assert k <= i;
    AmongAt(u, k, i, d, added);
  }

  lemma AmongAt(u: seq<Record>, k: nat, i: nat, d: nat, added: Record)
    requires k <= i < |u| && |u| - i <= d
    ensures Among(u[k..] + [added], u[i], d + 1)
  {
    var all := u[k..] + [added];
    assert all[i - k] == u[i];
  }

  lemma {:induction false} UnexpiredKeepsNear(records: seq<Record>, r: Record, d: nat, now: int, ttlMs: nat)
    requires Among(records, r, d) && Young(r, now, ttlMs)
    ensures Among(Unexpired(records, now, ttlMs), r, d)
  {
    var i :| 0 <= i < |records| && |records| - i <= d && records[i] == r;
    var rest := Unexpired(records[1..], now, ttlMs);
    if i == 0 {
      assert Unexpired(records, now, ttlMs)[0] == r;
    } else {
      assert records[1..][i - 1] == r;
      UnexpiredKeepsNear(records[1..], r, d, now, ttlMs);
      hide Among;
      AmongBehind(if Young(records[0], now, ttlMs) then [records[0]] else [], rest, r, d);
    }
  }

  lemma {:induction false} ChosenKeepsNear(records: seq<Record>, r: Record, d: nat, wanted: Option<int>, frameWanted: Option<int>)
    requires Among(records, r, d) && Suits(r, wanted, frameWanted)
    ensures Among(Chosen(records, wanted, frameWanted), r, d)
  {
    hide Suits;
    var i :| 0 <= i < |records| && |records| - i <= d && records[i] == r;
    var rest := Chosen(records[1..], wanted, frameWanted);
    if i == 0 {
      assert Chosen(records, wanted, frameWanted)[0] == r;
    } else {
      assert records[1..][i - 1] == r;
      ChosenKeepsNear(records[1..], r, d, wanted, frameWanted);
      hide Among;
      AmongBehind(if Suits(records[0], wanted, frameWanted) then [records[0]] else [], rest, r, d);
    }
  }

  lemma StepKeepsNear(s: State, e: Event, r: Record, d: nat)
    requires s.maxRefs > 0 && Among(s.records, r, d) && Spares(e, r, s.ttlMs)
    requires e.RegisterCall? ==> d < s.maxRefs
    ensures Among(Step(s, e).records, r, if e.RegisterCall? then d + 1 else d)
  {
    hide Unexpired, Chosen, Newest, NewRecord, Among;
    if e.InvalidateCall? {
      ChosenKeepsNear(s.records, r, d, e.wanted, e.frameWanted);
    } else if !e.SetGenerationCall? {
      UnexpiredKeepsNear(s.records, r, d, e.now, s.ttlMs);
      if e.RegisterCall? {
        AmongNewest(Unexpired(s.records, e.now, s.ttlMs), r, d, s.maxRefs - 1, NewRecord(s, e));
      }
    }
  }

  /** A record is in the registry only from its registration on. */
  lemma StepAdds(s: State, e: Event, r: Record)
    requires s.maxRefs > 0 && r in Step(s, e).records
    ensures (r in s.records && Spares(e, r, s.ttlMs)) || (e.RegisterCall? && r == NewRecord(s, e))
  {
    hide OpaqueRef;
    if e.RegisterCall? {
      var u := Unexpired(s.records, e.now, s.ttlMs);
      var kept := Newest(u, s.maxRefs - 1);
      assert r in kept ==> r in u;
    }
  }

  /** Every record in a registry that began empty was registered, and no generation was set
  and no clock reading found it too old since. */
  lemma {:induction false} RecordOrigin(s: State, trace: seq<Event>, n: nat, r: Record) returns (m: nat)
    requires n <= |trace| && s.maxRefs > 0 && s.records == [] && r in After(s, trace, n).records
    ensures m < n && trace[m].RegisterCall? && r == NewRecord(After(s, trace, m), trace[m])
    ensures forall k :: m < k < n ==> Spares(trace[k], r, s.ttlMs)
  {
    hide Step, Spares;
    var before, e := After(s, trace, n - 1), trace[n - 1];
    StepAdds(before, e, r);
    if e.RegisterCall? && r == NewRecord(before, e) {
      m := n - 1;
    } else {
      m := RecordOrigin(s, trace, n - 1, r);
    }
  }

  lemma {:induction false} SequenceGrows(s: State, trace: seq<Event>, m: nat, n: nat)
    requires m <= n <= |trace| && s.maxRefs > 0
    ensures After(s, trace, m).sequence <= After(s, trace, n).sequence
    ensures m < n && trace[m].RegisterCall? ==> After(s, trace, m).sequence < After(s, trace, n).sequence
  {
    hide Unexpired, OpaqueRef;
    if m < n {
      SequenceGrows(s, trace, m, n - 1);
    }
  }

  /** The same record is never registered again. */
  lemma OnlyOnce(s: State, trace: seq<Event>, m: nat, n: nat)
    requires m < n < |trace| && s.maxRefs > 0 && trace[m].RegisterCall? && trace[n].RegisterCall?
    ensures NewRecord(After(s, trace, m), trace[m]).ref != NewRecord(After(s, trace, n), trace[n]).ref
  {
    hide After, OpaqueRef;
    SequenceGrows(s, trace, m, n);
    var a, b := After(s, trace, m).sequence + 1, After(s, trace, n).sequence + 1;
    if OpaqueRef(a, trace[m].suffix) == OpaqueRef(b, trace[n].suffix) {
      RefsOfCountersDiffer(a, trace[m].suffix, b, trace[n].suffix);
    }
  }

  lemma RegistrationsAppend(trace: seq<Event>, m: nat, n: nat)
    requires m < n < |trace|
    ensures Registrations(trace[m + 1..n + 1]) == Registrations(trace[m + 1..n]) + (if trace[n].RegisterCall? then 1 else 0)
  {
    assert trace[m + 1..n + 1][..n - m - 1] == trace[m + 1..n];
  }

  lemma {:induction false} SparedIsNear(s: State, trace: seq<Event>, m: nat, n: nat, r: Record)
    requires m < n <= |trace| && s.maxRefs > 0 && trace[m].RegisterCall? && r == NewRecord(After(s, trace, m), trace[m])
    requires Registrations(trace[m + 1..n]) < s.maxRefs && forall k :: m < k < n ==> Spares(trace[k], r, s.ttlMs)
    ensures Among(After(s, trace, n).records, r, Registrations(trace[m + 1..n]) + 1)
  {
    hide Step, Spares, NewRecord, After;
    if n == m + 1 {
      JustRegistered(s, trace, m);
      assert trace[m + 1..n] == [];
    } else {
      RegistrationsAppend(trace, m, n - 1);
      SparedIsNear(s, trace, m, n - 1, r);
      StepKeepsNear(After(s, trace, n - 1), trace[n - 1], r, Registrations(trace[m + 1..n - 1]) + 1);
      OneStep(s, trace, n - 1);
    }
  }

  lemma OneStep(s: State, trace: seq<Event>, n: nat)
    requires n < |trace| && s.maxRefs > 0
    ensures After(s, trace, n + 1) == Step(After(s, trace, n), trace[n])
  {
    hide Step;
  }

  lemma JustRegistered(s: State, trace: seq<Event>, m: nat)
    requires m < |trace| && s.maxRefs > 0 && trace[m].RegisterCall?
    ensures Among(After(s, trace, m + 1).records, NewRecord(After(s, trace, m), trace[m]), 1)
  {
    hide Unexpired, OpaqueRef, After;
    OneStep(s, trace, m);
    var r := After(s, trace, m + 1).records;
    assert r[|r| - 1] == NewRecord(After(s, trace, m), trace[m]);
  }

  lemma {:induction false} KeptIsSpared(s: State, trace: seq<Event>, m: nat, n: nat, r: Record)
    requires m < n <= |trace| && s.maxRefs > 0 && trace[m].RegisterCall? && r == NewRecord(After(s, trace, m), trace[m])
    requires r in After(s, trace, n).records
    ensures forall k :: m < k < n ==> Spares(trace[k], r, s.ttlMs)
  {
    hide Step, Spares, NewRecord, After;
    if m + 1 < n {
      OneStep(s, trace, n - 1);
      StepAdds(After(s, trace, n - 1), trace[n - 1], r);
      if trace[n - 1].RegisterCall? {
        OnlyOnce(s, trace, m, n - 1);
      }
      KeptIsSpared(s, trace, m, n - 1, r);
    }
  }

  /** In every interleaving of registrations, navigations, lookups and invalidations: as long
  as fewer than maxRefs refs were registered after it, a ref is retained exactly when no
  generation was set, no invalidation named another one, the refs were not cleared, and no
  reading of the clock found it too old since its registration. So the refs of a
  snapshot of at most maxRefs elements survive each other, and none survives a navigation
  that falls between two of its registrations. */
  lemma RefIsRetained(s: State, trace: seq<Event>, m: nat, n: nat)
    requires m < n <= |trace| && s.maxRefs > 0 && trace[m].RegisterCall?
    requires Registrations(trace[m + 1..n]) < s.maxRefs
    ensures var r := NewRecord(After(s, trace, m), trace[m]);
            r in After(s, trace, n).records <==> forall k :: m < k < n ==> Spares(trace[k], r, s.ttlMs)
  {
    hide Step, Spares, NewRecord, After;
    var r := NewRecord(After(s, trace, m), trace[m]);
    if r in After(s, trace, n).records {
      KeptIsSpared(s, trace, m, n, r);
    }
    if forall k :: m < k < n ==> Spares(trace[k], r, s.ttlMs) {
      SparedIsNear(s, trace, m, n, r);
    }
  }

  // ----- the class -----

  class Registry {
    const maxRefs: nat
    const ttlMs: nat
    var records: seq<Record>        // a map by ref, in insertion order
    var sequence: nat
    var generation: int
    var frameGeneration: int

    ghost function ToState(): State
      reads this
    {
      State(maxRefs, ttlMs, records, sequence, generation, frameGeneration)
    }

    ghost predicate Valid()
      reads this
    {
      1 <= maxRefs && |records| <= maxRefs && DistinctRefs(records) && Generated(records, sequence)
    }

    constructor (maxRefs: Option<int>, ttlMs: Option<int>, generation: int, frameGeneration: int)
      ensures Valid() && records == [] && this.generation == generation && this.frameGeneration == frameGeneration
      ensures maxRefs.Some? && 1 <= maxRefs.value <= 10_000 ==> this.maxRefs == maxRefs.value
    {
      this.maxRefs := Max(1, Min(10_000, maxRefs.GetOr(2_000)));
      this.ttlMs := Max(100, Min(3_600_000, ttlMs.GetOr(120_000)));
      this.generation, this.frameGeneration := generation, frameGeneration;
      records, sequence := [], 0;
    }

    method PruneExpired(now: int)
      requires Valid()
      modifies `records
      ensures Valid() && records == Unexpired(old(records), now, ttlMs)
      ensures ToState() == Step(old(ToState()), LookUp(now))
    {
      hide Generated, DistinctRefs;
      var i := 0;
      PrunedNothing(records, now, ttlMs);
      while i < |records|
        invariant i <= |records| && |records| <= |old(records)|
        invariant records[..i] + Unexpired(records[i..], now, ttlMs) == Unexpired(old(records), now, ttlMs)
        decreases |records| - i
      {
        PrunedStep(records, i, now, ttlMs);
        if now - records[i].createdAt > ttlMs {
          records := records[..i] + records[i + 1..];
        } else {
          i := i + 1;
        }
      }
      PrunedNothing(records, now, ttlMs);
      UnexpiredIsDistinct(old(records), now, ttlMs);
      FewerAreGenerated(old(records), records, sequence);
    }

    /** Drops the expired records and then the oldest, if need be, and gives the new record a
    ref that differs from every other. */
    method Register(valid: bool, element: nat, generation: Option<int>, frameGeneration: Option<int>, frameId: Str,
                    suffix: Str, now: int, createdAt: int) returns (r: Result<Str, Error>)
      requires Valid() && Suffix(suffix)
      modifies `records, `sequence
      ensures Valid()
      ensures !valid ==> r == Err(InvalidTarget) && records == old(records) && sequence == old(sequence)
      ensures valid ==>
                && ToState() == Step(old(ToState()), RegisterCall(element, generation, frameGeneration, frameId, suffix, now, createdAt))
                && sequence == old(sequence) + 1 && r == Ok(OpaqueRef(sequence, suffix))
                && records == Newest(Unexpired(old(records), now, ttlMs), maxRefs - 1)
                              + [Record(r.value, generation.GetOr(this.generation), frameGeneration.GetOr(this.frameGeneration),
                                        frameId, createdAt, element)]
    {
      hide Generated, DistinctRefs, Unexpired;
      if !valid {
        return Err(InvalidTarget);
      }
      PruneExpired(now);
      ghost var pruned := records;
      while |records| >= maxRefs
        invariant |records| <= |pruned| && records == pruned[|pruned| - |records|..]
        invariant |records| < |pruned| ==> |records| >= maxRefs - 1
        modifies `records
      {
        records := records[1..];
      }
      sequence := sequence + 1;
      var ref := OpaqueRef(sequence, suffix);
      NewRefIsFresh(pruned, |pruned| - |records|, sequence, suffix);
      var record := Record(ref, generation.GetOr(this.generation), frameGeneration.GetOr(this.frameGeneration), frameId, createdAt, element);
      NewRecordKeeps(records, record, sequence, suffix);
      records := records + [record];
      r := Ok(ref);
    }

    method SetGeneration(generation: int, frameGeneration: int) returns (r: Result<(), Error>)
      requires Valid()
      modifies `records, `generation, `frameGeneration
      ensures Valid() && ToState() == Step(old(ToState()), SetGenerationCall(generation, frameGeneration))
      ensures if generation < 0
              then r == Err(InvalidGeneration) && records == old(records) && this.generation == old(this.generation)
                   && this.frameGeneration == old(this.frameGeneration)
              else r == Ok(()) && records == [] && this.generation == generation && this.frameGeneration == frameGeneration
    {
      if generation < 0 {
        return Err(InvalidGeneration);
      }
      this.generation, this.frameGeneration := generation, frameGeneration;
      records := [];
      r := Ok(());
    }

    /** Keeps the records of the generations named, or none when none is named. */
    method Invalidate(wanted: Option<int>, frameWanted: Option<int>)
      requires Valid()
      modifies `records
      ensures Valid() && ToState() == Step(old(ToState()), InvalidateCall(wanted, frameWanted))
    {
      hide Generated, DistinctRefs, Suits;
      var kept := [];
      ChosenIsDistinct(records, wanted, frameWanted);
      FewerAreGenerated(records, Chosen(records, wanted, frameWanted), sequence);
      var all := records;
      for i := 0 to |all|
        invariant kept == Chosen(all[..i], wanted, frameWanted) && records == all
      {
        assert all[..i + 1] == all[..i] + [all[i]];
        ChosenAppend(all[..i], all[i], wanted, frameWanted);
        if Suits(all[i], wanted, frameWanted) {
          kept := kept + [all[i]];
        }
      }
      assert all[..|all|] == all;
      records := kept;
    }

    method Clear()
      requires Valid()
      modifies `records
      ensures Valid() && records == [] && ToState() == Step(old(ToState()), InvalidateCall(None, None))
    {
      NothingChosen(records);
      records := [];
    }

    /** A ref resolves exactly when it is retained, not expired, of the asked generations,
    and still in order on the page. */
    method Resolve(ref: Str, generation: Option<int>, frameGeneration: Option<int>, page: PageCheck, now: int)
      returns (r: Result<Record, Error>)
      requires Valid()
      modifies `records
      ensures Valid() && records == Unexpired(old(records), now, ttlMs)
      ensures ToState() == Step(old(ToState()), LookUp(now))
      ensures r.Ok? ==> r.value in old(records) && r.value.ref == ref && Young(r.value, now, ttlMs)
                        && r.value.generation == generation.GetOr(this.generation)
                        && r.value.frameGeneration == frameGeneration.GetOr(this.frameGeneration)
                        && PageError(page).None?
      ensures forall x :: x in old(records) && x.ref == ref && Young(x, now, ttlMs)
                          && x.generation == generation.GetOr(this.generation)
                          && x.frameGeneration == frameGeneration.GetOr(this.frameGeneration) ==>
                r == (if PageError(page).Some? then Err(PageError(page).value) else Ok(x))
      ensures (forall x :: x in old(records) && x.ref == ref ==> !Young(x, now, ttlMs)) ==> r == Err(TargetNotFound)
    {
      hide Generated;
      PruneExpired(now);
      var found := Find(records, ref);
      if found.None? {
        return Err(TargetNotFound);
      }
      var record := records[found.value];
      OnlyOneOf(records, found.value, ref);
      if record.generation != generation.GetOr(this.generation) || record.frameGeneration != frameGeneration.GetOr(this.frameGeneration) {
        return Err(StaleTarget);
      }
      var error := PageError(page);
      r := if error.Some? then Err(error.value) else Ok(record);
    }

    /** The refs of one snapshot: one registration for each element found, in order. Each
    reads the clock twice, when it prunes and when it stamps the new record. */
    method RegisterAll(elements: seq<nat>, suffixes: seq<Str>, frameId: Str, prunes: seq<int>, created: seq<int>)
      returns (refs: seq<Str>)
      requires Valid() && |suffixes| == |prunes| == |created| == |elements|
      requires forall i :: 0 <= i < |suffixes| ==> Suffix(suffixes[i])
      modifies `records, `sequence
      ensures Valid() && |refs| == |elements| && sequence == old(sequence) + |elements|
      ensures forall i, j :: 0 <= i < j < |refs| ==> refs[i] != refs[j]
      ensures |elements| <= maxRefs && Quick(prunes, created, ttlMs) ==>
                && |records| >= |refs|
                && forall i :: 0 <= i < |refs| ==>
                     records[|records| - |refs| + i] == Record(refs[i], generation, frameGeneration, frameId, created[i], elements[i])
    {
      hide Generated, DistinctRefs, Unexpired, TailOf, OpaqueRef, Newest, Quick;
      refs := [];
      NoTail(records, generation, frameGeneration, frameId);
      ghost var kept := |elements| <= maxRefs && Quick(prunes, created, ttlMs);
      for i := 0 to |elements|
        invariant Valid() && |refs| == i && sequence == old(sequence) + i
        invariant forall k :: 0 <= k < i ==> refs[k] == OpaqueRef(old(sequence) + k + 1, suffixes[k])
        invariant kept ==> TailOf(records, refs, elements[..i], generation, frameGeneration, frameId, created[..i])
      {
        ghost var before := records;
        var ref := Register(true, elements[i], None, None, frameId, suffixes[i], prunes[i], created[i]);
        assert elements[..i + 1] == elements[..i] + [elements[i]] && created[..i + 1] == created[..i] + [created[i]];
        if kept {
          QuickSoFar(prunes, created, ttlMs, i);
          TailGrows(before, refs, elements[..i], generation, frameGeneration, frameId, created[..i], prunes[i], ttlMs, maxRefs,
                    ref.value, elements[i], created[i]);
        }
        refs := refs + [ref.value];
      }
      assert elements[..|elements|] == elements && created[..|elements|] == created;
      if kept {
        TailMeaning(records, refs, elements, generation, frameGeneration, frameId, created);
      }
      CountersDiffer(refs, old(sequence), suffixes);
    }
  }

  lemma NothingChosen(records: seq<Record>)
    ensures Chosen(records, None, None) == []
  {
    assert forall r :: !Suits(r, None, None);
  }

  /** No record of the snapshot expires while the snapshot is taken. */
  predicate Quick(prunes: seq<int>, created: seq<int>, ttlMs: nat) {
    |prunes| == |created| && forall i, j :: 0 <= i < j < |prunes| ==> prunes[j] - created[i] <= ttlMs
  }

  lemma QuickSoFar(prunes: seq<int>, created: seq<int>, ttlMs: nat, i: nat)
    requires Quick(prunes, created, ttlMs) && i < |prunes|
    ensures forall k :: 0 <= k < i ==> prunes[i] - created[..i][k] <= ttlMs
  {
  }

  lemma NoTail(records: seq<Record>, generation: int, frameGeneration: int, frameId: Str)
    ensures TailOf(records, [], [], generation, frameGeneration, frameId, [])
  {
  }

  lemma TailMeaning(records: seq<Record>, refs: seq<Str>, elements: seq<nat>, generation: int, frameGeneration: int, frameId: Str, created: seq<int>)
    requires TailOf(records, refs, elements, generation, frameGeneration, frameId, created)
    ensures |refs| == |elements| == |created| <= |records|
    ensures forall i :: 0 <= i < |refs| ==>
              records[|records| - |refs| + i] == Record(refs[i], generation, frameGeneration, frameId, created[i], elements[i])
  {
  }

  lemma CountersDiffer(refs: seq<Str>, sequence: nat, suffixes: seq<Str>)
    requires |refs| == |suffixes| && forall k :: 0 <= k < |refs| ==> refs[k] == OpaqueRef(sequence + k + 1, suffixes[k])
    ensures forall i, j :: 0 <= i < j < |refs| ==> refs[i] != refs[j]
  {
    hide OpaqueRef;
    forall i, j | 0 <= i < j < |refs|
      ensures refs[i] != refs[j]
    {
      if refs[i] == refs[j] {
        RefsOfCountersDiffer(sequence + i + 1, suffixes[i], sequence + j + 1, suffixes[j]);
      }
    }
  }

  lemma PrunedNothing(records: seq<Record>, now: int, ttlMs: nat)
    ensures records[..0] + Unexpired(records[0..], now, ttlMs) == Unexpired(records, now, ttlMs)
    ensures records[..|records|] + Unexpired(records[|records|..], now, ttlMs) == records
  {
    assert records[0..] == records && records[|records|..] == [];
  }

  lemma UnexpiredHead(records: seq<Record>, i: nat, now: int, ttlMs: nat)
    requires i < |records|
    ensures Unexpired(records[i..], now, ttlMs) ==
            (if Young(records[i], now, ttlMs) then [records[i]] else []) + Unexpired(records[i + 1..], now, ttlMs)
  {
    assert records[i..][1..] == records[i + 1..];
  }

  lemma Regroup<T>(s: seq<T>, i: nat, rest: seq<T>)
    requires i < |s|
    ensures s[..i] + ([s[i]] + rest) == s[..i + 1] + rest && s[..i] + ([] + rest) == s[..i] + rest
    ensures (s[..i] + s[i + 1..])[..i] == s[..i] && (s[..i] + s[i + 1..])[i..] == s[i + 1..]
  {
  }

  lemma PrunedStep(records: seq<Record>, i: nat, now: int, ttlMs: nat)
    requires i < |records|
    ensures var whole := records[..i] + Unexpired(records[i..], now, ttlMs);
            if Young(records[i], now, ttlMs) then whole == records[..i + 1] + Unexpired(records[i + 1..], now, ttlMs)
            else
              var shorter := records[..i] + records[i + 1..];
              whole == shorter[..i] + Unexpired(shorter[i..], now, ttlMs)
  {
    hide Unexpired;
    UnexpiredHead(records, i, now, ttlMs);
    Regroup(records, i, Unexpired(records[i + 1..], now, ttlMs));
  }

  lemma FewerAreGenerated(all: seq<Record>, some: seq<Record>, sequence: nat)
    requires Generated(all, sequence) && forall x :: x in some ==> x in all
    ensures Generated(some, sequence)
  {
  }

  lemma NewRefIsFresh(pruned: seq<Record>, k: nat, sequence: nat, suffix: Str)
    requires k <= |pruned| && sequence > 0 && Generated(pruned, sequence - 1) && DistinctRefs(pruned)
    ensures forall x :: x in pruned ==> x.ref != OpaqueRef(sequence, suffix)
    ensures Generated(pruned[k..], sequence) && DistinctRefs(pruned[k..])
  {
    forall x | x in pruned
      ensures x.ref != OpaqueRef(sequence, suffix)
    {
      var c: nat, s: Str :| c <= sequence - 1 && Suffix(s) && x.ref == OpaqueRef(c, s);
      if x.ref == OpaqueRef(sequence, suffix) {
        RefsOfCountersDiffer(c, s, sequence, suffix);
      }
    }
    forall x | x in pruned[k..]
      ensures exists c: nat, s: Str :: c <= sequence && Suffix(s) && x.ref == OpaqueRef(c, s)
    {
      assert x in pruned;
      var c: nat, s: Str :| c <= sequence - 1 && Suffix(s) && x.ref == OpaqueRef(c, s);
      assert c <= sequence;
    }
  }

  lemma NewRecordKeeps(records: seq<Record>, r: Record, sequence: nat, suffix: Str)
    requires Generated(records, sequence) && DistinctRefs(records) && Suffix(suffix) && r.ref == OpaqueRef(sequence, suffix)
    requires forall x :: x in records ==> x.ref != r.ref
    ensures Generated(records + [r], sequence) && DistinctRefs(records + [r])
  {
    assert forall i :: 0 <= i < |records| ==> records[i] in records;
  }

  lemma OnlyOneOf(records: seq<Record>, i: nat, ref: Str)
    requires DistinctRefs(records) && i < |records| && records[i].ref == ref
    ensures forall x :: x in records && x.ref == ref ==> x == records[i]
  {
  }

  /** The last records are those of the given refs. */
  predicate TailOf(records: seq<Record>, refs: seq<Str>, elements: seq<nat>, generation: int, frameGeneration: int, frameId: Str, created: seq<int>) {
    && |refs| == |elements| == |created| <= |records|
    && forall i :: 0 <= i < |refs| ==>
         records[|records| - |refs| + i] == Record(refs[i], generation, frameGeneration, frameId, created[i], elements[i])
  }

  lemma {:induction false} YoungTailStays(records: seq<Record>, k: nat, now: int, ttlMs: nat)
    requires k <= |records| && forall i :: k <= i < |records| ==> Young(records[i], now, ttlMs)
    ensures var u := Unexpired(records, now, ttlMs);
            |u| >= |records| - k && u[|u| - (|records| - k)..] == records[k..]
  {
    if records != [] {
      if k == 0 {
        assert forall i :: 0 <= i < |records| - 1 ==> records[1..][i] == records[i + 1];
        YoungTailStays(records[1..], 0, now, ttlMs);
        var rest := Unexpired(records[1..], now, ttlMs);
        assert rest[|rest| - (|records| - 1)..] == records[1..];
        assert |rest| == |records| - 1;
        assert records == [records[0]] + records[1..];
      } else {
        YoungTailStays(records[1..], k - 1, now, ttlMs);
        assert records[1..][k - 1..] == records[k..];
      }
    }
  }

  lemma TailIsYoung(records: seq<Record>, refs: seq<Str>, elements: seq<nat>, generation: int, frameGeneration: int, frameId: Str,
                    created: seq<int>, now: int, ttlMs: nat)
    requires TailOf(records, refs, elements, generation, frameGeneration, frameId, created)
    requires forall k :: 0 <= k < |created| ==> now - created[k] <= ttlMs
    ensures |refs| <= |records| && forall i :: |records| - |refs| <= i < |records| ==> Young(records[i], now, ttlMs)
  {
    var k := |records| - |refs|;
    forall i | k <= i < |records|
      ensures Young(records[i], now, ttlMs)
    {
      var ref := refs[i - k];
      assert records[k + (i - k)] == Record(ref, generation, frameGeneration, frameId, created[i - k], elements[i - k]);
    }
  }

  /** The last n elements of a sequence are the last n of any suffix that still has them. */
  lemma SuffixKeepsTail<T>(s: seq<T>, t: seq<T>, n: nat)
    requires n <= |t| <= |s| && t == s[|s| - |t|..]
    ensures t[|t| - n..] == s[|s| - n..]
  {
  }

  lemma TailGrows(before: seq<Record>, refs: seq<Str>, elements: seq<nat>, generation: int, frameGeneration: int, frameId: Str,
                  created: seq<int>, now: int, ttlMs: nat, maxRefs: nat, ref: Str, element: nat, createdAt: int)
    requires TailOf(before, refs, elements, generation, frameGeneration, frameId, created) && |refs| < maxRefs
    requires forall k :: 0 <= k < |created| ==> now - created[k] <= ttlMs
    ensures TailOf(Newest(Unexpired(before, now, ttlMs), maxRefs - 1) + [Record(ref, generation, frameGeneration, frameId, createdAt, element)],
                   refs + [ref], elements + [element], generation, frameGeneration, frameId, created + [createdAt])
  {
    hide Unexpired, TailOf;
    var n := |refs|;
    TailIsYoung(before, refs, elements, generation, frameGeneration, frameId, created, now, ttlMs);
    YoungTailStays(before, |before| - n, now, ttlMs);
    var u := Unexpired(before, now, ttlMs);
    var kept := Newest(u, maxRefs - 1);
    SuffixKeepsTail(u, kept, n);
    TailTransfers(before, kept, refs, elements, generation, frameGeneration, frameId, created, ref, element, createdAt);
  }

  lemma TailTransfers(before: seq<Record>, kept: seq<Record>, refs: seq<Str>, elements: seq<nat>,
                      generation: int, frameGeneration: int, frameId: Str, created: seq<int>, ref: Str, element: nat, createdAt: int)
    requires TailOf(before, refs, elements, generation, frameGeneration, frameId, created)
    requires |refs| <= |kept| && |refs| <= |before| && kept[|kept| - |refs|..] == before[|before| - |refs|..]
    ensures TailOf(kept + [Record(ref, generation, frameGeneration, frameId, createdAt, element)],
                   refs + [ref], elements + [element], generation, frameGeneration, frameId, created + [createdAt])
  {
    var n := |refs|;
    var tail, start, first := before[|before| - n..], |kept| - n, |before| - n;
    assert forall i :: 0 <= i < n ==> tail[i] == kept[start + i];
    assert forall i :: 0 <= i < n ==> tail[i] == before[first + i];
  }
}
