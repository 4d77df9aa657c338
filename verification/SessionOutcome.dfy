/** What one action makes of a browser session that is left alone: the six events of a queued
task come to one move between the session's states (src/browser/browser-session.ts). */
module SessionOutcome {
  import opened Common
  import opened Text
  import ControlLease
  import opened SessionQueue
  import opened SessionProgress

  // ----- the simple form -----

  /** Which actions each state lets through. */
  predicate Performs(state: BrowserState, k: Kind) {
    match state
    case Ready => k.Ordinary? || k.HandOver?
    case PausedChallenge => (k.Ordinary? && !k.ready && k.paused) || k.HandOver? || k.ResumeSession? || k.ReopenHeaded?
    case HumanTakeover => (k.Ordinary? && !k.ready) || k.ResumeSession?
    case UserControl => (k.Ordinary? && !k.ready && k.user) || k.TakeBack?
    case Starting => k.Ordinary? && !k.ready
    case Busy => k.Ordinary? && !k.ready
    case _ => false
  }

  predicate Finds(scan: Scan) { scan.Detected? && scan.pause }

  /** A challenge that is found pauses the session unless a person or a stop has it. */
  function AfterScan(state: BrowserState, scan: Scan): BrowserState {
    if Finds(scan) && (state == Ready || state == Starting || state == Busy) then PausedChallenge else state
  }

  /** The body runs after a scan that works, and a task that needs READY only if the scan has
  found nothing. */
  predicate BodyRuns(state: BrowserState, k: Kind, scan: Scan) {
    Performs(state, k) && !scan.ScanError? && (RequireReady(k) ==> !Finds(scan))
  }

  /** The event that ends the body of task i. */
  predicate EndsBody(b: Event, i: nat, k: Kind) {
    match b
    case OrdinaryStep(j) => j == i && k.Ordinary?
    case HandOverStep(j, handoff, takeover) => j == i && k.HandOver? && HandOverEvents(handoff, takeover)
    case TakeBackStep(j, release, resume) => j == i && k.TakeBack? && TakeBackEvents(release, resume)
    case ResumeStep(j, _) => j == i && k.ResumeSession?
    case ReopenStep(j) => j == i && k.ReopenHeaded?
    case BodyFails(j) => j == i
    case _ => false
  }

  /** Two lease calls of which the second is made only when the first succeeds. */
  function TwoCalls(lease: ControlLease.State, first: ControlLease.Event, second: ControlLease.Event): (ControlLease.State, bool) {
    var (l1, r1) := ControlLease.Step(lease, first);
    if r1.Err? then (l1, false)
    else
      var (l2, r2) := ControlLease.Step(l1, second);
      (l2, r2.Ok?)
  }

  /** What a body makes of the state and the lease. */
  function AfterBody(state: BrowserState, lease: ControlLease.State, b: Event): (BrowserState, ControlLease.State) {
    match b
    case HandOverStep(_, handoff, takeover) =>
      var (l, ok) := TwoCalls(lease, handoff, takeover); (if ok then UserControl else state, l)
    case TakeBackStep(_, release, resume) =>
      var (l, ok) := TwoCalls(lease, release, resume); (if ok then Ready else state, l)
    case ResumeStep(_, detected) => (if detected then PausedChallenge else Ready, lease)
    case ReopenStep(_) => (HumanTakeover, lease)
    case _ => (state, lease)
  }

  /** One action: a scan and a body, in a session that lets it through. */
  function Outcome(s: Session, k: Kind, w: Option<nat>, scan: Scan, b: Event): (BrowserState, ControlLease.State) {
    if Foreign(s, w) || !Performs(s.state, k) then (s.state, s.lease)
    else if !BodyRuns(s.state, k, scan) then (if scan.ScanError? then s.state else AfterScan(s.state, scan), s.lease)
    else AfterBody(AfterScan(s.state, scan), s.lease, b)
  }

  // ----- the six events -----

  function SixEvents(k: Kind, w: Option<nat>, i: nat, scan: Scan, b: Event): (r: seq<Event>)
    ensures |r| == 6
  {
    [Submit(k, w), Begin(i, false), ScanReports(i, scan), BodyStarts(i), b, Finish(i)]
  }

  /** The session with one more task in this phase. */
  function WithLast(s: Session, k: Kind, w: Option<nat>, phase: Phase, state: BrowserState, lease: ControlLease.State): Session {
    s.(tasks := s.tasks + [Task(k, w, phase)], state := state, lease := lease,
       queueDepth := if phase.Settled? then s.queueDepth else s.queueDepth + 1)
  }

  /** Nothing is queued that has not ended, and there is room. */
  predicate Quiescent(s: Session) {
    s.state != Busy && s.queueDepth < s.maxQueue && (s.tasks == [] || s.tasks[|s.tasks| - 1].phase == Settled)
  }

  /** Is the action let into the queue? */
  predicate Queued(s: Session, k: Kind, w: Option<nat>) { PublicGuard(s, k) && Admits(s, k, w) }

  function While(k: Kind, state: BrowserState): BrowserState { if RequireReady(k) then Busy else state }

  lemma Submitted(s: Session, k: Kind, w: Option<nat>)
    requires Quiescent(s)
    ensures Step(s, Submit(k, w)) == if Queued(s, k, w) then WithLast(s, k, w, Waiting, s.state, s.lease) else s
    ensures !Queued(s, k, w) ==> Foreign(s, w) || !Performs(s.state, k)
  {
  }

  lemma Begun(s: Session, k: Kind, w: Option<nat>)
    requires Quiescent(s) && Queued(s, k, w)
    ensures Step(WithLast(s, k, w, Waiting, s.state, s.lease), Begin(|s.tasks|, false)) ==
              if Performs(s.state, k) then WithLast(s, k, w, Scanning(s.state), While(k, s.state), s.lease)
              else WithLast(s, k, w, Failing(s.state), s.state, s.lease)
  {
  }

  lemma ScannedLast(s: Session, k: Kind, w: Option<nat>, scan: Scan)
    requires Quiescent(s) && Performs(s.state, k)
    ensures Step(WithLast(s, k, w, Scanning(s.state), While(k, s.state), s.lease), ScanReports(|s.tasks|, scan)) ==
              if scan.ScanError? then WithLast(s, k, w, Failing(s.state), While(k, s.state), s.lease)
              else WithLast(s, k, w, Scanned(s.state), AfterScan(While(k, s.state), scan), s.lease)
  {
  }

  lemma StartedLast(s: Session, k: Kind, w: Option<nat>, scan: Scan)
    requires Quiescent(s) && Performs(s.state, k) && !scan.ScanError?
    ensures var state := AfterScan(While(k, s.state), scan);
            Step(WithLast(s, k, w, Scanned(s.state), state, s.lease), BodyStarts(|s.tasks|)) ==
              WithLast(s, k, w, if BodyRuns(s.state, k, scan) then InBody(s.state) else Failing(s.state), state, s.lease)
  {
  }

  lemma BodyEnded(s: Session, k: Kind, w: Option<nat>, state: BrowserState, b: Event)
    requires EndsBody(b, |s.tasks|, k) && Performs(s.state, k)
    ensures var (next, lease) := AfterBody(state, s.lease, b);
            var t := Step(WithLast(s, k, w, InBody(s.state), state, s.lease), b);
            t == WithLast(s, k, w, BodyDone(s.state), next, lease) || t == WithLast(s, k, w, Failing(s.state), next, lease)
  {
    hide ControlLease.Step, HandOverEvents, TakeBackEvents, Performs;
    var t := WithLast(s, k, w, InBody(s.state), state, s.lease);
    assert t.tasks[|s.tasks|] == Task(k, w, InBody(s.state));
    MovedLast(s, k, w, InBody(s.state), BodyDone(s.state));
    MovedLast(s, k, w, InBody(s.state), Failing(s.state));
    if b.HandOverStep? {
      HandOverEnded(s, w, state, b);
    } else if b.TakeBackStep? {
      TakeBackEnded(s, w, state, b);
    }
  }

  lemma HandOverEnded(s: Session, w: Option<nat>, state: BrowserState, b: Event)
    requires b.HandOverStep? && b.i == |s.tasks| && HandOverEvents(b.handoff, b.takeover)
    ensures var (next, lease) := AfterBody(state, s.lease, b);
            var t := Step(WithLast(s, HandOver, w, InBody(s.state), state, s.lease), b);
            || t == WithLast(s, HandOver, w, BodyDone(s.state), next, lease)
            || t == WithLast(s, HandOver, w, Failing(s.state), next, lease)
  {
    hide ControlLease.Step, HandOverEvents;
    var t := WithLast(s, HandOver, w, InBody(s.state), state, s.lease);
    assert t.tasks[|s.tasks|] == Task(HandOver, w, InBody(s.state));
    MovedLast(s, HandOver, w, InBody(s.state), BodyDone(s.state));
    MovedLast(s, HandOver, w, InBody(s.state), Failing(s.state));
    var (granted, r1) := ControlLease.Step(s.lease, b.handoff);
    var (taken, r2) := ControlLease.Step(granted, b.takeover);
    assert BodyOf(t, |s.tasks|, HandOver);
    assert Step(t, b) == StepHandOver(t, |s.tasks|, b.handoff, b.takeover);
    assert AfterBody(state, s.lease, b) ==
           (if r1.Err? then (state, granted) else if r2.Ok? then (UserControl, taken) else (state, taken));
  }

  lemma TakeBackEnded(s: Session, w: Option<nat>, state: BrowserState, b: Event)
    requires b.TakeBackStep? && b.i == |s.tasks| && TakeBackEvents(b.release, b.resume)
    ensures var (next, lease) := AfterBody(state, s.lease, b);
            var t := Step(WithLast(s, TakeBack, w, InBody(s.state), state, s.lease), b);
            || t == WithLast(s, TakeBack, w, BodyDone(s.state), next, lease)
            || t == WithLast(s, TakeBack, w, Failing(s.state), next, lease)
  {
    hide ControlLease.Step, TakeBackEvents;
    var t := WithLast(s, TakeBack, w, InBody(s.state), state, s.lease);
    assert t.tasks[|s.tasks|] == Task(TakeBack, w, InBody(s.state));
    MovedLast(s, TakeBack, w, InBody(s.state), BodyDone(s.state));
    MovedLast(s, TakeBack, w, InBody(s.state), Failing(s.state));
    var (released, r1) := ControlLease.Step(s.lease, b.release);
    var (resumed, r2) := ControlLease.Step(released, b.resume);
    assert BodyOf(t, |s.tasks|, TakeBack);
    assert Step(t, b) == StepTakeBack(t, |s.tasks|, b.release, b.resume);
    assert AfterBody(state, s.lease, b) ==
           (if r1.Err? then (state, released) else if r2.Ok? then (Ready, resumed) else (state, resumed));
  }

  lemma MovedLast(s: Session, k: Kind, w: Option<nat>, from: Phase, to: Phase)
    ensures (s.tasks + [Task(k, w, from)])[|s.tasks| := Task(k, w, to)] == s.tasks + [Task(k, w, to)]
  {
  }

  /** The end of the last task; what it leaves READY was READY or BUSY. */
  lemma FinishedLast(s: Session, k: Kind, w: Option<nat>, state: BrowserState, lease: ControlLease.State, failed: bool)
    requires state == Busy ==> s.state == Ready
    ensures Step(WithLast(s, k, w, if failed then Failing(s.state) else BodyDone(s.state), state, lease), Finish(|s.tasks|)) ==
              WithLast(s, k, w, Settled, if state == Busy then Ready else state, lease)
  {
  }

  lemma Ignored(s: Session, k: Kind, w: Option<nat>, state: BrowserState, scan: Scan, b: Event)
    requires EndsBody(b, |s.tasks|, k)
    ensures var t := WithLast(s, k, w, Failing(s.state), state, s.lease);
            Step(t, ScanReports(|s.tasks|, scan)) == t && Step(t, BodyStarts(|s.tasks|)) == t && Step(t, b) == t
  {
  }

  lemma IgnoredUnqueued(s: Session, k: Kind, scan: Scan, b: Event)
    requires EndsBody(b, |s.tasks|, k)
    ensures var i := |s.tasks|;
            && Step(s, Begin(i, false)) == s && Step(s, ScanReports(i, scan)) == s && Step(s, BodyStarts(i)) == s
            && Step(s, b) == s && Step(s, Finish(i)) == s
  {
  }

  /** The states while an undisturbed action is under way are only passed through. */
  lemma OutcomeWhile(s: Session, k: Kind, w: Option<nat>, scan: Scan, b: Event)
    requires Quiescent(s) && Queued(s, k, w) && Performs(s.state, k) && EndsBody(b, |s.tasks|, k)
    ensures var state := if scan.ScanError? then While(k, s.state) else AfterScan(While(k, s.state), scan);
            var (next, lease) := if BodyRuns(s.state, k, scan) then AfterBody(state, s.lease, b) else (state, s.lease);
            && (next == Busy ==> s.state == Ready)
            && Outcome(s, k, w, scan, b) == (if next == Busy then Ready else next, lease)
  {
    hide ControlLease.Step;
  }

  /** After the six events of an undisturbed action the queue is as before, with the action
  ended in it if it was let in; the body has run exactly when the state lets the action
  through and the scan does not stop it; and the state and the lease are the outcome. */
  lemma ActionOutcome(s: Session, k: Kind, w: Option<nat>, scan: Scan, b: Event, trace: seq<Event>, n: nat)
    requires n + 6 <= |trace|
    requires var t := After(s, trace, n);
             Quiescent(t) && EndsBody(b, |t.tasks|, k) && trace[n..n + 6] == SixEvents(k, w, |t.tasks|, scan, b)
    ensures var t, i := After(s, trace, n), |After(s, trace, n).tasks|;
            var (state, lease) := Outcome(t, k, w, scan, b);
            && (BodyOf(After(s, trace, n + 4), i, k) <==> !Foreign(t, w) && BodyRuns(t.state, k, scan))
            && After(s, trace, n + 6) == if Queued(t, k, w) then WithLast(t, k, w, Settled, state, lease) else t
  {
    hide After, Step, Performs, BodyRuns, AfterBody, AfterScan, Queued, Quiescent, EndsBody, PublicGuard, Admits, Outcome, Foreign;
    var t, es := After(s, trace, n), SixEvents(k, w, |After(s, trace, n).tasks|, scan, b);
    Nth(s, trace, n, es, 0);
    Nth(s, trace, n, es, 1);
    Nth(s, trace, n, es, 2);
    Nth(s, trace, n, es, 3);
    Nth(s, trace, n, es, 4);
    Nth(s, trace, n, es, 5);
    Submitted(t, k, w);
    SixSteps(t, k, w, scan, b);
  }

  /** The same for the events one by one. */
  lemma SixSteps(t: Session, k: Kind, w: Option<nat>, scan: Scan, b: Event)
    requires Quiescent(t) && EndsBody(b, |t.tasks|, k)
    ensures var i := |t.tasks|;
            var t4 := Step(Step(Step(Step(t, Submit(k, w)), Begin(i, false)), ScanReports(i, scan)), BodyStarts(i));
            var t6 := Step(Step(t4, b), Finish(i));
            var (state, lease) := Outcome(t, k, w, scan, b);
            && (BodyOf(t4, i, k) <==> !Foreign(t, w) && BodyRuns(t.state, k, scan))
            && t6 == if Queued(t, k, w) then WithLast(t, k, w, Settled, state, lease) else t
  {
    hide Step, Performs, AfterBody, AfterScan, Queued, Quiescent, EndsBody, PublicGuard, Admits, Outcome, Foreign;
    var i := |t.tasks|;
    Submitted(t, k, w);
    if !Queued(t, k, w) {
      IgnoredUnqueued(t, k, scan, b);
    } else {
      QueuedIsOwn(t, k, w);
      Begun(t, k, w);
      if !Performs(t.state, k) {
        Ignored(t, k, w, t.state, scan, b);
        NotBusy(t);
        FinishedLast(t, k, w, t.state, t.lease, true);
        NotPerformed(t, k, w, scan, b);
      } else {
        PerformedSteps(t, k, w, scan, b);
      }
    }
  }

  lemma QueuedIsOwn(t: Session, k: Kind, w: Option<nat>)
    requires Queued(t, k, w)
    ensures !Foreign(t, w)
  {
  }

  lemma NotBusy(t: Session)
    requires Quiescent(t)
    ensures t.state != Busy
  {
  }

  lemma NotPerformed(t: Session, k: Kind, w: Option<nat>, scan: Scan, b: Event)
    requires !Performs(t.state, k)
    ensures Outcome(t, k, w, scan, b) == (t.state, t.lease) && !BodyRuns(t.state, k, scan)
  {
  }

  lemma PerformedSteps(t: Session, k: Kind, w: Option<nat>, scan: Scan, b: Event)
    requires Quiescent(t) && EndsBody(b, |t.tasks|, k) && Queued(t, k, w) && Performs(t.state, k)
    ensures var i := |t.tasks|;
            var t3 := Step(WithLast(t, k, w, Scanning(t.state), While(k, t.state), t.lease), ScanReports(i, scan));
            var t4 := Step(t3, BodyStarts(i));
            var t6 := Step(Step(t4, b), Finish(i));
            var (state, lease) := Outcome(t, k, w, scan, b);
            && (BodyOf(t4, i, k) <==> BodyRuns(t.state, k, scan))
            && t6 == WithLast(t, k, w, Settled, state, lease)
  {
    hide Step, Performs, AfterBody, AfterScan, Queued, Quiescent, EndsBody, PublicGuard, Admits, Outcome, Foreign;
    OutcomeWhile(t, k, w, scan, b);
    ScannedLast(t, k, w, scan);
    if scan.ScanError? {
      Ignored(t, k, w, While(k, t.state), scan, b);
      FinishedLast(t, k, w, While(k, t.state), t.lease, true);
    } else {
      var state := AfterScan(While(k, t.state), scan);
      StartedLast(t, k, w, scan);
      if BodyRuns(t.state, k, scan) {
        BodyEnded(t, k, w, state, b);
        var (next, lease) := AfterBody(state, t.lease, b);
        FinishedLast(t, k, w, next, lease, true);
        FinishedLast(t, k, w, next, lease, false);
      } else {
        Ignored(t, k, w, state, scan, b);
        FinishedLast(t, k, w, state, t.lease, true);
      }
    }
  }

  // ----- the round trip of a hand-over -----

  /** The lease calls of a hand-over and of its return, in time. */
  predicate InTime(lease: ControlLease.State, handoff: ControlLease.Event, takeover: ControlLease.Event,
                   release: ControlLease.Event, resume: ControlLease.Event) {
    && HandOverEvents(handoff, takeover) && TakeBackEvents(release, resume) && release.token == handoff.token
    && handoff.reasonValid && ControlLease.TokenShape(handoff.token)
    && var ttl := handoff.ttlMs.GetOr(lease.ttlMs);
       && ControlLease.ValidDuration(ttl) && ttl <= lease.maxTtlMs
       && takeover.now < handoff.now + ttl && release.now < handoff.now + ttl
  }

  lemma LeaseRoundTrip(lease: ControlLease.State, handoff: ControlLease.Event, takeover: ControlLease.Event,
                       release: ControlLease.Event, resume: ControlLease.Event)
    requires ControlLease.Legal(lease) && ControlLease.AgentWriteAllowed(lease)
    requires InTime(lease, handoff, takeover, release, resume)
    ensures var (taken, ok) := TwoCalls(lease, handoff, takeover);
            var (given, back) := TwoCalls(taken, release, resume);
            && ok && ControlLease.UserControlActive(taken) && back && ControlLease.AgentWriteAllowed(given)
  {
  }

  /** From READY with the agent's lease, a hand-over that is queued and left alone gives the
  session to the person, ordinary actions are then refused, and the return in time gives it
  back: READY, with the agent's lease, and with nothing left in the queue. */
  lemma HandedOverAndBack(s: Session, handoff: ControlLease.Event, takeover: ControlLease.Event,
                          release: ControlLease.Event, resume: ControlLease.Event, trace: seq<Event>)
    requires s.state == Ready && Quiescent(s) && s.activeWorkflow.None?
    requires ControlLease.Legal(s.lease) && ControlLease.AgentWriteAllowed(s.lease)
    requires InTime(s.lease, handoff, takeover, release, resume)
    requires var i := |s.tasks|;
             && |trace| == 12
             && trace[..6] == SixEvents(HandOver, None, i, Clear, HandOverStep(i, handoff, takeover))
             && trace[6..] == SixEvents(TakeBack, None, i + 1, Clear, TakeBackStep(i + 1, release, resume))
    ensures var held, back := After(s, trace, 6), After(s, trace, 12);
            && held.state == UserControl && ControlLease.UserControlActive(held.lease)
            && (forall k: Kind :: k.Ordinary? && (k.ready || !k.user) ==> !Performs(held.state, k))
            && back.state == Ready && ControlLease.AgentWriteAllowed(back.lease) && Quiescent(back)
            && back.tasks == s.tasks + [Task(HandOver, None, Settled), Task(TakeBack, None, Settled)]
            && back.queueDepth == s.queueDepth
  {
    hide After, ControlLease.Legal, ControlLease.Step, ControlLease.AgentWriteAllowed, ControlLease.UserControlActive,
         InTime, TwoCalls, SixEvents, HandOverEvents, TakeBackEvents, Quiescent;
    var i := |s.tasks|;
    InTimeEvents(s.lease, handoff, takeover, release, resume);
    LeaseRoundTrip(s.lease, handoff, takeover, release, resume);
    Advance(s, trace, 0);
    assert trace[0..6] == trace[..6] && trace[6..12] == trace[6..];
    HandOverOutcome(s, handoff, takeover, trace, 0);
    var held := After(s, trace, 6);
    TakeBackOutcome(s, release, resume, trace, 6);
    assert s.tasks + [Task(HandOver, None, Settled)] + [Task(TakeBack, None, Settled)] ==
           s.tasks + [Task(HandOver, None, Settled), Task(TakeBack, None, Settled)];
  }

  lemma HandOverOutcome(s: Session, handoff: ControlLease.Event, takeover: ControlLease.Event, trace: seq<Event>, n: nat)
    requires n + 6 <= |trace| && HandOverEvents(handoff, takeover)
    requires var t := After(s, trace, n);
             && t.state == Ready && Quiescent(t) && t.activeWorkflow.None?
             && trace[n..n + 6] == SixEvents(HandOver, None, |t.tasks|, Clear, HandOverStep(|t.tasks|, handoff, takeover))
    ensures var t, u := After(s, trace, n), After(s, trace, n + 6);
            var (lease, ok) := TwoCalls(t.lease, handoff, takeover);
            u == t.(tasks := t.tasks + [Task(HandOver, None, Settled)], state := if ok then UserControl else Ready, lease := lease)
    ensures Quiescent(After(s, trace, n + 6))
  {
    hide After, TwoCalls, SixEvents, HandOverEvents;
    var t := After(s, trace, n);
    ActionOutcome(s, HandOver, None, Clear, HandOverStep(|t.tasks|, handoff, takeover), trace, n);
  }

  lemma TakeBackOutcome(s: Session, release: ControlLease.Event, resume: ControlLease.Event, trace: seq<Event>, n: nat)
    requires n + 6 <= |trace| && TakeBackEvents(release, resume)
    requires var t := After(s, trace, n);
             && t.state == UserControl && Quiescent(t) && t.activeWorkflow.None?
             && trace[n..n + 6] == SixEvents(TakeBack, None, |t.tasks|, Clear, TakeBackStep(|t.tasks|, release, resume))
    ensures var t, u := After(s, trace, n), After(s, trace, n + 6);
            var (lease, ok) := TwoCalls(t.lease, release, resume);
            u == t.(tasks := t.tasks + [Task(TakeBack, None, Settled)], state := if ok then Ready else UserControl, lease := lease)
    ensures Quiescent(After(s, trace, n + 6))
  {
    hide After, TwoCalls, SixEvents, TakeBackEvents;
    var t := After(s, trace, n);
    ActionOutcome(s, TakeBack, None, Clear, TakeBackStep(|t.tasks|, release, resume), trace, n);
  }

  lemma InTimeEvents(lease: ControlLease.State, handoff: ControlLease.Event, takeover: ControlLease.Event,
                     release: ControlLease.Event, resume: ControlLease.Event)
    requires InTime(lease, handoff, takeover, release, resume)
    ensures HandOverEvents(handoff, takeover) && TakeBackEvents(release, resume)
  {
  }

  /** A deadline that passes while a person holds the session ends the lease and leaves the
  state: nobody controls the browser then, and taking it back fails, until a new start. */
  lemma DeadlineWithdraws(s: Session, now: int)
    requires ControlLease.Legal(s.lease) && ControlLease.HasExpired(s.lease, now)
    ensures var t := Step(s, LeaseClock(ControlLease.StatusCall(now)));
            && t == s.(lease := t.lease)
            && t.lease.handoff == ControlLease.Expired
            && !ControlLease.UserControlActive(t.lease) && !ControlLease.AgentWriteAllowed(t.lease)
            && forall release, resume :: TakeBackEvents(release, resume) ==> !TwoCalls(t.lease, release, resume).1
  {
    var t := Step(s, LeaseClock(ControlLease.StatusCall(now)));
    ControlLease.StepKeepsLegal(s.lease, ControlLease.StatusCall(now));
    forall release, resume | TakeBackEvents(release, resume)
      ensures !TwoCalls(t.lease, release, resume).1
    {
      ControlLease.ReleaseSucceeds(t.lease, release.now, release.actor, release.token, release.confirmed);
    }
  }

  // ----- scans, crashes, stops and starts -----

  /** A challenge found at any moment pauses the session, unless a person holds it or it is
  going down, and does nothing else. */
  lemma ChallengePauses(s: Session, scan: Scan)
    ensures var t := Step(s, LateScan(scan));
            && t == s.(state := t.state)
            && t.state == (if Finds(scan) && s.state != HumanTakeover && s.state != UserControl && s.state != Stopping
                              && s.state != Stopped then PausedChallenge else s.state)
  {
  }

  /** A stop, once begun, lets no action through; when it finishes, the session is STOPPED and
  the lease is nobody's, and that is so until the next start: a second stop does nothing. */
  lemma StopTakesDown(s: Session, now: int)
    requires s.state != Stopped && s.state != Starting && !s.stopRequested
    ensures var going := Step(s, StopBegins);
            var gone := Step(going, StopFinishes(now));
            && going == s.(state := Stopping, stopRequested := true, draining := s.draining + 1)
            && (forall k: Kind :: !Performs(Stopping, k) && !Performs(Stopped, k) && !Performs(Failed, k))
            && gone == going.(state := Stopped, draining := s.draining, lease := gone.lease)
            && !ControlLease.AgentWriteAllowed(gone.lease) && !ControlLease.UserControlActive(gone.lease)
            && Step(going, StopBegins) == going && Step(gone, StopBegins) == gone
  {
  }

  /** A start from a stopped, failed or held session leaves READY, or ERROR if the launch
  failed, with the agent's lease: the old one if it is still the agent's, or a new one. */
  lemma StartBringsUp(s: Session, now: int, launched: bool)
    requires s.state == Stopped || s.state == Failed || s.state == UserControl
    requires ControlLease.Legal(s.lease)
    ensures var up := Step(Step(s, StartBegins(now)), StartFinishes(launched));
            && up == s.(state := if launched then Ready else Failed, stopRequested := false, lease := up.lease)
            && ControlLease.AgentWriteAllowed(up.lease)
            && up.lease == (if ControlLease.AgentWriteAllowed(s.lease) then s.lease
                            else ControlLease.Initial(s.lease.ttlMs, s.lease.maxTtlMs))
            && Step(s, StartBegins(now)).state == Starting
  {
  }
}
