/** The serial action queue of a browser session and its interleavings with challenge
scans, page crashes, stops, workflows and the human hand-over
(src/browser/browser-session.ts).

Each event below is the code between two `await` points. `Step` is the meaning of one
event, and a run is any sequence of events: an event that is not possible in a state
changes nothing. A task body's own browser work does not touch this state and is left
open, except for the bodies that move the session between its states. */
module SessionQueue {
  import opened Common
  import opened Text
  import opened ControlLease

  datatype BrowserState = Stopped | Starting | Ready | Busy | PausedChallenge | HumanTakeover | UserControl | Failed | Stopping

  datatype Kind =
    | Ordinary(ready: bool, paused: bool, user: bool)   // requireReady, allowPaused, allowUserControl
    | HandOver
    | TakeBack
    | ResumeSession
    | ReopenHeaded

  predicate RequireReady(k: Kind) { k.Ordinary? && k.ready }

  predicate AllowPaused(k: Kind) { k.Ordinary? ==> k.paused }

  predicate AllowUserControl(k: Kind) { if k.Ordinary? then k.user else k.TakeBack? }

  datatype Phase =
    | Waiting
    | Scanning(prior: BrowserState)      // admitted; the challenge scan before the body is under way
    | Scanned(prior: BrowserState)       // the scan has reported
    | InBody(prior: BrowserState)        // the body has started
    | BodyDone(prior: BrowserState)      // its own state changes are made
    | Failing(prior: BrowserState)       // an error is being audited
    | Settled

  datatype Task = Task(kind: Kind, workflow: Option<nat>, phase: Phase)

  datatype Scan = Clear | Detected(pause: bool) | ScanError

  datatype Session = Session(
    maxQueue: nat,
    state: BrowserState,
    tasks: seq<Task>,               // every admitted task, in submission order
    queueDepth: int,
    activeWorkflow: Option<nat>,
    lease: State,
    stopRequested: bool,            // stop() was called since the last start()
    draining: nat,                  // stops that have not finished
    launching: nat)                 // starts that have not finished

  datatype Event =
    | Submit(kind: Kind, workflow: Option<nat>)
    | Begin(i: nat, aborted: bool)
    | ScanReports(i: nat, scan: Scan)
    | BodyStarts(i: nat)
    | HandOverStep(i: nat, handoff: ControlLease.Event, takeover: ControlLease.Event)
    | TakeBackStep(i: nat, release: ControlLease.Event, resume: ControlLease.Event)
    | ResumeStep(i: nat, detected: bool)
    | ReopenStep(i: nat)
    | OrdinaryStep(i: nat)
    | BodyFails(i: nat)
    | Finish(i: nat)
    | LateScan(scan: Scan)          // a scan started by a page event or a status query
    | Crash
    | WorkflowBegins(token: nat)
    | WorkflowEnds(token: nat)
    | StopBegins
    | StopFinishes(now: int)
    | StartBegins(now: int)
    | StartFinishes(launched: bool)
    | LeaseClock(tick: ControlLease.Event)

  function Fresh(maxQueue: nat, ttlMs: int, maxTtlMs: int): Session {
    Session(maxQueue, Stopped, [], 0, None, Initial(ttlMs, maxTtlMs), false, 0, 0)
  }

  // ----- the guards -----

  /** The check that the public method makes before it queues anything. */
  predicate PublicGuard(s: Session, k: Kind) {
    match k
    case Ordinary(_, _, _) => true
    case HandOver => s.state == Ready || s.state == PausedChallenge
    case TakeBack => s.state == UserControl
    case ResumeSession => s.state == HumanTakeover || s.state == PausedChallenge
    case ReopenHeaded => s.state == PausedChallenge
  }

  /** Is `workflow` the context of someone other than the workflow holding the session? */
  predicate Foreign(s: Session, workflow: Option<nat>) {
    s.activeWorkflow.Some? && workflow != s.activeWorkflow
  }

  predicate Admits(s: Session, k: Kind, workflow: Option<nat>) {
    && !Foreign(s, workflow)
    && !(s.state == UserControl && !AllowUserControl(k))
    && s.queueDepth < s.maxQueue
  }

  /** May task i leave the promise chain's queue? */
  predicate Next(s: Session, i: nat) {
    && i < |s.tasks| && s.tasks[i].phase == Waiting
    && (i > 0 ==> s.tasks[i - 1].phase == Settled)
  }

  predicate Begins(s: Session, t: Task, aborted: bool) {
    && !aborted
    && !Foreign(s, t.workflow)
    && !(s.state == UserControl && !AllowUserControl(t.kind))
    && (RequireReady(t.kind) ==> s.state == Ready)
    && (s.state == PausedChallenge ==> AllowPaused(t.kind))
    && s.state != Failed && s.state != Stopped && s.state != Stopping
  }

  function Move(s: Session, i: nat, phase: Phase): Session
    requires i < |s.tasks|
  {
    s.(tasks := s.tasks[i := s.tasks[i].(phase := phase)])
  }

  /** The state change of a scan that found a challenge. */
  function Pause(s: Session, scan: Scan, preserve: bool): Session {
    if scan.Detected? && scan.pause && !preserve
       && s.state != HumanTakeover && s.state != UserControl && s.state != Stopping && s.state != Stopped
    then s.(state := PausedChallenge)
    else s
  }

  predicate PreservePause(k: Kind, prior: BrowserState) {
    AllowPaused(k) && !RequireReady(k) && (prior == PausedChallenge || prior == HumanTakeover || prior == UserControl)
  }

  // ----- one event -----

  function StepSubmit(s: Session, k: Kind, workflow: Option<nat>): Session {
    if PublicGuard(s, k) && Admits(s, k, workflow)
    then s.(tasks := s.tasks + [Task(k, workflow, Waiting)], queueDepth := s.queueDepth + 1)
    else s
  }

  function StepBegin(s: Session, i: nat, aborted: bool): Session {
    if !Next(s, i) then s
    else if !Begins(s, s.tasks[i], aborted) then Move(s, i, Failing(s.state))
    else
      var admitted := Move(s, i, Scanning(s.state));
      if RequireReady(s.tasks[i].kind) then admitted.(state := Busy) else admitted
  }

  function StepScanReports(s: Session, i: nat, scan: Scan): Session {
    if i < |s.tasks| && s.tasks[i].phase.Scanning? then
      var prior := s.tasks[i].phase.prior;
      if scan.ScanError? then Move(s, i, Failing(prior))
      else Pause(Move(s, i, Scanned(prior)), scan, PreservePause(s.tasks[i].kind, prior))
    else s
  }

  function StepBodyStarts(s: Session, i: nat): Session {
    if i < |s.tasks| && s.tasks[i].phase.Scanned? then
      var prior := s.tasks[i].phase.prior;
      if RequireReady(s.tasks[i].kind) && s.state == PausedChallenge then Move(s, i, Failing(prior))
      else Move(s, i, InBody(prior))
    else s
  }

  predicate BodyOf(s: Session, i: nat, k: Kind) {
    i < |s.tasks| && s.tasks[i].phase.InBody? && s.tasks[i].kind == k
  }

  /** `handoff` then `takeover` with the token just issued. */
  predicate HandOverEvents(handoff: ControlLease.Event, takeover: ControlLease.Event) {
    && handoff.HandoffCall? && handoff.actor == None
    && takeover.TakeoverCall? && takeover.actor == None && takeover.confirmed && takeover.token == handoff.token
  }

  predicate TakeBackEvents(release: ControlLease.Event, resume: ControlLease.Event) {
    release.ReleaseCall? && release.actor == None && release.confirmed && resume.ResumeCall? && resume.actor == None
  }

  function StepHandOver(s: Session, i: nat, handoff: ControlLease.Event, takeover: ControlLease.Event): Session {
    if BodyOf(s, i, HandOver) && HandOverEvents(handoff, takeover) then
      var prior := s.tasks[i].phase.prior;
      var (granted, r1) := ControlLease.Step(s.lease, handoff);
      if r1.Err? then Move(s, i, Failing(prior)).(lease := granted)
      else
        var (taken, r2) := ControlLease.Step(granted, takeover);
        if r2.Err? then Move(s, i, Failing(prior)).(lease := taken)
        else Move(s, i, BodyDone(prior)).(lease := taken, state := UserControl)
    else s
  }

  function StepTakeBack(s: Session, i: nat, release: ControlLease.Event, resume: ControlLease.Event): Session {
    if BodyOf(s, i, TakeBack) && TakeBackEvents(release, resume) then
      var prior := s.tasks[i].phase.prior;
      var (released, r1) := ControlLease.Step(s.lease, release);
      if r1.Err? then Move(s, i, Failing(prior)).(lease := released)
      else
        var (resumed, r2) := ControlLease.Step(released, resume);
        if r2.Err? then Move(s, i, Failing(prior)).(lease := resumed)
        else Move(s, i, BodyDone(prior)).(lease := resumed, state := Ready)
    else s
  }

  function StepResume(s: Session, i: nat, detected: bool): Session {
    if BodyOf(s, i, ResumeSession) then
      var prior := s.tasks[i].phase.prior;
      if detected then Move(s, i, Failing(prior)).(state := PausedChallenge)
      else Move(s, i, BodyDone(prior)).(state := Ready)
    else s
  }

  /** Runs when the headed window is up, and again when its scan found a challenge. */
  function StepReopen(s: Session, i: nat): Session {
    if i < |s.tasks| && s.tasks[i].kind.ReopenHeaded? && (s.tasks[i].phase.InBody? || s.tasks[i].phase.BodyDone?)
    then Move(s, i, BodyDone(s.tasks[i].phase.prior)).(state := HumanTakeover)
    else s
  }

  function StepOrdinary(s: Session, i: nat): Session {
    if i < |s.tasks| && s.tasks[i].phase.InBody? && s.tasks[i].kind.Ordinary?
    then Move(s, i, BodyDone(s.tasks[i].phase.prior))
    else s
  }

  function StepBodyFails(s: Session, i: nat): Session {
    if i < |s.tasks| && (s.tasks[i].phase.InBody? || s.tasks[i].phase.BodyDone?)
    then Move(s, i, Failing(s.tasks[i].phase.prior))
    else s
  }

  function StepFinish(s: Session, i: nat): Session {
    if i < |s.tasks| && (s.tasks[i].phase.BodyDone? || s.tasks[i].phase.Failing?) then
      var prior := s.tasks[i].phase.prior;
      var settled := Move(s, i, Settled).(queueDepth := s.queueDepth - 1);
      if RequireReady(s.tasks[i].kind) && s.state == Busy then settled.(state := Ready)
      else if prior == Ready && s.state == Busy then settled.(state := prior)
      else settled
    else s
  }

  function StepStart(s: Session, now: int): Session {
    if s.state == Stopped || s.state == Failed || s.state == UserControl || s.state == Busy then
      s.(state := Starting, stopRequested := false, launching := s.launching + 1,
         lease := if AgentWriteAllowed(ExpireIfDue(s.lease, now)) then s.lease
                  else Initial(s.lease.ttlMs, s.lease.maxTtlMs))
    else s
  }

  function Step(s: Session, e: Event): Session {
    match e
    case Submit(k, w) => StepSubmit(s, k, w)
    case Begin(i, aborted) => StepBegin(s, i, aborted)
    case ScanReports(i, scan) => StepScanReports(s, i, scan)
    case BodyStarts(i) => StepBodyStarts(s, i)
    case HandOverStep(i, h, t) => StepHandOver(s, i, h, t)
    case TakeBackStep(i, r, a) => StepTakeBack(s, i, r, a)
    case ResumeStep(i, detected) => StepResume(s, i, detected)
    case ReopenStep(i) => StepReopen(s, i)
    case OrdinaryStep(i) => StepOrdinary(s, i)
    case BodyFails(i) => StepBodyFails(s, i)
    case Finish(i) => StepFinish(s, i)
    case LateScan(scan) => Pause(s, scan, false)
    case Crash => s.(state := Failed)
    case WorkflowBegins(token) => if s.activeWorkflow.None? then s.(activeWorkflow := Some(token)) else s
    case WorkflowEnds(token) => if s.activeWorkflow == Some(token) then s.(activeWorkflow := None) else s
    case StopBegins =>
      if s.state != Stopped && s.state != Starting && !s.stopRequested
      then s.(state := Stopping, stopRequested := true, draining := s.draining + 1) else s
    case StopFinishes(now) =>
      if s.draining > 0
      then s.(state := Stopped, lease := StepDispose(s.lease, now), draining := s.draining - 1) else s
    case StartBegins(now) => StepStart(s, now)
    case StartFinishes(launched) =>
      if s.launching > 0
      then s.(state := if launched then Ready else Failed, launching := s.launching - 1) else s
    case LeaseClock(tick) =>
      if tick.StatusCall? || tick.TimerFires? then s.(lease := ControlLease.Step(s.lease, tick).0) else s
  }

  // ----- one task at a time, in order, counted exactly -----

  predicate Serial(s: Session) {
    forall i, j :: 0 <= i < j < |s.tasks| && s.tasks[j].phase != Waiting ==> s.tasks[i].phase == Settled
  }

  function Unsettled(tasks: seq<Task>): nat {
    if tasks == [] then 0
    else Unsettled(tasks[..|tasks| - 1]) + (if tasks[|tasks| - 1].phase == Settled then 0 else 1)
  }

  predicate Counted(s: Session) {
    s.queueDepth == Unsettled(s.tasks) <= s.maxQueue
  }

  lemma {:induction false} UnsettledUpdate(tasks: seq<Task>, i: nat, t: Task)
    requires i < |tasks|
    ensures Unsettled(tasks[i := t]) == Unsettled(tasks)
            - (if tasks[i].phase == Settled then 0 else 1) + (if t.phase == Settled then 0 else 1)
  {
    var n := |tasks| - 1;
    if i == n {
      assert tasks[i := t][..n] == tasks[..n];
    } else {
      assert tasks[i := t][..n] == tasks[..n][i := t];
      UnsettledUpdate(tasks[..n], i, t);
    }
  }

  /** The index of the queue entry that an event concerns. */
  function Subject(e: Event): Option<nat> {
    match e
    case Begin(i, _) => Some(i)
    case ScanReports(i, _) => Some(i)
    case BodyStarts(i) => Some(i)
    case HandOverStep(i, _, _) => Some(i)
    case TakeBackStep(i, _, _) => Some(i)
    case ResumeStep(i, _) => Some(i)
    case ReopenStep(i) => Some(i)
    case OrdinaryStep(i) => Some(i)
    case BodyFails(i) => Some(i)
    case Finish(i) => Some(i)
    case _ => None
  }

  predicate SameTasks(s: Session, t: Session) {
    t.tasks == s.tasks && t.queueDepth == s.queueDepth
  }

  predicate Appended(s: Session, t: Session) {
    && |t.tasks| == |s.tasks| + 1 && t.tasks[..|s.tasks|] == s.tasks && t.tasks[|s.tasks|].phase == Waiting
    && t.queueDepth == s.queueDepth + 1 && s.queueDepth < s.maxQueue
  }

  /** Task i, which has its turn and has not settled, changed its phase. */
  predicate Moved(s: Session, t: Session, i: nat) {
    && i < |s.tasks|
    && s.tasks[i].phase != Settled && (s.tasks[i].phase == Waiting ==> Next(s, i))
    && |t.tasks| == |s.tasks| && t.tasks[i].phase != Waiting
    && t.tasks == s.tasks[i := s.tasks[i].(phase := t.tasks[i].phase)]
    && t.queueDepth == s.queueDepth - (if t.tasks[i].phase == Settled then 1 else 0)
  }

  lemma MoveIsMoved(s: Session, t: Session, i: nat, phase: Phase)
    requires i < |s.tasks| && s.tasks[i].phase != Settled && (s.tasks[i].phase == Waiting ==> Next(s, i))
    requires t.tasks == Move(s, i, phase).tasks && phase != Waiting
    requires t.queueDepth == s.queueDepth - (if phase == Settled then 1 else 0)
    ensures Moved(s, t, i)
  {
  }

  predicate TasksChangeBy(s: Session, t: Session, e: Event) {
    && t.maxQueue == s.maxQueue
    && (|| SameTasks(s, t)
        || Appended(s, t)
        || (Subject(e).Some? && Moved(s, t, Subject(e).value)))
  }

  lemma HandBodiesMove(s: Session, e: Event)
    requires e.HandOverStep? || e.TakeBackStep?
    ensures TasksChangeBy(s, Step(s, e), e)
  {
    hide ControlLease.Step, HandOverEvents, TakeBackEvents, Moved;
    var t, i := Step(s, e), e.i;
    if !SameTasks(s, t) {
      MoveIsMoved(s, t, i, t.tasks[i].phase);
    }
  }

  lemma QueueEventsMove(s: Session, e: Event)
    requires e.Begin? || e.ScanReports? || e.BodyStarts? || e.Finish?
    ensures TasksChangeBy(s, Step(s, e), e)
  {
    hide Begins, Moved, ControlLease.Step;
    var t, i := Step(s, e), e.i;
    if !SameTasks(s, t) {
      MoveIsMoved(s, t, i, t.tasks[i].phase);
    }
  }

  /** What an event can do to the tasks: nothing, append a waiting one, or move the one
  it concerns. */
  lemma TasksAfter(s: Session, e: Event)
    ensures TasksChangeBy(s, Step(s, e), e)
  {
    if e.HandOverStep? || e.TakeBackStep? {
      HandBodiesMove(s, e);
    } else if e.Begin? || e.ScanReports? || e.BodyStarts? || e.Finish? {
      QueueEventsMove(s, e);
    } else {
      hide ControlLease.Step, ControlLease.StepDispose, PublicGuard, Moved;
      var t := Step(s, e);
      if Subject(e).Some? && !SameTasks(s, t) {
        MoveIsMoved(s, t, e.i, t.tasks[e.i].phase);
      }
    }
  }

  lemma StepKeepsSerial(s: Session, e: Event)
    requires Serial(s)
    ensures Serial(Step(s, e))
  {
    hide Step;
    TasksAfter(s, e);
  }

  lemma StepKeepsCounted(s: Session, e: Event)
    requires Counted(s)
    ensures Counted(Step(s, e))
  {
    hide Step;
    TasksAfter(s, e);
    var t := Step(s, e);
    if !SameTasks(s, t) && !Appended(s, t) {
      var i := Subject(e).value;
      UnsettledUpdate(s.tasks, i, t.tasks[i]);
    }
  }

  // ----- when a body may start -----

  /** Admitted, but its body has not started. */
  predicate Admitted(t: Task) { t.phase.Scanning? || t.phase.Scanned? }

  /** While a ready-requiring task is between admission and its body, no person holds
  the session. */
  predicate ReadyUndisturbed(s: Session) {
    forall i :: 0 <= i < |s.tasks| && RequireReady(s.tasks[i].kind) && Admitted(s.tasks[i]) ==>
      s.state != UserControl && s.state != HumanTakeover
  }

  predicate BodyStartsBy(s: Session, e: Event, i: nat) {
    && e == BodyStarts(i) && i < |s.tasks| && s.tasks[i].phase.Scanned? && Step(s, e).tasks[i].phase.InBody?
  }

  predicate Invariant(s: Session) {
    Serial(s) && Counted(s) && ReadyUndisturbed(s)
  }

  /** Only the bodies of a hand-over and of a headed reopening give the session to a person. */
  lemma PersonTakesOver(s: Session, e: Event)
    requires Step(s, e).state == UserControl || Step(s, e).state == HumanTakeover
    requires Step(s, e).state != s.state
    ensures e.HandOverStep? || e.ReopenStep?
    ensures e.i < |s.tasks| && (s.tasks[e.i].phase.InBody? || s.tasks[e.i].phase.BodyDone?)
  {
    hide ControlLease.Step, ControlLease.StepDispose, Begins, PublicGuard, HandOverEvents, TakeBackEvents, Admits;
  }

  /** The life of a task: waiting, scanning, scanned, in its body, body done, settled;
  from everywhere but the ends it may fail first. */
  predicate Follows(s: Session, e: Event, i: nat, q: Phase)
    requires i < |s.tasks|
  {
    match s.tasks[i].phase
    case Waiting => q.Failing? || (q.Scanning? && e.Begin? && e.i == i && Begins(s, s.tasks[i], e.aborted) && Next(s, i))
    case Scanning(prior) => q == Scanned(prior) || q.Failing?
    case Scanned(prior) => q == InBody(prior) || q.Failing?
    case InBody(prior) => q == BodyDone(prior) || q.Failing?
    case BodyDone(prior) => q == BodyDone(prior) || q.Failing? || q.Settled?
    case Failing(prior) => q.Settled?
    case Settled => false
  }

  lemma SubjectFollows(s: Session, e: Event, i: nat)
    requires Subject(e) == Some(i) && i < |s.tasks| && |Step(s, e).tasks| == |s.tasks|
    ensures Step(s, e).tasks[i].phase == s.tasks[i].phase || Follows(s, e, i, Step(s, e).tasks[i].phase)
  {
    hide ControlLease.Step, Begins, HandOverEvents, TakeBackEvents;
  }

  /** Every task keeps its kind and context and moves along its life. */
  lemma TaskAfter(s: Session, e: Event, i: nat)
    requires i < |Step(s, e).tasks|
    ensures var t := Step(s, e);
            if i >= |s.tasks| then t.tasks[i].phase == Waiting
            else
              && t.tasks[i].kind == s.tasks[i].kind && t.tasks[i].workflow == s.tasks[i].workflow
              && (t.tasks[i].phase == s.tasks[i].phase || Follows(s, e, i, t.tasks[i].phase))
  {
    hide Step, Follows;
    TasksAfter(s, e);
    var t := Step(s, e);
    if Appended(s, t) {
      if i < |s.tasks| {
        assert t.tasks[i] == t.tasks[..|s.tasks|][i];
      }
    } else if Subject(e) == Some(i) {
      SubjectFollows(s, e, i);
    }
  }

  lemma AdmittedAfter(s: Session, e: Event, i: nat)
    requires i < |Step(s, e).tasks| && Admitted(Step(s, e).tasks[i])
    ensures i < |s.tasks| && Step(s, e).tasks[i].kind == s.tasks[i].kind
    ensures Admitted(s.tasks[i]) || (e.Begin? && e.i == i && Begins(s, s.tasks[i], e.aborted) && Next(s, i))
  {
    hide Step, Begins, Next;
    TaskAfter(s, e, i);
  }

  lemma StepKeepsReadyUndisturbed(s: Session, e: Event)
    requires Serial(s) && ReadyUndisturbed(s)
    ensures ReadyUndisturbed(Step(s, e))
  {
    hide Step;
    var t := Step(s, e);
    forall i | 0 <= i < |t.tasks| && RequireReady(t.tasks[i].kind) && Admitted(t.tasks[i])
      ensures t.state != UserControl && t.state != HumanTakeover
    {
      AdmittedAfter(s, e, i);
      if t.state != s.state && (t.state == UserControl || t.state == HumanTakeover) {
        PersonTakesOver(s, e);
      }
    }
  }

  /** No ready-requiring body starts while a person or a challenge holds the session. */
  lemma ReadyBodyStarts(s: Session, e: Event, i: nat)
    requires ReadyUndisturbed(s) && BodyStartsBy(s, e, i) && RequireReady(s.tasks[i].kind)
    ensures s.state != UserControl && s.state != HumanTakeover && s.state != PausedChallenge
  {
    assert Admitted(s.tasks[i]);
  }

  /** Bodies run one at a time, in the order of submission. */
  lemma BodiesAreSerial(s: Session, e: Event, i: nat)
    requires Serial(s) && BodyStartsBy(s, e, i)
    ensures forall j :: 0 <= j < i ==> s.tasks[j].phase == Settled
    ensures forall j :: i < j < |s.tasks| ==> s.tasks[j].phase == Waiting
  {
  }

  // ----- runs -----

  function After(s: Session, trace: seq<Event>, n: nat): Session
    requires n <= |trace|
  {
    if n == 0 then s else Step(After(s, trace, n - 1), trace[n - 1])
  }

  /** In every run from a fresh session: one task at a time in submission order, an exact
  and bounded queue depth, and no ready-requiring task disturbed by a person. */
  lemma {:induction false} RunKeepsInvariant(maxQueue: nat, ttlMs: int, maxTtlMs: int, trace: seq<Event>, n: nat)
    requires n <= |trace|
    ensures Invariant(After(Fresh(maxQueue, ttlMs, maxTtlMs), trace, n))
  {
    if n > 0 {
      var s := After(Fresh(maxQueue, ttlMs, maxTtlMs), trace, n - 1);
      RunKeepsInvariant(maxQueue, ttlMs, maxTtlMs, trace, n - 1);
      StepKeepsSerial(s, trace[n - 1]);
      StepKeepsCounted(s, trace[n - 1]);
      StepKeepsReadyUndisturbed(s, trace[n - 1]);
    }
  }

  // ----- workflows -----

  /** A foreign task is never admitted while a workflow holds the session. */
  lemma ForeignIsNotAdmitted(s: Session, i: nat, aborted: bool)
    requires Next(s, i) && Foreign(s, s.tasks[i].workflow)
    ensures Step(s, Begin(i, aborted)).tasks[i].phase.Failing?
    ensures Step(s, Submit(s.tasks[i].kind, s.tasks[i].workflow)) == s
  {
  }

  lemma WorkflowTaken(s: Session, e: Event, w: nat)
    requires Step(s, e).activeWorkflow == Some(w) && s.activeWorkflow != Some(w)
    ensures e == WorkflowBegins(w) && s.activeWorkflow.None?
  {
    hide ControlLease.Step, ControlLease.StepDispose, Begins, PublicGuard, HandOverEvents, TakeBackEvents, Admits;
  }

  /** Did a workflow take the session by event m, while task i of someone else was between
  its admission and its body, and not give it back before n? */
  predicate TakenDuring(s: Session, trace: seq<Event>, m: nat, n: nat, i: nat)
    requires n <= |trace|
  {
    && m < n && trace[m].WorkflowBegins? && After(s, trace, m).activeWorkflow.None?
    && i < |After(s, trace, m).tasks| && Admitted(After(s, trace, m).tasks[i])
    && After(s, trace, m).tasks[i].workflow != Some(trace[m].token)
    && forall k :: m < k < n ==> trace[k] != WorkflowEnds(trace[m].token)
  }

  /** A task that is admitted under a workflow of someone else was admitted before it. */
  lemma {:induction false} ForeignNeedsLateWorkflow(s: Session, trace: seq<Event>, n: nat, i: nat, w: nat)
    returns (m: nat)
    requires s.tasks == [] && n <= |trace|
    requires i < |After(s, trace, n).tasks| && Admitted(After(s, trace, n).tasks[i])
    requires After(s, trace, n).activeWorkflow == Some(w) && After(s, trace, n).tasks[i].workflow != Some(w)
    ensures TakenDuring(s, trace, m, n, i) && trace[m] == WorkflowBegins(w)
  {
    hide Step;
    var before, e := After(s, trace, n - 1), trace[n - 1];
    AdmittedAfter(before, e, i);
    TaskAfter(before, e, i);
    if before.activeWorkflow != Some(w) {
      WorkflowTaken(before, e, w);
      m := n - 1;
      AdmittedBefore(before, w, i);
    } else {
      if !Admitted(before.tasks[i]) {
        BeginsNotForeign(before, i, e);
      }
      m := ForeignNeedsLateWorkflow(s, trace, n - 1, i, w);
      WorkflowKept(before, e, w);
    }
  }

  /** A workflow keeps the session until it ends itself. */
  lemma WorkflowKept(s: Session, e: Event, w: nat)
    requires s.activeWorkflow == Some(w)
    ensures Step(s, e).activeWorkflow == (if e == WorkflowEnds(w) then None else Some(w))
  {
    hide ControlLease.Step, ControlLease.StepDispose, Begins, PublicGuard, HandOverEvents, TakeBackEvents, Admits;
  }

  lemma {:induction false} StillForeign(s: Session, trace: seq<Event>, m: nat, n: nat, i: nat)
    requires n <= |trace| && TakenDuring(s, trace, m, n, i)
    ensures After(s, trace, n).activeWorkflow == Some(trace[m].token)
    ensures i < |After(s, trace, n).tasks| && After(s, trace, n).tasks[i].workflow != Some(trace[m].token)
  {
    hide Step;
    var before, e := After(s, trace, n - 1), trace[n - 1];
    TasksAfter(before, e);
    if n - 1 == m {
      WorkflowGiven(before, e.token);
    } else {
      StillForeign(s, trace, m, n - 1, i);
      WorkflowKept(before, e, trace[m].token);
    }
    TaskAfter(before, e, i);
  }

  lemma WorkflowGiven(s: Session, w: nat)
    requires s.activeWorkflow.None?
    ensures Step(s, WorkflowBegins(w)) == s.(activeWorkflow := Some(w))
  {
  }

  lemma AdmittedBefore(s: Session, w: nat, i: nat)
    requires i < |Step(s, WorkflowBegins(w)).tasks| && Admitted(Step(s, WorkflowBegins(w)).tasks[i])
    ensures i < |s.tasks| && Admitted(s.tasks[i])
  {
  }

  lemma BeginsNotForeign(s: Session, i: nat, e: Event)
    requires i < |s.tasks| && e.Begin? && Begins(s, s.tasks[i], e.aborted)
    ensures !Foreign(s, s.tasks[i].workflow)
  {
  }

  /** The property that the queue aims for is that no foreign body starts while a workflow
  holds the session. A body that starts is foreign exactly when a workflow took the session
  between that task's admission and its body and has not ended since. */
  lemma ForeignBodyStart(s: Session, trace: seq<Event>, n: nat, i: nat)
    requires s.tasks == [] && n < |trace|
    requires BodyStartsBy(After(s, trace, n), trace[n], i)
    ensures Foreign(After(s, trace, n), After(s, trace, n).tasks[i].workflow) <==>
              exists m :: TakenDuring(s, trace, m, n, i)
  {
    hide After, Step, TakenDuring;
    var t := After(s, trace, n);
    if Foreign(t, t.tasks[i].workflow) {
      var m := ForeignNeedsLateWorkflow(s, trace, n, i, t.activeWorkflow.value);
    }
    if m: nat :| TakenDuring(s, trace, m, n, i) {
      StillForeign(s, trace, m, n, i);
    }
  }

  function ReadySession(maxQueue: nat, ttlMs: int, maxTtlMs: int): Session {
    Fresh(maxQueue, ttlMs, maxTtlMs).(state := Ready)
  }

  lemma Advance(s: Session, trace: seq<Event>, n: nat)
    requires n < |trace|
    ensures After(s, trace, n + 1) == Step(After(s, trace, n), trace[n])
    ensures After(s, trace, 0) == s
  {
    hide Step;
  }

  lemma Started(maxQueue: nat, ttlMs: int, maxTtlMs: int, trace: seq<Event>)
    requires |trace| >= 2 && trace[0] == StartBegins(0) && trace[1] == StartFinishes(true)
    ensures After(Fresh(maxQueue, ttlMs, maxTtlMs), trace, 2) == ReadySession(maxQueue, ttlMs, maxTtlMs)
  {
    Advance(Fresh(maxQueue, ttlMs, maxTtlMs), trace, 0);
    Advance(Fresh(maxQueue, ttlMs, maxTtlMs), trace, 1);
  }

  /** The conditions under which a task that is queued now is admitted at once. */
  predicate Unobstructed(t: Session, k: Kind) {
    && PublicGuard(t, k) && Admits(t, k, None) && Begins(t, Task(k, None, Waiting), false)
    && (t.tasks == [] || t.tasks[|t.tasks| - 1].phase == Settled)
  }

  function WithTask(t: Session, k: Kind, phase: Phase): Session {
    t.(tasks := t.tasks + [Task(k, None, phase)], queueDepth := t.queueDepth + 1,
       state := if RequireReady(k) then Busy else t.state)
  }

  lemma ReachesScanned(s: Session, trace: seq<Event>, n: nat, k: Kind)
    requires n + 3 <= |trace|
    requires var i := |After(s, trace, n).tasks|;
             trace[n] == Submit(k, None) && trace[n + 1] == Begin(i, false) && trace[n + 2] == ScanReports(i, Clear)
    requires Unobstructed(After(s, trace, n), k)
    ensures var t := After(s, trace, n);
            After(s, trace, n + 3) == WithTask(t, k, Scanned(t.state))
  {
    hide After, PublicGuard;
    var t := After(s, trace, n);
    Advance(s, trace, n);
    Advance(s, trace, n + 1);
    Advance(s, trace, n + 2);
    assert After(s, trace, n + 1).tasks == t.tasks + [Task(k, None, Waiting)];
    assert After(s, trace, n + 2).tasks == t.tasks + [Task(k, None, Scanning(t.state))];
    assert After(s, trace, n + 3).tasks == t.tasks + [Task(k, None, Scanned(t.state))];
  }

  /** A queued task reaches its body when nothing else happens. */
  lemma ReachesBody(s: Session, trace: seq<Event>, n: nat, k: Kind)
    requires n + 4 <= |trace|
    requires var i := |After(s, trace, n).tasks|;
             && trace[n] == Submit(k, None) && trace[n + 1] == Begin(i, false)
             && trace[n + 2] == ScanReports(i, Clear) && trace[n + 3] == BodyStarts(i)
    requires Unobstructed(After(s, trace, n), k)
    ensures var t := After(s, trace, n);
            After(s, trace, n + 4) == WithTask(t, k, InBody(t.state))
  {
    hide After, Unobstructed;
    var t := After(s, trace, n);
    ReachesScanned(s, trace, n, k);
    Advance(s, trace, n + 3);
    BodyStartsScanned(t, k);
  }

  lemma BodyStartsScanned(t: Session, k: Kind)
    requires Unobstructed(t, k)
    ensures Step(WithTask(t, k, Scanned(t.state)), BodyStarts(|t.tasks|)) == WithTask(t, k, InBody(t.state))
  {
    var s := WithTask(t, k, Scanned(t.state));
    assert Move(s, |t.tasks|, InBody(t.state)).tasks == WithTask(t, k, InBody(t.state)).tasks;
  }

  /** It does happen: a workflow may take the session during a foreign task's scan. */
  lemma ForeignBodyCanStart(ttlMs: int, maxTtlMs: int, w: nat) returns (trace: seq<Event>)
    ensures |trace| == 7
    ensures var s := After(Fresh(1, ttlMs, maxTtlMs), trace, 6);
            BodyStartsBy(s, trace[6], 0) && Foreign(s, s.tasks[0].workflow)
  {
    hide After;
    var k, s := Ordinary(true, false, false), Fresh(1, ttlMs, maxTtlMs);
    trace := [StartBegins(0), StartFinishes(true), Submit(k, None), Begin(0, false),
              ScanReports(0, Clear), WorkflowBegins(w), BodyStarts(0)];
    Started(1, ttlMs, maxTtlMs, trace);
    ReachesScanned(s, trace, 2, k);
    Advance(s, trace, 5);
    assert After(s, trace, 6) == WithTask(ReadySession(1, ttlMs, maxTtlMs), k, Scanned(Ready)).(activeWorkflow := Some(w));
  }

  // ----- the state and the lease agree -----

  /** READY or BUSY means that the lease lets the agent write. */
  predicate Agreement(s: Session) {
    s.state == Ready || s.state == Busy ==> AgentWriteAllowed(s.lease)
  }

  /** In these states a lease that is not the agent's does no harm. */
  predicate Withdrawn(state: BrowserState) {
    state == UserControl || state == Failed || state == Stopping || state == Stopped
  }

  /** Does the scan pause a session that has crashed? */
  predicate PausesCrashed(s: Session, scan: Scan, preserve: bool) {
    scan.Detected? && scan.pause && !preserve && s.state == Failed
  }

  /** The conditions on the environment under which they agree, each a test on the state
  before the event. While the lease is not the agent's, no scan pauses a crashed session and
  no start succeeds; the clock does not pass the deadline between the two lease calls of a
  granted hand-over, unless the session is withdrawn; and a stop does not finish under a
  resume or a headed reopening. */
  predicate Benign(s: Session, e: Event) {
    match e
    case LateScan(scan) => PausesCrashed(s, scan, false) ==> AgentWriteAllowed(s.lease)
    case ScanReports(i, scan) =>
      (&& i < |s.tasks| && s.tasks[i].phase.Scanning?
       && PausesCrashed(s, scan, PreservePause(s.tasks[i].kind, s.tasks[i].phase.prior))) ==> AgentWriteAllowed(s.lease)
    case HandOverStep(i, handoff, takeover) =>
      BodyOf(s, i, HandOver) && HandOverEvents(handoff, takeover) && ControlLease.Step(s.lease, handoff).1.Ok? ==>
        takeover.now < handoff.now + handoff.ttlMs.GetOr(s.lease.ttlMs) || Withdrawn(s.state)
    case StopFinishes(_) => s.draining > 0 ==> forall i :: 0 <= i < |s.tasks| ==> !NeedsAgent(s.tasks[i])
    case StartFinishes(launched) => s.launching > 0 && launched ==> AgentWriteAllowed(s.lease)
    case _ => true
  }

  /** Tasks whose bodies set READY or HUMAN_TAKEOVER whatever the lease says. */
  predicate NeedsAgent(t: Task) {
    || ((t.kind.ResumeSession? || t.kind.ReopenHeaded?) && (Admitted(t) || t.phase.InBody?))
    || (t.kind.ReopenHeaded? && t.phase.BodyDone?)
  }

  /** The inductive form: a lease that is not the agent's shows in the state, and no body
  that would hide it is under way. */
  predicate Covered(s: Session) {
    && Legal(s.lease)
    && (AgentWriteAllowed(s.lease) || Withdrawn(s.state))
    && (forall i :: 0 <= i < |s.tasks| && NeedsAgent(s.tasks[i]) ==> AgentWriteAllowed(s.lease))
  }

  /** The two lease calls of a hand-over: the second fails exactly when it comes too late. */
  lemma HandOverSucceeds(lease: State, handoff: ControlLease.Event, takeover: ControlLease.Event)
    requires Legal(lease) && HandOverEvents(handoff, takeover)
    ensures var (granted, r) := ControlLease.Step(lease, handoff);
            && Legal(granted) && (r.Err? ==> AgentWriteAllowed(granted) == AgentWriteAllowed(lease))
            && (r.Ok? ==>
                  var (taken, r2) := ControlLease.Step(granted, takeover);
                  && Legal(taken) && !AgentWriteAllowed(taken)
                  && (r2.Ok? <==> takeover.now < handoff.now + handoff.ttlMs.GetOr(lease.ttlMs)))
  {
  }

  lemma TakeBackRestores(lease: State, release: ControlLease.Event, resume: ControlLease.Event)
    requires Legal(lease) && TakeBackEvents(release, resume)
    ensures var (released, r) := ControlLease.Step(lease, release);
            && Legal(released)
            && (r.Ok? ==>
                  var (resumed, r2) := ControlLease.Step(released, resume);
                  r2.Ok? && Legal(resumed) && AgentWriteAllowed(resumed))
            && (r.Err? ==> AgentWriteAllowed(released) == AgentWriteAllowed(lease))
  {
  }

  lemma ClockKeepsAgent(lease: State, tick: ControlLease.Event)
    requires Legal(lease) && (tick.StatusCall? || tick.TimerFires?)
    ensures AgentWriteAllowed(ControlLease.Step(lease, tick).0) == AgentWriteAllowed(lease)
    ensures Legal(ControlLease.Step(lease, tick).0)
  {
  }

  /** Which tasks need the agent after an event that leaves the lease alone. */
  lemma NeedsAgentAfter(s: Session, e: Event, i: nat)
    requires i < |Step(s, e).tasks| && NeedsAgent(Step(s, e).tasks[i])
    ensures i < |s.tasks|
    ensures NeedsAgent(s.tasks[i]) || (e.Begin? && e.i == i && Begins(s, s.tasks[i], e.aborted)
                                       && (RequireReady(s.tasks[i].kind) || !AllowUserControl(s.tasks[i].kind)))
  {
    hide Step, Begins, Next;
    TaskAfter(s, e, i);
  }

  lemma CoveredLease(s: Session, e: Event)
    requires Covered(s) && Serial(s) && Benign(s, e)
    ensures var t := Step(s, e);
            && Legal(t.lease)
            && (AgentWriteAllowed(t.lease) || Withdrawn(t.state))
  {
    hide ControlLease.Step, Legal, PublicGuard, Admits, NeedsAgent;
    match e
    case HandOverStep(i, h, t) =>
      if BodyOf(s, i, HandOver) && HandOverEvents(h, t) {
        HandOverSucceeds(s.lease, h, t);
      }
    case TakeBackStep(i, r, a) =>
      if BodyOf(s, i, TakeBack) && TakeBackEvents(r, a) {
        TakeBackRestores(s.lease, r, a);
        var released := ControlLease.Step(s.lease, r).0;
      }
    case ResumeStep(i, _) =>
      if BodyOf(s, i, ResumeSession) {
        NeedsAgentInBody(s.tasks[i]);
      }
    case ReopenStep(i) =>
      if i < |s.tasks| && s.tasks[i].kind.ReopenHeaded? {
        NeedsAgentInBody(s.tasks[i]);
      }
    case LeaseClock(tick) =>
      if tick.StatusCall? || tick.TimerFires? {
        ClockKeepsAgent(s.lease, tick);
      }
    case StopFinishes(now) => DisposeIsLegal(s.lease, now);
    case StartBegins(now) => StartIsLegal(s.lease, now);
    case _ =>
  }

  lemma NeedsAgentInBody(t: Task)
    ensures t.phase.InBody? && (t.kind.ResumeSession? || t.kind.ReopenHeaded?) ==> NeedsAgent(t)
    ensures t.phase.BodyDone? && t.kind.ReopenHeaded? ==> NeedsAgent(t)
  {
  }

  lemma DisposeIsLegal(lease: State, now: int)
    ensures Legal(StepDispose(lease, now))
  {
  }

  lemma StartIsLegal(lease: State, now: int)
    ensures Legal(Initial(lease.ttlMs, lease.maxTtlMs)) && AgentWriteAllowed(Initial(lease.ttlMs, lease.maxTtlMs))
    ensures Legal(lease) && AgentWriteAllowed(ExpireIfDue(lease, now)) ==> AgentWriteAllowed(lease)
  {
  }

  /** The lease stops being the agent's only by a hand-over body or by the end of a stop. */
  lemma AgentLosesLease(s: Session, e: Event)
    requires Legal(s.lease) && AgentWriteAllowed(s.lease) && !AgentWriteAllowed(Step(s, e).lease)
    ensures (e.StopFinishes? && s.draining > 0) || (e.HandOverStep? && BodyOf(s, e.i, HandOver))
  {
    hide ControlLease.Step, Legal, Begins, PublicGuard, Admits, NeedsAgent, AgentWriteAllowed;
    match e
    case TakeBackStep(i, r, a) =>
      if BodyOf(s, i, TakeBack) && TakeBackEvents(r, a) {
        TakeBackRestores(s.lease, r, a);
        var released := ControlLease.Step(s.lease, r).0;
      }
    case LeaseClock(tick) =>
      if tick.StatusCall? || tick.TimerFires? {
        ClockKeepsAgent(s.lease, tick);
      }
    case StartBegins(now) => StartIsLegal(s.lease, now);
    case _ =>
  }

  lemma CoveredTasks(s: Session, e: Event)
    requires Covered(s) && Serial(s) && Benign(s, e)
    ensures var t := Step(s, e);
            forall i :: 0 <= i < |t.tasks| && NeedsAgent(t.tasks[i]) ==> AgentWriteAllowed(t.lease)
  {
    hide Step, AgentWriteAllowed, Legal;
    var t := Step(s, e);
    forall i | 0 <= i < |t.tasks| && NeedsAgent(t.tasks[i])
      ensures AgentWriteAllowed(t.lease)
    {
      NeedsAgentAfter(s, e, i);
      if !AgentWriteAllowed(t.lease) {
        if AgentWriteAllowed(s.lease) {
          AgentLosesLease(s, e);
          if e.HandOverStep? {
            assert s.tasks[e.i].phase != Waiting && s.tasks[e.i].phase != Settled;
            HandOverLeavesBody(s, e, i);
          }
        }
      }
    }
  }

  /** After a hand-over step its own task no longer needs the agent. */
  lemma HandOverLeavesBody(s: Session, e: Event, i: nat)
    requires e.HandOverStep? && BodyOf(s, e.i, HandOver) && Step(s, e).lease != s.lease
    requires i < |Step(s, e).tasks| && NeedsAgent(Step(s, e).tasks[i])
    ensures i != e.i
  {
  }

  lemma StepKeepsCovered(s: Session, e: Event)
    requires Covered(s) && Serial(s) && Benign(s, e)
    ensures Covered(Step(s, e))
  {
    hide Step;
    CoveredLease(s, e);
    CoveredTasks(s, e);
  }

  /** In every run whose events are benign, READY and BUSY imply that the lease allows
  agent writes, at every point of the run. */
  lemma {:induction false} StateAndLeaseAgree(maxQueue: nat, ttlMs: int, maxTtlMs: int, trace: seq<Event>, n: nat)
    requires n <= |trace|
    requires forall m :: 0 <= m < n ==> Benign(After(Fresh(maxQueue, ttlMs, maxTtlMs), trace, m), trace[m])
    ensures Covered(After(Fresh(maxQueue, ttlMs, maxTtlMs), trace, n))
    ensures Agreement(After(Fresh(maxQueue, ttlMs, maxTtlMs), trace, n))
  {
    hide Step, Benign;
    if n > 0 {
      StateAndLeaseAgree(maxQueue, ttlMs, maxTtlMs, trace, n - 1);
      RunKeepsInvariant(maxQueue, ttlMs, maxTtlMs, trace, n - 1);
      StepKeepsCovered(After(Fresh(maxQueue, ttlMs, maxTtlMs), trace, n - 1), trace[n - 1]);
    }
  }

  // ----- each condition is needed -----

  /** A hand-over that is queued and runs undisturbed; the takeover call comes `late`
  milliseconds after the hand-over call. */
  lemma HandsOver(s: Session, trace: seq<Event>, n: nat, token: Str, late: nat)
    requires n + 5 <= |trace| && TokenShape(token)
    requires var i := |After(s, trace, n).tasks|;
             && trace[n] == Submit(HandOver, None) && trace[n + 1] == Begin(i, false)
             && trace[n + 2] == ScanReports(i, Clear) && trace[n + 3] == BodyStarts(i)
             && trace[n + 4] == HandOverStep(i, HandoffCall(0, None, true, None, token), TakeoverCall(late, None, token, true))
    requires var t := After(s, trace, n);
             && t.tasks == [] && t.queueDepth < t.maxQueue && t.activeWorkflow.None?
             && (t.state == Ready || t.state == PausedChallenge)
             && t.lease == Initial(1000, t.lease.maxTtlMs) && t.lease.maxTtlMs >= 1000
    ensures var t, u := After(s, trace, n), After(s, trace, n + 5);
            && !AgentWriteAllowed(u.lease)
            && u == if late < 1000
                    then t.(tasks := [Task(HandOver, None, BodyDone(t.state))], queueDepth := t.queueDepth + 1,
                            state := UserControl, lease := u.lease)
                    else t.(tasks := [Task(HandOver, None, Failing(t.state))], queueDepth := t.queueDepth + 1,
                            lease := u.lease)
  {
    hide After, Step;
    ReachesBody(s, trace, n, HandOver);
    Advance(s, trace, n + 4);
    HandOverStepEffect(After(s, trace, n + 4), token, late);
  }

  lemma HandOverStepEffect(s: Session, token: Str, late: nat)
    requires BodyOf(s, 0, HandOver) && TokenShape(token) && |s.tasks| == 1
    requires s.lease == Initial(1000, s.lease.maxTtlMs) && s.lease.maxTtlMs >= 1000
    ensures var prior := s.tasks[0].phase.prior;
            var t := Step(s, HandOverStep(0, HandoffCall(0, None, true, None, token), TakeoverCall(late, None, token, true)));
            && !AgentWriteAllowed(t.lease)
            && t == if late < 1000
                    then s.(tasks := [s.tasks[0].(phase := BodyDone(prior))], state := UserControl, lease := t.lease)
                    else s.(tasks := [s.tasks[0].(phase := Failing(prior))], lease := t.lease)
  {
  }

  function CrashTrace(token: Str): (trace: seq<Event>)
    ensures |trace| == 15
    ensures trace[0] == StartBegins(0) && trace[1] == StartFinishes(true)
    ensures trace[2] == Submit(HandOver, None) && trace[3] == Begin(0, false)
    ensures trace[4] == ScanReports(0, Clear) && trace[5] == BodyStarts(0)
    ensures trace[6] == HandOverStep(0, HandoffCall(0, None, true, None, token), TakeoverCall(0, None, token, true))
    ensures trace[7] == Finish(0) && trace[8] == Crash && trace[9] == LateScan(Detected(true))
    ensures trace[10] == Submit(ResumeSession, None) && trace[11] == Begin(1, false)
    ensures trace[12] == ScanReports(1, Clear) && trace[13] == BodyStarts(1) && trace[14] == ResumeStep(1, false)
  {
    [StartBegins(0), StartFinishes(true),
     Submit(HandOver, None), Begin(0, false), ScanReports(0, Clear), BodyStarts(0),
     HandOverStep(0, HandoffCall(0, None, true, None, token), TakeoverCall(0, None, token, true)),
     Finish(0), Crash, LateScan(Detected(true)),
     Submit(ResumeSession, None), Begin(1, false), ScanReports(1, Clear), BodyStarts(1), ResumeStep(1, false)]
  }

  /** A scan that reports after a crash lets a resume hide a person's lease. */
  lemma CrashedSessionCanBeResumed(maxTtlMs: int, token: Str)
    requires TokenShape(token) && maxTtlMs >= 1000
    ensures !Agreement(After(Fresh(2, 1000, maxTtlMs), CrashTrace(token), 15))
  {
    hide After, Agreement, Step, AgentWriteAllowed, CrashTrace, Unobstructed;
    var s, trace := Fresh(2, 1000, maxTtlMs), CrashTrace(token);
    HandedOverThenPaused(maxTtlMs, token);
    ResumedFromPause(s, trace, 10, 1);
  }

  /** A pause or takeover that a resume ends shows READY whatever the lease says. */
  lemma ResumedFromPause(s: Session, trace: seq<Event>, n: nat, i: nat)
    requires n + 5 <= |trace|
    requires trace[n] == Submit(ResumeSession, None) && trace[n + 1] == Begin(i, false)
    requires trace[n + 2] == ScanReports(i, Clear) && trace[n + 3] == BodyStarts(i)
    requires trace[n + 4] == ResumeStep(i, false)
    requires var t := After(s, trace, n);
             && (t.state == PausedChallenge || t.state == HumanTakeover)
             && t.activeWorkflow.None? && t.queueDepth < t.maxQueue
             && |t.tasks| == i && (t.tasks == [] || t.tasks[|t.tasks| - 1].phase == Settled)
             && !AgentWriteAllowed(t.lease)
    ensures !Agreement(After(s, trace, n + 5))
  {
    hide After, Agreement, Step, AgentWriteAllowed, Unobstructed;
    PausedIsUnobstructed(After(s, trace, n));
    ReachesBody(s, trace, n, ResumeSession);
    Advance(s, trace, n + 4);
    ResumesToReady(After(s, trace, n + 4), i);
  }

  lemma HandedOverThenPaused(maxTtlMs: int, token: Str)
    requires TokenShape(token) && maxTtlMs >= 1000
    ensures var t := After(Fresh(2, 1000, maxTtlMs), CrashTrace(token), 10);
            && t.tasks == [Task(HandOver, None, Settled)] && t.queueDepth == 0 && t.maxQueue == 2
            && t.state == PausedChallenge && t.activeWorkflow.None? && !AgentWriteAllowed(t.lease)
  {
    hide After, Step, AgentWriteAllowed, CrashTrace;
    var s, trace := Fresh(2, 1000, maxTtlMs), CrashTrace(token);
    Started(2, 1000, maxTtlMs, trace);
    HandsOver(s, trace, 2, token, 0);
    PausedAfterCrash(s, trace);
  }

  lemma PausedAfterCrash(s: Session, trace: seq<Event>)
    requires |trace| >= 10 && trace[7] == Finish(0) && trace[8] == Crash && trace[9] == LateScan(Detected(true))
    requires After(s, trace, 7).tasks == [Task(HandOver, None, BodyDone(Ready))]
    requires After(s, trace, 7).state == UserControl
    ensures var t := After(s, trace, 7);
            After(s, trace, 10) == t.(tasks := [Task(HandOver, None, Settled)], queueDepth := t.queueDepth - 1,
                                      state := PausedChallenge)
  {
    hide After;
    Advance(s, trace, 7);
    Advance(s, trace, 8);
    Advance(s, trace, 9);
  }

  lemma ResumesToReady(s: Session, i: nat)
    requires BodyOf(s, i, ResumeSession) && !AgentWriteAllowed(s.lease)
    ensures !Agreement(Step(s, ResumeStep(i, false)))
  {
  }

  function StopTrace(): (trace: seq<Event>)
    ensures |trace| == 10
    ensures trace[0] == StartBegins(0) && trace[1] == StartFinishes(true) && trace[2] == LateScan(Detected(true))
    ensures trace[3] == Submit(ResumeSession, None) && trace[4] == Begin(0, false)
    ensures trace[5] == ScanReports(0, Clear) && trace[6] == BodyStarts(0)
    ensures trace[7] == StopBegins && trace[8] == StopFinishes(0) && trace[9] == ResumeStep(0, false)
  {
    [StartBegins(0), StartFinishes(true), LateScan(Detected(true)),
     Submit(ResumeSession, None), Begin(0, false), ScanReports(0, Clear), BodyStarts(0),
     StopBegins, StopFinishes(0), ResumeStep(0, false)]
  }

  /** A stop that stops waiting for a resume disposes the lease under it. */
  lemma StoppedSessionCanBeReady(ttlMs: int, maxTtlMs: int)
    ensures !Agreement(After(Fresh(1, ttlMs, maxTtlMs), StopTrace(), 10))
  {
    hide After, Agreement, Step, AgentWriteAllowed, StopTrace, Unobstructed;
    var s, trace := Fresh(1, ttlMs, maxTtlMs), StopTrace();
    PausedAfterStart(ttlMs, maxTtlMs, trace);
    PausedIsUnobstructed(After(s, trace, 3));
    ReachesBody(s, trace, 3, ResumeSession);
    DisposedUnderTasks(s, trace, 7);
    Advance(s, trace, 9);
    ResumesToReady(After(s, trace, 9), 0);
  }

  lemma PausedAfterStart(ttlMs: int, maxTtlMs: int, trace: seq<Event>)
    requires |trace| >= 3
    requires trace[0] == StartBegins(0) && trace[1] == StartFinishes(true) && trace[2] == LateScan(Detected(true))
    ensures After(Fresh(1, ttlMs, maxTtlMs), trace, 3) == ReadySession(1, ttlMs, maxTtlMs).(state := PausedChallenge)
  {
    hide After;
    Started(1, ttlMs, maxTtlMs, trace);
    Advance(Fresh(1, ttlMs, maxTtlMs), trace, 2);
  }

  lemma PausedIsUnobstructed(t: Session)
    requires t.state == PausedChallenge || t.state == HumanTakeover
    requires t.activeWorkflow.None? && t.queueDepth < t.maxQueue
    requires t.tasks == [] || t.tasks[|t.tasks| - 1].phase == Settled
    ensures Unobstructed(t, ResumeSession)
  {
  }

  lemma DisposedUnderTasks(s: Session, trace: seq<Event>, n: nat)
    requires n + 2 <= |trace| && trace[n] == StopBegins && trace[n + 1] == StopFinishes(0)
    requires After(s, trace, n).state == PausedChallenge && !After(s, trace, n).stopRequested
    ensures After(s, trace, n + 2).tasks == After(s, trace, n).tasks
    ensures !AgentWriteAllowed(After(s, trace, n + 2).lease)
  {
    hide After;
    Advance(s, trace, n);
    Advance(s, trace, n + 1);
  }

  /** A hand-over whose deadline passes between its two lease calls leaves READY. */
  lemma LateTakeoverLeavesReady(maxTtlMs: int, token: Str) returns (trace: seq<Event>)
    requires TokenShape(token) && maxTtlMs >= 1000
    ensures !Agreement(After(Fresh(1, 1000, maxTtlMs), trace, |trace|))
  {
    hide After;
    var s := Fresh(1, 1000, maxTtlMs);
    trace := [StartBegins(0), StartFinishes(true),
              Submit(HandOver, None), Begin(0, false), ScanReports(0, Clear), BodyStarts(0),
              HandOverStep(0, HandoffCall(0, None, true, None, token), TakeoverCall(1000, None, token, true))];
    Started(1, 1000, maxTtlMs, trace);
    HandsOver(s, trace, 2, token, 1000);
  }

  /** A challenge found while the session starts lets a hand-over run before READY is set. */
  lemma StartingSessionCanBeHandedOver(maxTtlMs: int, token: Str) returns (trace: seq<Event>)
    requires TokenShape(token) && maxTtlMs >= 1000
    ensures !Agreement(After(Fresh(1, 1000, maxTtlMs), trace, |trace|))
  {
    hide After;
    var s := Fresh(1, 1000, maxTtlMs);
    trace := [StartBegins(0), LateScan(Detected(true)),
              Submit(HandOver, None), Begin(0, false), ScanReports(0, Clear), BodyStarts(0),
              HandOverStep(0, HandoffCall(0, None, true, None, token), TakeoverCall(0, None, token, true)),
              StartFinishes(true)];
    PausedWhileStarting(s, trace);
    HandsOver(s, trace, 2, token, 0);
    Advance(s, trace, 7);
    assert After(s, trace, 8) == After(s, trace, 7).(state := Ready, launching := 0);
  }

  lemma PausedWhileStarting(s: Session, trace: seq<Event>)
    requires |trace| >= 2 && trace[0] == StartBegins(0) && trace[1] == LateScan(Detected(true))
    requires s == Fresh(1, 1000, s.lease.maxTtlMs)
    ensures After(s, trace, 2) == s.(state := PausedChallenge, launching := 1)
  {
    hide After;
    Advance(s, trace, 0);
    Advance(s, trace, 1);
  }
}
