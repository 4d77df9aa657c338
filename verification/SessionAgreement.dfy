/** When the state shown by a browser session and its control lease agree: the conditions of
`SessionQueue.Benign` are exact (src/browser/browser-session.ts). */
module SessionAgreement {
  import opened Common
  import ControlLease
  import opened SessionQueue

  // ----- continuations -----

  function Last(s: Session, trace: seq<Event>): Session { After(s, trace, |trace|) }

  ghost predicate BenignRun(s: Session, trace: seq<Event>) {
    forall m :: 0 <= m < |trace| ==> Benign(After(s, trace, m), trace[m])
  }

  /** Every benign continuation agrees, now and ever after. */
  ghost predicate Secure(s: Session) {
    forall trace :: BenignRun(s, trace) ==> Agreement(Last(s, trace))
  }

  ghost predicate Reveals(s: Session, trace: seq<Event>) {
    BenignRun(s, trace) && !Agreement(Last(s, trace))
  }

  lemma {:induction false} AfterPrepend(s: Session, e: Event, rest: seq<Event>, n: nat)
    requires n <= |rest|
    ensures After(s, [e] + rest, n + 1) == After(Step(s, e), rest, n)
  {
    hide Step;
    Advance(s, [e] + rest, n);
    if n > 0 {
      AfterPrepend(s, e, rest, n - 1);
      Advance(Step(s, e), rest, n - 1);
    }
  }

  lemma Prepend(s: Session, e: Event, rest: seq<Event>)
    requires Benign(s, e) && Reveals(Step(s, e), rest)
    ensures Reveals(s, [e] + rest)
  {
    hide Step, Benign, Agreement, After;
    var trace := [e] + rest;
    AfterPrepend(s, e, rest, |rest|);
    forall m | 0 <= m < |trace|
      ensures Benign(After(s, trace, m), trace[m])
    {
      if m == 0 {
        Advance(s, trace, 0);
      } else {
        AfterPrepend(s, e, rest, m - 1);
      }
    }
  }

  lemma Immediate(s: Session)
    requires !Agreement(s)
    ensures Reveals(s, [])
  {
  }

  // ----- a session can be drained -----

  function Work(t: Task): nat {
    match t.phase
    case Waiting => 5
    case Scanning(_) => 4
    case Scanned(_) => 3
    case InBody(_) => 2
    case BodyDone(_) => 1
    case Failing(_) => 1
    case Settled => 0
  }

  function WorkOf(tasks: seq<Task>): nat {
    if tasks == [] then 0 else WorkOf(tasks[..|tasks| - 1]) + Work(tasks[|tasks| - 1])
  }

  lemma {:induction false} WorkUpdate(tasks: seq<Task>, i: nat, t: Task)
    requires i < |tasks|
    ensures WorkOf(tasks[i := t]) == WorkOf(tasks) - Work(tasks[i]) + Work(t)
  {
    var n := |tasks| - 1;
    if i == n {
      assert tasks[i := t][..n] == tasks[..n];
    } else {
      assert tasks[i := t][..n] == tasks[..n][i := t];
      WorkUpdate(tasks[..n], i, t);
    }
  }

  lemma {:induction false} FirstUnsettled(tasks: seq<Task>) returns (i: nat)
    requires Unsettled(tasks) > 0
    ensures i < |tasks| && tasks[i].phase != Settled
    ensures forall j :: 0 <= j < i ==> tasks[j].phase == Settled
  {
    var n := |tasks| - 1;
    if Unsettled(tasks[..n]) > 0 {
      i := FirstUnsettled(tasks[..n]);
    } else {
      i := n;
      NoneUnsettled(tasks[..n]);
    }
  }

  lemma {:induction false} NoneUnsettled(tasks: seq<Task>)
    requires Unsettled(tasks) == 0
    ensures forall j :: 0 <= j < |tasks| ==> tasks[j].phase == Settled
  {
    if tasks != [] {
      NoneUnsettled(tasks[..|tasks| - 1]);
    }
  }

  /** A challenge or a person holds the session and the lease is not the agent's. */
  predicate Held(s: Session) {
    && (s.state == PausedChallenge || s.state == HumanTakeover) && !ControlLease.AgentWriteAllowed(s.lease)
    && Serial(s) && Counted(s) && s.maxQueue > 0
  }

  /** What lets the oldest unsettled task get on without its body succeeding. */
  function Onward(s: Session, i: nat): Event
    requires i < |s.tasks|
  {
    match s.tasks[i].phase
    case Waiting => Begin(i, false)
    case Scanning(_) => ScanReports(i, ScanError)
    case Scanned(_) => BodyStarts(i)
    case InBody(_) => BodyFails(i)
    case _ => Finish(i)
  }

  lemma OnwardMoves(s: Session, i: nat)
    requires Held(s) && i < |s.tasks| && s.tasks[i].phase != Settled && (s.tasks[i].phase == Waiting ==> Next(s, i))
    ensures Benign(s, Onward(s, i))
    ensures var t := Step(s, Onward(s, i));
            && t.state == s.state && t.lease == s.lease && t.activeWorkflow == s.activeWorkflow && t.maxQueue == s.maxQueue
            && |t.tasks| == |s.tasks| && t.tasks == s.tasks[i := t.tasks[i]] && Work(t.tasks[i]) < Work(s.tasks[i])
  {
    hide ControlLease.AgentWriteAllowed, Serial, Counted, PublicGuard, Admits, Foreign;
  }

  lemma Drain(s: Session) returns (e: Event)
    requires Held(s) && Unsettled(s.tasks) > 0
    ensures Benign(s, e) && Held(Step(s, e)) && WorkOf(Step(s, e).tasks) < WorkOf(s.tasks)
  {
    hide Step, Benign, Work, Onward;
    var i := FirstUnsettled(s.tasks);
    e := Onward(s, i);
    OnwardMoves(s, i);
    StepKeepsSerial(s, e);
    StepKeepsCounted(s, e);
    WorkUpdate(s.tasks, i, Step(s, e).tasks[i]);
  }

  // ----- what is not covered is revealed -----

  /** From such a state a resume reveals it: READY is shown and the agent may not write. */
  lemma {:induction false} Reclaimed(s: Session) returns (trace: seq<Event>)
    requires Held(s)
    ensures Reveals(s, trace)
    decreases WorkOf(s.tasks)
  {
    hide Step, Benign, Held, Reveals, WorkOf;
    if Unsettled(s.tasks) > 0 {
      var e := Drain(s);
      var rest := Reclaimed(Step(s, e));
      trace := [e] + rest;
      Prepend(s, e, rest);
    } else {
      trace := Resumed(s);
    }
  }

  lemma Resumed(s: Session) returns (trace: seq<Event>)
    requires Held(s) && Unsettled(s.tasks) == 0
    ensures Reveals(s, trace)
  {
    hide After;
    if s.activeWorkflow.Some? {
      var e := WorkflowEnds(s.activeWorkflow.value);
      var rest := ResumedIdle(s.(activeWorkflow := None));
      trace := [e] + rest;
      Prepend(s, e, rest);
    } else {
      trace := ResumedIdle(s);
    }
  }

  lemma ResumedIdle(s: Session) returns (trace: seq<Event>)
    requires Held(s) && Unsettled(s.tasks) == 0 && s.activeWorkflow.None?
    ensures Reveals(s, trace)
  {
    hide After, Agreement, ControlLease.AgentWriteAllowed;
    var i := |s.tasks|;
    trace := [Submit(ResumeSession, None), Begin(i, false), ScanReports(i, Clear), BodyStarts(i), ResumeStep(i, false)];
    NoneUnsettled(s.tasks);
    Advance(s, trace, 0);
    ResumedFromPause(s, trace, 0, i);
  }

  /** A resume or headed reopening that is under way reveals it too. */
  lemma {:induction false} Needy(s: Session, i: nat) returns (trace: seq<Event>)
    requires !ControlLease.AgentWriteAllowed(s.lease) && Serial(s) && Counted(s) && s.maxQueue > 0
    requires i < |s.tasks| && NeedsAgent(s.tasks[i])
    ensures Reveals(s, trace)
    decreases Work(s.tasks[i])
  {
    hide ControlLease.AgentWriteAllowed, Serial, Counted, Reveals, Step;
    var e := match s.tasks[i].phase
      case Scanning(_) => ScanReports(i, Clear)
      case Scanned(_) => BodyStarts(i)
      case _ => if s.tasks[i].kind.ResumeSession? then ResumeStep(i, false) else ReopenStep(i);
    NeedyStep(s, i, e);
    StepKeepsSerial(s, e);
    StepKeepsCounted(s, e);
    var t := Step(s, e);
    var rest := [];
    if e.ResumeStep? {
      Immediate(t);
    } else if e.ReopenStep? {
      rest := Reclaimed(t);
    } else {
      rest := Needy(t, i);
    }
    trace := [e] + rest;
    Prepend(s, e, rest);
  }

  lemma NeedyStep(s: Session, i: nat, e: Event)
    requires i < |s.tasks| && NeedsAgent(s.tasks[i])
    requires e == match s.tasks[i].phase
                  case Scanning(_) => ScanReports(i, Clear)
                  case Scanned(_) => BodyStarts(i)
                  case _ => if s.tasks[i].kind.ResumeSession? then ResumeStep(i, false) else ReopenStep(i)
    ensures Benign(s, e)
    ensures var t := Step(s, e);
            && t.lease == s.lease && t.maxQueue == s.maxQueue && |t.tasks| == |s.tasks|
            && (e.ResumeStep? ==> t.state == Ready)
            && (e.ReopenStep? ==> t.state == HumanTakeover)
            && (e.ScanReports? || e.BodyStarts? ==> NeedsAgent(t.tasks[i]) && Work(t.tasks[i]) < Work(s.tasks[i]))
  {
  }

  /** Whatever is not covered is revealed by some benign continuation. */
  lemma Uncovered(s: Session) returns (trace: seq<Event>)
    requires ControlLease.Legal(s.lease) && Serial(s) && Counted(s) && s.maxQueue > 0 && !Covered(s)
    ensures Reveals(s, trace)
  {
    hide ControlLease.Legal, Serial, Counted, Reveals, NeedsAgent, ControlLease.AgentWriteAllowed;
    if Withdrawn(s.state) {
      var i :| 0 <= i < |s.tasks| && NeedsAgent(s.tasks[i]);
      trace := Needy(s, i);
    } else if s.state == Starting {
      var e, paused := LateScan(Detected(true)), s.(state := PausedChallenge);
      StillQueued(s, paused);
      var rest := Reclaimed(paused);
      trace := [e] + rest;
      Prepend(s, e, rest);
    } else if s.state == PausedChallenge || s.state == HumanTakeover {
      trace := Reclaimed(s);
    } else {
      trace := [];
      Immediate(s);
    }
  }

  lemma StillQueued(s: Session, t: Session)
    requires Serial(s) && Counted(s) && t.tasks == s.tasks && t.queueDepth == s.queueDepth && t.maxQueue == s.maxQueue
    ensures Serial(t) && Counted(t)
  {
  }

  // ----- the conditions are exact -----

  lemma {:induction false} CoveredStays(s: Session, trace: seq<Event>, n: nat)
    requires Covered(s) && Serial(s) && BenignRun(s, trace) && n <= |trace|
    ensures Covered(After(s, trace, n)) && Serial(After(s, trace, n))
  {
    hide Step, Benign, Covered, Serial;
    if n > 0 {
      CoveredStays(s, trace, n - 1);
      StepKeepsSerial(After(s, trace, n - 1), trace[n - 1]);
      StepKeepsCovered(After(s, trace, n - 1), trace[n - 1]);
    }
  }

  /** A state is covered exactly when every benign continuation agrees. */
  lemma CoveredIsSecure(s: Session)
    requires ControlLease.Legal(s.lease) && Serial(s) && Counted(s) && s.maxQueue > 0
    ensures Covered(s) <==> Secure(s)
  {
    hide ControlLease.Legal, Serial, Counted, After, BenignRun;
    if Covered(s) {
      forall trace | BenignRun(s, trace)
        ensures Agreement(Last(s, trace))
      {
        CoveredStays(s, trace, |trace|);
      }
    } else {
      var trace := Uncovered(s);
    }
  }

  lemma LateHandOver(s: Session, i: nat, h: ControlLease.Event, t: ControlLease.Event)
    requires Covered(s) && !Benign(s, HandOverStep(i, h, t))
    ensures var u := Step(s, HandOverStep(i, h, t)); ControlLease.Legal(u.lease) && !Covered(u)
  {
    hide ControlLease.Step, ControlLease.Legal, ControlLease.AgentWriteAllowed, NeedsAgent;
    HandOverSucceeds(s.lease, h, t);
    var granted := ControlLease.Step(s.lease, h).0;
    assert !ControlLease.Step(granted, t).1.Ok?;
    var u := Step(s, HandOverStep(i, h, t));
    assert u.state == s.state && !ControlLease.AgentWriteAllowed(u.lease);
  }

  /** An event that breaks its condition leads out of the covered states. */
  lemma ViolationUncovers(s: Session, e: Event)
    requires Covered(s) && !Benign(s, e)
    ensures ControlLease.Legal(Step(s, e).lease) && !Covered(Step(s, e))
  {
    hide ControlLease.Step, ControlLease.Legal;
    match e
    case HandOverStep(i, h, t) => LateHandOver(s, i, h, t);
    case StopFinishes(now) =>
      DisposeIsLegal(s.lease, now);
      var i :| 0 <= i < |s.tasks| && NeedsAgent(s.tasks[i]);
      assert NeedsAgent(Step(s, e).tasks[i]);
    case _ =>
  }

  /** At every point of a run whose events have been benign, the next event is benign exactly
  when, after it, no benign continuation ever shows READY or BUSY while the lease is not the
  agent's. */
  lemma BenignIsExact(maxQueue: nat, ttlMs: int, maxTtlMs: int, trace: seq<Event>, n: nat, e: Event)
    requires maxQueue > 0 && n <= |trace|
    requires forall m :: 0 <= m < n ==> Benign(After(Fresh(maxQueue, ttlMs, maxTtlMs), trace, m), trace[m])
    ensures var s := After(Fresh(maxQueue, ttlMs, maxTtlMs), trace, n);
            Benign(s, e) <==> Secure(Step(s, e))
  {
    hide Step, Benign, Secure, Serial, Counted, ReadyUndisturbed;
    var s := After(Fresh(maxQueue, ttlMs, maxTtlMs), trace, n);
    StateAndLeaseAgree(maxQueue, ttlMs, maxTtlMs, trace, n);
    RunKeepsInvariant(maxQueue, ttlMs, maxTtlMs, trace, n);
    QueueSize(maxQueue, ttlMs, maxTtlMs, trace, n);
    var t := Step(s, e);
    StepKeepsSerial(s, e);
    StepKeepsCounted(s, e);
    SameQueueSize(s, e);
    if Benign(s, e) {
      StepKeepsCovered(s, e);
    } else {
      ViolationUncovers(s, e);
    }
    CoveredIsSecure(t);
  }

  lemma SameQueueSize(s: Session, e: Event)
    ensures Step(s, e).maxQueue == s.maxQueue
  {
    hide ControlLease.Step, ControlLease.StepDispose, Begins, PublicGuard, Admits, HandOverEvents, TakeBackEvents;
  }

  lemma {:induction false} QueueSize(maxQueue: nat, ttlMs: int, maxTtlMs: int, trace: seq<Event>, n: nat)
    requires n <= |trace|
    ensures After(Fresh(maxQueue, ttlMs, maxTtlMs), trace, n).maxQueue == maxQueue
  {
    hide Step;
    if n > 0 {
      QueueSize(maxQueue, ttlMs, maxTtlMs, trace, n - 1);
      SameQueueSize(After(Fresh(maxQueue, ttlMs, maxTtlMs), trace, n - 1), trace[n - 1]);
    }
  }
}
