/** The session object whose fields the queued tasks, scans, hand-overs and stops update
(src/browser/browser-session.ts). Each method is the code between two `await` points of the
source and is proved to do what `SessionQueue.Step` says, so every property proved of runs
of `Step` is a property of this object. A task's closure is its entry in `tasks`. */
module BrowserSession {
  import opened Common
  import opened Text
  import ControlLease
  import opened SessionQueue

  class BrowserSession {
    const maxQueue: nat
    var state: BrowserState
    var tasks: seq<Task>
    var queueDepth: int
    var activeWorkflowToken: Option<nat>
    var lease: ControlLease.ControlLeaseManager
    var stopRequested: bool
    ghost var draining: nat
    ghost var launching: nat

    ghost function ToState(): Session
      reads this, lease
    {
      Session(maxQueue, state, tasks, queueDepth, activeWorkflowToken, lease.ToState(), stopRequested, draining, launching)
    }

    ghost predicate Valid()
      reads this, lease
    {
      && ControlLease.ValidDuration(lease.ttlMs) && ControlLease.ValidDuration(lease.maxTtlMs) && lease.ttlMs <= lease.maxTtlMs
      && ControlLease.Legal(lease.ToState())
    }

    constructor (maxQueue: nat, ttlMs: int, maxTtlMs: int)
      requires ControlLease.ValidDuration(ttlMs) && ControlLease.ValidDuration(maxTtlMs) && ttlMs <= maxTtlMs
      ensures Valid() && fresh(lease) && ToState() == Fresh(maxQueue, ttlMs, maxTtlMs)
    {
      this.maxQueue := maxQueue;
      state, tasks, queueDepth, activeWorkflowToken, stopRequested := Stopped, [], 0, None, false;
      lease := new ControlLease.ControlLeaseManager(ttlMs, maxTtlMs);
      draining, launching := 0, 0;
    }

    /** A public method's own check and the reservation of queue capacity. */
    method Enqueue(kind: Kind, workflow: Option<nat>) returns (accepted: bool)
      modifies this
      ensures ToState() == Step(old(ToState()), Submit(kind, workflow)) && lease == old(lease)
      ensures accepted <==> |tasks| > |old(tasks)|
    {
      var callable := match kind
        case Ordinary(_, _, _) => true
        case HandOver => state == Ready || state == PausedChallenge
        case TakeBack => state == UserControl
        case ResumeSession => state == HumanTakeover || state == PausedChallenge
        case ReopenHeaded => state == PausedChallenge;
      if !callable {
        return false;
      }
      if activeWorkflowToken.Some? && workflow != activeWorkflowToken {
        return false;
      }
      if state == UserControl && !AllowUserControl(kind) {
        return false;
      }
      if queueDepth >= maxQueue {
        return false;
      }
      queueDepth := queueDepth + 1;
      tasks := tasks + [Task(kind, workflow, Waiting)];
      accepted := true;
    }

    method MoveTo(i: nat, phase: Phase)
      requires i < |tasks|
      modifies `tasks
      ensures ToState() == Move(old(ToState()), i, phase)
    {
      tasks := tasks[i := tasks[i].(phase := phase)];
    }

    /** A task whose turn has come: the gates before its challenge scan. */
    method BeginTask(i: nat, aborted: bool)
      requires Next(ToState(), i)
      modifies this
      ensures ToState() == Step(old(ToState()), Begin(i, aborted)) && lease == old(lease)
    {
      var t, prior := tasks[i], state;
      var admitted := true;
      if aborted {
        admitted := false;
      } else if activeWorkflowToken.Some? && t.workflow != activeWorkflowToken {
        admitted := false;
      } else if state == UserControl && !AllowUserControl(t.kind) {
        admitted := false;
      } else if RequireReady(t.kind) && state != Ready {
        admitted := false;
      } else if !AllowPaused(t.kind) && state == PausedChallenge {
        admitted := false;
      } else if state == Failed || state == Stopped || state == Stopping {
        admitted := false;
      }
      if !admitted {
        MoveTo(i, Failing(prior));
        return;
      }
      if RequireReady(t.kind) {
        state := Busy;
      }
      MoveTo(i, Scanning(prior));
    }

    /** The report of a challenge scan. */
    method ScanFound(scan: Scan, preserve: bool)
      modifies `state
      ensures ToState() == Pause(old(ToState()), scan, preserve)
    {
      if scan.Detected? && scan.pause && !preserve && state != HumanTakeover && state != UserControl
         && state != Stopping && state != Stopped {
        state := PausedChallenge;
      }
    }

    method ScanTask(i: nat, scan: Scan)
      requires i < |tasks| && tasks[i].phase.Scanning?
      modifies this
      ensures ToState() == Step(old(ToState()), ScanReports(i, scan)) && lease == old(lease)
    {
      var prior := tasks[i].phase.prior;
      var preserve := AllowPaused(tasks[i].kind) && !RequireReady(tasks[i].kind)
                      && (prior == PausedChallenge || prior == HumanTakeover || prior == UserControl);
      if scan.ScanError? {
        MoveTo(i, Failing(prior));
        return;
      }
      MoveTo(i, Scanned(prior));
      ScanFound(scan, preserve);
    }

    method StartBody(i: nat)
      requires i < |tasks| && tasks[i].phase.Scanned?
      modifies this
      ensures ToState() == Step(old(ToState()), BodyStarts(i)) && lease == old(lease)
    {
      var prior := tasks[i].phase.prior;
      if RequireReady(tasks[i].kind) && state == PausedChallenge {
        MoveTo(i, Failing(prior));
      } else {
        MoveTo(i, InBody(prior));
      }
    }

    /** The body of `handoff`: issue a lease and activate it with the token just issued. */
    method HandOffBody(i: nat, ttl: Option<int>, token: Str, reasonValid: bool, now: int, later: int)
      requires Valid() && BodyOf(ToState(), i, HandOver)
      modifies this, lease
      ensures lease == old(lease)
      ensures ToState() == Step(old(ToState()), HandOverStep(i, ControlLease.HandoffCall(now, None, reasonValid, ttl, token),
                                                              ControlLease.TakeoverCall(later, None, token, true)))
    {
      hide ControlLease.Step;
      var prior := tasks[i].phase.prior;
      var granted := lease.RequestHandoff(now, None, reasonValid, ttl, token);
      if granted.Err? {
        MoveTo(i, Failing(prior));
        return;
      }
      var taken := lease.Takeover(later, None, token, true);
      if taken.Err? {
        MoveTo(i, Failing(prior));
        return;
      }
      state := UserControl;
      MoveTo(i, BodyDone(prior));
    }

    /** The body of `takeover`: the person releases the lease and the agent resumes. */
    method TakeoverBody(i: nat, token: Str, now: int, later: int)
      requires Valid() && BodyOf(ToState(), i, TakeBack)
      modifies this, lease
      ensures lease == old(lease)
      ensures ToState() == Step(old(ToState()), TakeBackStep(i, ControlLease.ReleaseCall(now, None, token, true),
                                                              ControlLease.ResumeCall(later, None)))
    {
      hide ControlLease.Step;
      var prior := tasks[i].phase.prior;
      var released := lease.Release(now, None, token, true);
      if released.Err? {
        MoveTo(i, Failing(prior));
        return;
      }
      var resumed := lease.Resume(later, None);
      if resumed.Err? {
        MoveTo(i, Failing(prior));
        return;
      }
      state := Ready;
      MoveTo(i, BodyDone(prior));
    }

    method ResumeBody(i: nat, detected: bool)
      requires BodyOf(ToState(), i, ResumeSession)
      modifies this
      ensures ToState() == Step(old(ToState()), ResumeStep(i, detected)) && lease == old(lease)
    {
      var prior := tasks[i].phase.prior;
      if detected {
        state := PausedChallenge;
        MoveTo(i, Failing(prior));
        return;
      }
      state := Ready;
      MoveTo(i, BodyDone(prior));
    }

    method ReopenBody(i: nat)
      requires i < |tasks| && tasks[i].kind.ReopenHeaded? && (tasks[i].phase.InBody? || tasks[i].phase.BodyDone?)
      modifies this
      ensures ToState() == Step(old(ToState()), ReopenStep(i)) && lease == old(lease)
    {
      state := HumanTakeover;
      MoveTo(i, BodyDone(tasks[i].phase.prior));
    }

    /** The `finally` of a task. */
    method FinishTask(i: nat)
      requires i < |tasks| && (tasks[i].phase.BodyDone? || tasks[i].phase.Failing?)
      modifies this
      ensures ToState() == Step(old(ToState()), Finish(i)) && lease == old(lease)
    {
      var prior := tasks[i].phase.prior;
      if RequireReady(tasks[i].kind) && state == Busy {
        state := Ready;
      } else if prior == Ready && state == Busy {
        state := prior;
      }
      queueDepth := queueDepth - 1;
      MoveTo(i, Settled);
    }

    method BeginWorkflow(token: nat) returns (reserved: bool)
      modifies `activeWorkflowToken
      ensures ToState() == Step(old(ToState()), WorkflowBegins(token))
      ensures reserved <==> old(activeWorkflowToken).None?
    {
      if activeWorkflowToken.Some? {
        return false;
      }
      activeWorkflowToken := Some(token);
      reserved := true;
    }

    method EndWorkflow(token: nat)
      modifies `activeWorkflowToken
      ensures ToState() == Step(old(ToState()), WorkflowEnds(token))
    {
      if activeWorkflowToken == Some(token) {
        activeWorkflowToken := None;
      }
    }

    method Crashed()
      modifies `state
      ensures ToState() == Step(old(ToState()), Crash)
    {
      state := Failed;
    }

    method BeginStop()
      modifies this
      ensures ToState() == Step(old(ToState()), StopBegins) && lease == old(lease)
    {
      if state == Stopped || state == Starting || stopRequested {
        return;
      }
      stopRequested := true;
      state := Stopping;
      draining := draining + 1;
    }

    /** After the wait for the queue and the closing of the browser. */
    method EndStop(now: int)
      requires draining > 0
      modifies this, lease
      ensures ToState() == Step(old(ToState()), StopFinishes(now)) && lease == old(lease)
    {
      hide ControlLease.StepDispose;
      lease.Dispose(now);
      DisposeStep(old(lease.ToState()), now);
      state := Stopped;
      draining := draining - 1;
    }

    /** `start` up to the launch of the browser: a lease that is not the agent's is replaced. */
    method BeginStart(now: int)
      requires Valid()
      modifies this, lease
      ensures Valid() && (lease == old(lease) || fresh(lease))
      ensures ToState() == Step(old(ToState()), StartBegins(now))
    {
      hide ControlLease.Step, ControlLease.ExpireIfDue, ControlLease.AgentWriteAllowed, ControlLease.Legal;
      if state != Stopped && state != Failed && state != UserControl && state != Busy {
        return;
      }
      ghost var before := lease.ToState();
      var expired := lease.ExpireIfDue(now);
      StatusStep(before, now);
      var status := lease.ToState();
      if !ControlLease.AgentWriteAllowed(status) {
        lease.Dispose(now);
        lease := new ControlLease.ControlLeaseManager(lease.ttlMs, lease.maxTtlMs);
      }
      state := Starting;
      stopRequested := false;
      launching := launching + 1;
    }

    method EndStart(launched: bool)
      requires launching > 0
      modifies this
      ensures ToState() == Step(old(ToState()), StartFinishes(launched)) && lease == old(lease)
    {
      state := if launched then Ready else Failed;
      launching := launching - 1;
    }
  }

  lemma DisposeStep(s: ControlLease.State, now: int)
    ensures ControlLease.Step(s, ControlLease.DisposeCall(now)).0 == ControlLease.StepDispose(s, now)
  {
  }

  /** Asking for the status only expires a lease that is due, and then the agent may not
  write; otherwise nothing changes. */
  lemma StatusStep(s: ControlLease.State, now: int)
    requires ControlLease.Legal(s)
    ensures var t := ControlLease.Step(s, ControlLease.StatusCall(now)).0;
            && t == ControlLease.ExpireIfDue(s, now) && ControlLease.Legal(t)
            && (ControlLease.AgentWriteAllowed(t) ==> t == s)
  {
  }
}
