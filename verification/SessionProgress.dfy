/** A finished action gives the session back: when a browser session is BUSY, and how its
queue gets on (src/browser/browser-session.ts). */
module SessionProgress {
  import opened Common
  import ControlLease
  import opened SessionQueue
  import opened SessionAgreement

  // ----- who makes a session busy -----

  /** A task that needs READY and has begun and not ended. */
  predicate Acting(t: Task) {
    RequireReady(t.kind) && t.phase != Waiting && t.phase != Settled
  }

  predicate BusyIsActing(s: Session) {
    s.state == Busy ==> exists i :: 0 <= i < |s.tasks| && Acting(s.tasks[i])
  }

  /** BUSY comes only from the beginning of a task that needs READY. */
  lemma BusyBegins(s: Session, e: Event)
    requires Step(s, e).state == Busy && s.state != Busy
    ensures e.Begin? && e.i < |Step(s, e).tasks| && Acting(Step(s, e).tasks[e.i])
  {
    hide ControlLease.Step, ControlLease.StepDispose, PublicGuard, HandOverEvents, TakeBackEvents, Admits;
  }

  /** While a session stays BUSY its acting task goes on. */
  lemma ActingGoesOn(s: Session, e: Event, i: nat)
    requires Serial(s) && i < |s.tasks| && Acting(s.tasks[i])
    requires s.state == Busy && Step(s, e).state == Busy
    ensures i < |Step(s, e).tasks| && Acting(Step(s, e).tasks[i])
  {
    hide Step;
    TasksAfter(s, e);
    TaskAfter(s, e, i);
    if Step(s, e).tasks[i].phase == Settled {
      OnlyFinishSettles(s, e, i);
    }
  }

  lemma OnlyFinishSettles(s: Session, e: Event, i: nat)
    requires i < |s.tasks| && i < |Step(s, e).tasks|
    requires s.tasks[i].phase != Settled && Step(s, e).tasks[i].phase == Settled
    requires Subject(e) == Some(i) && RequireReady(s.tasks[i].kind)
    ensures Step(s, e).state != Busy
  {
    hide ControlLease.Step, ControlLease.StepDispose, HandOverEvents, TakeBackEvents, Begins;
  }

  lemma StepKeepsBusyIsActing(s: Session, e: Event)
    requires Serial(s) && BusyIsActing(s)
    ensures BusyIsActing(Step(s, e))
  {
    hide Step, Serial, Acting;
    var t := Step(s, e);
    if t.state == Busy {
      if s.state == Busy {
        var i: nat :| i < |s.tasks| && Acting(s.tasks[i]);
        ActingGoesOn(s, e, i);
      } else {
        BusyBegins(s, e);
      }
    }
  }

  /** In every run from a fresh session, BUSY means that a task that needs READY has begun and
  not ended; so a session with nothing queued is never BUSY. */
  lemma {:induction false} BusyMeansActing(maxQueue: nat, ttlMs: int, maxTtlMs: int, trace: seq<Event>, n: nat)
    requires n <= |trace|
    ensures var s := After(Fresh(maxQueue, ttlMs, maxTtlMs), trace, n);
            && BusyIsActing(s)
            && (s.queueDepth == 0 || (forall i :: 0 <= i < |s.tasks| ==> s.tasks[i].phase == Settled) ==> s.state != Busy)
  {
    hide Step, Serial, Counted;
    var s := After(Fresh(maxQueue, ttlMs, maxTtlMs), trace, n);
    RunKeepsInvariant(maxQueue, ttlMs, maxTtlMs, trace, n);
    if n > 0 {
      RunKeepsInvariant(maxQueue, ttlMs, maxTtlMs, trace, n - 1);
      BusyMeansActing(maxQueue, ttlMs, maxTtlMs, trace, n - 1);
      StepKeepsBusyIsActing(After(Fresh(maxQueue, ttlMs, maxTtlMs), trace, n - 1), trace[n - 1]);
    }
    if s.queueDepth == 0 {
      EmptyIsSettled(s);
    }
  }

  lemma EmptyIsSettled(s: Session)
    requires Counted(s) && s.queueDepth == 0
    ensures forall i :: 0 <= i < |s.tasks| ==> s.tasks[i].phase == Settled
  {
    NoneUnsettled(s.tasks);
  }

  /** The end of a task leaves READY if the session was BUSY with it, and any other state,
  which someone else has set meanwhile, as it is; and it frees the task's place. */
  lemma FinishGivesBack(s: Session, i: nat)
    requires Serial(s) && BusyIsActing(s)
    requires i < |s.tasks| && (s.tasks[i].phase.BodyDone? || s.tasks[i].phase.Failing?)
    ensures var t := Step(s, Finish(i));
            && t.state == (if s.state == Busy then Ready else s.state)
            && t.queueDepth == s.queueDepth - 1
            && t.tasks == s.tasks[i := s.tasks[i].(phase := Settled)]
            && t.lease == s.lease && t.activeWorkflow == s.activeWorkflow
  {
    if s.state == Busy {
      var j: nat :| j < |s.tasks| && Acting(s.tasks[j]);
      assert j == i;
    }
  }

  // ----- an undisturbed action -----

  /** The ways an action can go: it is aborted before it begins, its scan or its body fails,
  or it succeeds. */
  datatype Course = Aborted | ScanFails | Fails | Succeeds

  datatype Action = Action(kind: Kind, workflow: Option<nat>, course: Course)

  function EventsOf(a: Action, i: nat): (r: seq<Event>)
    ensures |r| == match a.course case Aborted => 3 case ScanFails => 4 case _ => 6
  {
    match a.course
    case Aborted => [Submit(a.kind, a.workflow), Begin(i, true), Finish(i)]
    case ScanFails => [Submit(a.kind, a.workflow), Begin(i, false), ScanReports(i, ScanError), Finish(i)]
    case _ => [Submit(a.kind, a.workflow), Begin(i, false), ScanReports(i, Clear), BodyStarts(i),
               if a.course.Fails? then BodyFails(i) else OrdinaryStep(i), Finish(i)]
  }

  /** READY, with a free place and nothing queued that has not ended. */
  predicate Idle(s: Session) {
    s.state == Ready && s.queueDepth < s.maxQueue && (s.tasks == [] || s.tasks[|s.tasks| - 1].phase == Settled)
  }

  /** The session with the action in this phase as its last task. */
  function With(s: Session, a: Action, phase: Phase): Session {
    s.(tasks := s.tasks + [Task(a.kind, a.workflow, phase)],
       queueDepth := if phase.Settled? then s.queueDepth else s.queueDepth + 1,
       state := if phase.Waiting? || phase.Settled? || !RequireReady(a.kind) || a.course.Aborted? then s.state else Busy)
  }

  /** An ordinary action that is queued in READY and left alone takes its turn at once; however
  it goes, it ends with the session in READY as before, its place free again, and the session
  idle for the next one. */
  lemma ActionGivesBack(s: Session, a: Action, trace: seq<Event>, n: nat)
    requires a.kind.Ordinary? && n + |EventsOf(a, 0)| <= |trace|
    requires var t := After(s, trace, n);
             && Idle(t) && !Foreign(t, a.workflow)
             && trace[n..n + |EventsOf(a, 0)|] == EventsOf(a, |t.tasks|)
    ensures var t, u := After(s, trace, n), After(s, trace, n + |EventsOf(a, 0)|);
            u == t.(tasks := t.tasks + [Task(a.kind, a.workflow, Settled)]) && Idle(u)
  {
    hide After, Step;
    var t, es := After(s, trace, n), EventsOf(a, |After(s, trace, n).tasks|);
    FirstHalf(t, a);
    LastStep(t, a);
    Nth(s, trace, n, es, 0);
    Nth(s, trace, n, es, 1);
    Nth(s, trace, n, es, 2);
    if !a.course.Aborted? {
      Nth(s, trace, n, es, 3);
      if !a.course.ScanFails? {
        SecondHalf(t, a);
        Nth(s, trace, n, es, 4);
        Nth(s, trace, n, es, 5);
      }
    }
  }

  lemma Nth(s: Session, trace: seq<Event>, n: nat, es: seq<Event>, j: nat)
    requires n + |es| <= |trace| && trace[n..n + |es|] == es && j < |es|
    ensures After(s, trace, n + (j + 1)) == Step(After(s, trace, n + j), es[j])
  {
    hide Step;
    assert trace[n..n + |es|][j] == trace[n + j];
  }

  lemma FirstHalf(t: Session, a: Action)
    requires a.kind.Ordinary? && Idle(t) && !Foreign(t, a.workflow)
    ensures Step(t, Submit(a.kind, a.workflow)) == With(t, a, Waiting)
    ensures var i := |t.tasks|;
            && Step(With(t, a, Waiting), Begin(i, a.course.Aborted?))
               == With(t, a, if a.course.Aborted? then Failing(Ready) else Scanning(Ready))
            && Step(With(t, a, Scanning(Ready)), ScanReports(i, ScanError)) == With(t, a, Failing(Ready))
            && Step(With(t, a, Scanning(Ready)), ScanReports(i, Clear)) == With(t, a, Scanned(Ready))
  {
  }

  lemma SecondHalf(t: Session, a: Action)
    requires a.kind.Ordinary? && Idle(t) && !a.course.Aborted?
    ensures var i := |t.tasks|;
            && Step(With(t, a, Scanned(Ready)), BodyStarts(i)) == With(t, a, InBody(Ready))
            && Step(With(t, a, InBody(Ready)), BodyFails(i)) == With(t, a, Failing(Ready))
            && Step(With(t, a, InBody(Ready)), OrdinaryStep(i)) == With(t, a, BodyDone(Ready))
  {
  }

  lemma LastStep(t: Session, a: Action)
    requires a.kind.Ordinary? && Idle(t)
    ensures Step(With(t, a, Failing(Ready)), Finish(|t.tasks|)) == With(t, a, Settled)
    ensures Step(With(t, a, BodyDone(Ready)), Finish(|t.tasks|)) == With(t, a, Settled)
  {
  }

  /** The events of actions that follow one another, the first being queued as task i. */
  function Script(actions: seq<Action>, i: nat): seq<Event> {
    if actions == [] then [] else EventsOf(actions[0], i) + Script(actions[1..], i + 1)
  }

  function Ended(actions: seq<Action>): seq<Task> {
    seq(|actions|, i requires 0 <= i < |actions| => Task(actions[i].kind, actions[i].workflow, Settled))
  }

  /** So any number of undisturbed actions run one after the other, whatever became of the
  earlier ones, and none of them blocks the session. */
  lemma {:induction false} ActionsGiveBack(s: Session, actions: seq<Action>, trace: seq<Event>, n: nat)
    requires n <= |trace|
    requires var t := After(s, trace, n); Idle(t) && trace[n..] == Script(actions, |t.tasks|)
    requires forall j :: 0 <= j < |actions| ==>
               actions[j].kind.Ordinary? && !Foreign(After(s, trace, n), actions[j].workflow)
    ensures var t, u := After(s, trace, n), After(s, trace, |trace|);
            u == t.(tasks := t.tasks + Ended(actions)) && Idle(u)
    decreases |actions|
  {
    hide After, EventsOf, Script, Ended;
    var t := After(s, trace, n);
    if actions == [] {
      NothingToDo(t.tasks, |t.tasks|);
    } else {
      var es := EventsOf(actions[0], |t.tasks|);
      ScriptSplits(actions, |t.tasks|, trace, n);
      ActionGivesBack(s, actions[0], trace, n);
      ActionsGiveBack(s, actions[1..], trace, n + |es|);
      EndedSplits(actions, t.tasks);
    }
  }

  lemma NothingToDo(tasks: seq<Task>, i: nat)
    ensures Script([], i) == [] && tasks + Ended([]) == tasks
  {
  }

  lemma ScriptSplits(actions: seq<Action>, i: nat, trace: seq<Event>, n: nat)
    requires actions != [] && n <= |trace| && trace[n..] == Script(actions, i)
    ensures var es := EventsOf(actions[0], i);
            && n + |es| <= |trace| && trace[n..n + |es|] == es && trace[n + |es|..] == Script(actions[1..], i + 1)
  {
    hide EventsOf;
    var es := EventsOf(actions[0], i);
    assert |trace[n..]| == |es| + |Script(actions[1..], i + 1)|;
    assert trace[n..n + |es|] == trace[n..][..|es|];
    assert trace[n + |es|..] == trace[n..][|es|..];
  }

  lemma EndedSplits(actions: seq<Action>, tasks: seq<Task>)
    requires actions != []
    ensures tasks + Ended(actions) == (tasks + [Task(actions[0].kind, actions[0].workflow, Settled)]) + Ended(actions[1..])
  {
  }

  // ----- the queue can always be drained -----

  /** The oldest unsettled task gets on by its own event, whatever the state. */
  lemma OnwardGetsOn(s: Session, i: nat)
    requires i < |s.tasks| && s.tasks[i].phase != Settled && (s.tasks[i].phase == Waiting ==> Next(s, i))
    ensures Subject(Onward(s, i)) == Some(i)
    ensures var t := Step(s, Onward(s, i));
            && t.maxQueue == s.maxQueue
            && |t.tasks| == |s.tasks| && t.tasks == s.tasks[i := t.tasks[i]] && Work(t.tasks[i]) < Work(s.tasks[i])
            && (s.state == Ready || s.state == Busy ==> t.state == Ready || t.state == Busy)
  {
    hide ControlLease.AgentWriteAllowed, PublicGuard, Admits, Foreign;
  }

  lemma DrainsOne(s: Session) returns (e: Event)
    requires Serial(s) && Counted(s) && BusyIsActing(s) && s.queueDepth != 0
    ensures var t := Step(s, e);
            && Serial(t) && Counted(t) && BusyIsActing(t) && WorkOf(t.tasks) < WorkOf(s.tasks) && Subject(e).Some?
            && (s.state == Ready || s.state == Busy ==> t.state == Ready || t.state == Busy)
  {
    hide Step, Work, Onward, BusyIsActing;
    var i := FirstUnsettled(s.tasks);
    e := Onward(s, i);
    OnwardGetsOn(s, i);
    StepKeepsSerial(s, e);
    StepKeepsCounted(s, e);
    StepKeepsBusyIsActing(s, e);
    WorkUpdate(s.tasks, i, Step(s, e).tasks[i]);
  }

  /** From every reachable state the queue can be emptied by its own tasks' events alone; a
  session that was READY or BUSY is then READY. */
  lemma {:induction false} Drains(s: Session) returns (trace: seq<Event>)
    requires Serial(s) && Counted(s) && BusyIsActing(s)
    ensures forall m :: 0 <= m < |trace| ==> Subject(trace[m]).Some?
    ensures var t := Last(s, trace);
            && t.queueDepth == 0 && t.state != Busy && (s.state == Ready || s.state == Busy ==> t.state == Ready)
    decreases WorkOf(s.tasks)
  {
    hide Step, Serial, Counted, After, BusyIsActing;
    if s.queueDepth != 0 {
      var e := DrainsOne(s);
      var rest := Drains(Step(s, e));
      trace := [e] + rest;
      AfterPrepend(s, e, rest, |rest|);
    } else {
      trace := [];
      Drained(s);
    }
  }

  lemma Drained(s: Session)
    requires Counted(s) && BusyIsActing(s) && s.queueDepth == 0
    ensures Last(s, []) == s && s.state != Busy
  {
    NoneUnsettled(s.tasks);
  }
}
