/** The session manager (src/browser/session-manager.ts): live sessions, the owners of
persistent profiles and the expiry timers, under every interleaving of starts, stops, timer
firings, lookups and shutdowns. An event is the code between two `await` points; each
method of the class does one event and is proved to do what `Step` says. */
module SessionManager {
  import opened Common
  import opened Text

  type Id = nat

  datatype Timer = Timer(generation: nat, expiresAt: Option<int>)

  datatype State = State(
    maxSessions: nat, ttlMs: nat, maxExpired: nat,
    sessions: map<Id, Option<Str>>,        // with the key of the persistent profile, if any
    owners: map<Str, Id>,
    timers: map<Id, Timer>,
    expired: seq<Id>,                      // a set, in insertion order
    generation: nat,
    reading: multiset<Option<Str>>,        // starts past the cap check that are reading their profile, by its key
    nextId: Id,
    starting: map<Id, Option<Str>>,        // starts whose browser is launching
    stopping: multiset<Id>,                // stops that wait for the browser to close
    shutdowns: seq<set<Id>>,               // shutdowns under way, with the sessions they found
    deadlines: map<Id, int>)               // when each started session expires

  datatype Event =
    | CheckCap(key: Option<Str>)
    | ProfileFails(key: Option<Str>)
    | Reserve(key: Option<Str>, viaProfile: bool)
    | StartSucceeds(id: Id, now: int)
    | StartFails(id: Id)
    | StopBegins(id: Id)
    | StopEnds(id: Id)
    | TimerFires(id: Id, generation: nat, now: int)
    | GetCall(id: Id, now: int)
    | ShutdownBegins
    | ShutdownEnds(k: nat)

  datatype Reply = Done | Launching(id: Id) | Session(id: Id) | AtCapacity | ProfileInUse | NotFound | SessionExpired

  function Fresh(maxSessions: nat, ttlMs: nat, maxExpired: nat): State {
    State(maxSessions, ttlMs, maxExpired, map[], map[], map[], [], 0, multiset{}, 0, map[], multiset{}, [], map[])
  }

  // ----- the parts of an event -----

  function ClearTimer(s: State, id: Id): State { s.(timers := s.timers - {id}) }

  function Schedule(s: State, id: Id, expiresAt: int): State {
    s.(generation := s.generation + 1, timers := s.timers[id := Timer(s.generation + 1, Some(expiresAt))])
  }

  function Drop(ids: seq<Id>, id: Id): (r: seq<Id>)
    ensures forall x :: x in r <==> x in ids && x != id
    ensures |r| <= |ids|
  {
    if ids == [] then [] else (if ids[0] == id then [] else [ids[0]]) + Drop(ids[1..], id)
  }

  function NewestIds(ids: seq<Id>, n: nat): (r: seq<Id>)
    ensures |r| <= n && forall x :: x in r ==> x in ids
  {
    if |ids| <= n then ids else ids[|ids| - n..]
  }

  function Remember(s: State, id: Id): State {
    s.(expired := NewestIds(Drop(s.expired, id) + [id], s.maxExpired))
  }

  /** `stop` up to its wait for the browser. */
  function BeginStop(s: State, id: Id): State {
    if id in s.sessions then ClearTimer(s, id).(stopping := s.stopping + multiset{id}) else s
  }

  function Expire(s: State, id: Id): State {
    if id in s.sessions then BeginStop(Remember(s, id), id) else s
  }

  function Released(owners: map<Str, Id>, ids: set<Id>): map<Str, Id> {
    map k | k in owners && owners[k] !in ids :: owners[k]
  }

  predicate Due(s: State, id: Id, now: int) {
    id in s.timers && s.timers[id].expiresAt.Some? && now >= s.timers[id].expiresAt.value
  }

  // ----- one event -----

  /** The new session and its profile lock. */
  function Insert(s: State, key: Option<Str>): State {
    var id := s.nextId;
    s.(nextId := id + 1, owners := if key.Some? then s.owners[key.value := id] else s.owners,
       expired := Drop(s.expired, id), sessions := s.sessions[id := key], starting := s.starting[id := key])
  }

  function StepReserve(s: State, key: Option<Str>, viaProfile: bool): (State, Reply) {
    if viaProfile && key !in s.reading then (s, Done)
    else
      var s' := if viaProfile then s.(reading := s.reading - multiset{key}) else s;
      if !viaProfile && |s.sessions| >= s.maxSessions then (s, AtCapacity)
      else if key.Some? && key.value in s.owners then (s', ProfileInUse)
      else (Insert(s', key), Launching(s.nextId))
  }

  function StepStartFails(s: State, id: Id): State {
    if id in s.starting then
      var key := s.starting[id];
      var owned := key.Some? && key.value in s.owners && s.owners[key.value] == id;
      ClearTimer(s, id).(starting := s.starting - {id}, sessions := s.sessions - {id},
                         owners := if owned then s.owners - {key.value} else s.owners)
    else s
  }

  function StepTimer(s: State, id: Id, generation: nat, now: int): State {
    if id in s.timers && s.timers[id].generation == generation then
      if s.timers[id].expiresAt.Some? && now < s.timers[id].expiresAt.value
      then Schedule(s, id, s.timers[id].expiresAt.value)
      else Expire(ClearTimer(s, id), id)
    else s
  }

  function StepGet(s: State, id: Id, now: int): (State, Reply) {
    if id in s.expired || Due(s, id, now) then
      (if Due(s, id, now) then Expire(Remember(ClearTimer(s, id), id), id) else s, SessionExpired)
    else if id !in s.sessions then (s, NotFound)
    else (s, Session(id))
  }

  function Step(s: State, e: Event): (State, Reply) {
    match e
    case CheckCap(key) =>
      if |s.sessions| >= s.maxSessions then (s, AtCapacity) else (s.(reading := s.reading + multiset{key}), Done)
    case ProfileFails(key) => (s.(reading := s.reading - multiset{key}), Done)
    case Reserve(key, viaProfile) => StepReserve(s, key, viaProfile)
    case StartSucceeds(id, now) =>
      if id in s.starting
      then (Schedule(s, id, now + s.ttlMs).(starting := s.starting - {id}, deadlines := s.deadlines[id := now + s.ttlMs]), Session(id))
      else (s, Done)
    case StartFails(id) => (StepStartFails(s, id), Done)
    case StopBegins(id) => (BeginStop(s, id), if id in s.sessions then Done else NotFound)
    case StopEnds(id) =>
      if id in s.stopping
      then (s.(stopping := s.stopping - multiset{id}, sessions := s.sessions - {id}, owners := Released(s.owners, {id})), Done)
      else (s, Done)
    case TimerFires(id, generation, now) => (StepTimer(s, id, generation, now), Done)
    case GetCall(id, now) => StepGet(s, id, now)
    case ShutdownBegins => (s.(timers := map[], shutdowns := s.shutdowns + [s.sessions.Keys]), Done)
    case ShutdownEnds(k) =>
      if k < |s.shutdowns|
      then (s.(shutdowns := s.shutdowns[..k] + s.shutdowns[k + 1..], owners := Released(s.owners, s.shutdowns[k]), sessions := map[]), Done)
      else (s, Done)
  }

  lemma ReserveStep(s: State, key: Option<Str>, viaProfile: bool)
    ensures Step(s, Reserve(key, viaProfile)) == StepReserve(s, key, viaProfile)
  {
    hide StepReserve;
  }

  lemma StartFailsStep(s: State, id: Id)
    ensures Step(s, StartFails(id)).0 == StepStartFails(s, id)
  {
    hide StepStartFails;
  }

  // ----- what every event keeps -----

  /** A live session owns the profile that it was started with. */
  predicate Owned(s: State) {
    && (forall id :: id in s.sessions && s.sessions[id].Some? ==>
          s.sessions[id].value in s.owners && s.owners[s.sessions[id].value] == id)
    && (forall id :: id in s.starting && id in s.sessions ==> s.starting[id] == s.sessions[id])
  }

  predicate BeingStopped(s: State, id: Id) {
    id in s.stopping || exists k :: 0 <= k < |s.shutdowns| && id in s.shutdowns[k]
  }

  /** A live session is still starting, or has a timer, or is being stopped. */
  predicate Watched(s: State) {
    forall id :: id in s.sessions ==> id in s.starting || id in s.timers || BeingStopped(s, id)
  }

  /** Every timer holds its session's deadline, and a starting session has none yet. */
  predicate Timed(s: State) {
    && (forall id :: id in s.timers ==> id in s.deadlines && s.timers[id].expiresAt == Some(s.deadlines[id]))
    && (forall id :: id in s.starting ==> id !in s.deadlines)
  }

  predicate Numbered(s: State) {
    && (forall id :: id in s.sessions ==> id < s.nextId)
    && (forall id :: id in s.starting ==> id < s.nextId)
    && (forall id :: id in s.deadlines ==> id < s.nextId)
  }

  predicate Invariant(s: State) {
    Owned(s) && Watched(s) && Timed(s) && Numbered(s) && |s.expired| <= s.maxExpired
  }

  lemma ReserveKeepsOwned(s: State, key: Option<Str>, viaProfile: bool)
    requires Owned(s) && Numbered(s)
    ensures Owned(StepReserve(s, key, viaProfile).0)
  {
    hide Drop;
  }

  lemma StartFailsKeepsOwned(s: State, id: Id)
    requires Owned(s)
    ensures Owned(StepStartFails(s, id))
  {
  }

  /** An expiry begins to stop the session, if it is live, and touches nothing else. */
  lemma ExpireEffect(s: State, id: Id)
    ensures var t := Expire(s, id);
            && t.sessions == s.sessions && t.starting == s.starting && t.shutdowns == s.shutdowns && t.owners == s.owners
            && t.deadlines == s.deadlines && t.nextId == s.nextId && t.reading == s.reading
            && t.maxSessions == s.maxSessions
            && t.timers == (if id in s.sessions then s.timers - {id} else s.timers)
            && t.stopping == (if id in s.sessions then s.stopping + multiset{id} else s.stopping)
  {
    hide Drop, NewestIds;
  }

  lemma DropTwice(m: map<Id, Timer>, id: Id)
    ensures m - {id} - {id} == m - {id}
  {
  }

  /** The timer of one session is renewed for the same deadline, or it goes, and then the
  session, if live, is being stopped. */
  predicate OneTimerChanges(s: State, t: State, id: Id) {
    && t.sessions == s.sessions && t.starting == s.starting && t.shutdowns == s.shutdowns && t.owners == s.owners
    && t.deadlines == s.deadlines && t.nextId == s.nextId && t.reading == s.reading && t.maxSessions == s.maxSessions
    && (t.stopping == s.stopping || (id in s.sessions && t.stopping == s.stopping + multiset{id}))
    && (|| t.timers == s.timers
        || (id in s.timers && t.timers == s.timers - {id} && (id in s.sessions ==> id in t.stopping))
        || (id in s.timers && s.timers[id].expiresAt.Some?
            && t.timers == s.timers[id := Timer(s.generation + 1, s.timers[id].expiresAt)]))
  }

  lemma ExpiryChangesOneTimer(s: State, u: State, id: Id)
    requires id in s.timers && (u == ClearTimer(s, id) || u == Remember(ClearTimer(s, id), id))
    ensures OneTimerChanges(s, Expire(u, id), id)
  {
    hide Expire, Drop, NewestIds;
    ExpireEffect(u, id);
    DropTwice(s.timers, id);
  }

  /** What a timer that fires, or a lookup, changes. */
  lemma TimerEffect(s: State, e: Event)
    requires e.TimerFires? || e.GetCall?
    ensures OneTimerChanges(s, Step(s, e).0, e.id)
  {
    hide Expire, ClearTimer, Remember, OneTimerChanges, Schedule;
    if e.id in s.timers {
      ExpiryChangesOneTimer(s, ClearTimer(s, e.id), e.id);
      ExpiryChangesOneTimer(s, Remember(ClearTimer(s, e.id), e.id), e.id);
      RenewalChangesOneTimer(s, e.id);
    }
    NothingChanges(s, e.id);
  }

  lemma EndsKeepOwned(s: State, e: Event)
    requires Owned(s) && (e.StopEnds? || e.ShutdownEnds?)
    ensures Owned(Step(s, e).0)
  {
  }

  lemma OthersKeepOwned(s: State, e: Event)
    requires Owned(s) && (e.StopBegins? || e.ShutdownBegins? || e.CheckCap? || e.ProfileFails? || e.StartSucceeds?)
    ensures Owned(Step(s, e).0)
  {
  }

  lemma StepKeepsOwned(s: State, e: Event)
    requires Owned(s) && Numbered(s)
    ensures Owned(Step(s, e).0)
  {
    if e.Reserve? {
      hide Drop, Owned, Numbered, StepReserve;
      ReserveKeepsOwned(s, e.key, e.viaProfile);
    } else if e.StartFails? {
      hide Owned, StepStartFails;
      StartFailsKeepsOwned(s, e.id);
    } else if e.TimerFires? || e.GetCall? {
      hide Step;
      TimerEffect(s, e);
    } else if e.StopEnds? || e.ShutdownEnds? {
      hide Step, Owned;
      EndsKeepOwned(s, e);
    } else {
      hide Step, Owned;
      OthersKeepOwned(s, e);
    }
  }

  lemma RenewalChangesOneTimer(s: State, id: Id)
    requires id in s.timers
    ensures s.timers[id].expiresAt.Some? ==> OneTimerChanges(s, Schedule(s, id, s.timers[id].expiresAt.value), id)
  {
  }

  lemma NothingChanges(s: State, id: Id)
    ensures OneTimerChanges(s, s, id)
  {
  }

  lemma ReserveKeepsTimed(s: State, key: Option<Str>, viaProfile: bool)
    requires Timed(s) && Numbered(s)
    ensures Timed(StepReserve(s, key, viaProfile).0) && Numbered(StepReserve(s, key, viaProfile).0)
  {
    hide Drop;
  }

  lemma StartEndsKeepTimed(s: State, e: Event)
    requires Timed(s) && Numbered(s) && (e.StartFails? || e.StartSucceeds?)
    ensures Timed(Step(s, e).0) && Numbered(Step(s, e).0)
  {
  }

  lemma OthersKeepTimed(s: State, e: Event)
    requires Timed(s) && Numbered(s)
    requires !(e.TimerFires? || e.GetCall? || e.Reserve? || e.StartFails? || e.StartSucceeds?)
    ensures Timed(Step(s, e).0) && Numbered(Step(s, e).0)
  {
    hide StepReserve, StepStartFails, StepTimer, StepGet, Schedule, Released;
  }

  lemma StepKeepsTimed(s: State, e: Event)
    requires Timed(s) && Numbered(s)
    ensures Timed(Step(s, e).0) && Numbered(Step(s, e).0)
  {
    hide Step;
    if e.TimerFires? || e.GetCall? {
      TimerEffect(s, e);
    } else {
      hide Timed, Numbered;
      if e.Reserve? {
        ReserveStep(s, e.key, e.viaProfile);
        ReserveKeepsTimed(s, e.key, e.viaProfile);
      } else if e.StartFails? || e.StartSucceeds? {
        StartEndsKeepTimed(s, e);
      } else {
        OthersKeepTimed(s, e);
      }
    }
  }

  lemma StaysBeingStopped(s: State, t: State, id: Id)
    requires s.shutdowns <= t.shutdowns && s.stopping[id] <= t.stopping[id]
    ensures BeingStopped(s, id) ==> BeingStopped(t, id)
  {
    if exists k :: 0 <= k < |s.shutdowns| && id in s.shutdowns[k] {
      var k :| 0 <= k < |s.shutdowns| && id in s.shutdowns[k];
      assert t.shutdowns[k] == s.shutdowns[k];
    }
  }

  /** No event but the end of a stop or of a shutdown forgets that a session is being
  stopped, and those two take their sessions away. */
  lemma WatchedStep(s: State, t: State, id: Id)
    requires Watched(s) && id in s.sessions && s.shutdowns <= t.shutdowns && s.stopping[id] <= t.stopping[id]
    requires id in s.starting ==> id in t.starting || id in t.timers
    requires id in s.timers ==> id in t.timers || id in t.stopping || (exists k :: 0 <= k < |t.shutdowns| && id in t.shutdowns[k])
    ensures id in t.starting || id in t.timers || BeingStopped(t, id)
  {
    hide BeingStopped;
    StaysBeingStopped(s, t, id);
    if id in t.stopping || (exists k :: 0 <= k < |t.shutdowns| && id in t.shutdowns[k]) {
      StoppedNow(t, id);
    }
  }

  lemma StoppedNow(t: State, id: Id)
    requires id in t.stopping || (exists k :: 0 <= k < |t.shutdowns| && id in t.shutdowns[k])
    ensures BeingStopped(t, id)
  {
  }

  lemma StepKeepsWatched(s: State, e: Event)
    requires Watched(s)
    ensures Watched(Step(s, e).0)
  {
    var t := Step(s, e).0;
    forall id | id in t.sessions
      ensures id in t.starting || id in t.timers || BeingStopped(t, id)
    {
      if e.TimerFires? || e.GetCall? {
        hide Step, Watched, BeingStopped;
        TimerEffect(s, e);
        WatchedStep(s, t, id);
      } else {
        WatchedAfter(s, e, id);
      }
    }
  }

  lemma WatchedAfter(s: State, e: Event, id: Id)
    requires Watched(s) && !e.TimerFires? && !e.GetCall? && id in Step(s, e).0.sessions
    ensures var t := Step(s, e).0; id in t.starting || id in t.timers || BeingStopped(t, id)
  {
    hide Watched, BeingStopped, Step;
    if id in s.sessions {
      if e.Reserve? || e.StartFails? || e.StartSucceeds? {
        StartsKeepWatch(s, e, id);
      } else {
        StopsKeepWatch(s, e, id);
      }
      WatchedStep(s, Step(s, e).0, id);
    } else {
      NewIsStarting(s, e, id);
    }
  }

  lemma NewIsStarting(s: State, e: Event, id: Id)
    requires !e.TimerFires? && !e.GetCall? && id !in s.sessions && id in Step(s, e).0.sessions
    ensures id in Step(s, e).0.starting
  {
    hide Drop;
  }

  lemma StartsKeepWatch(s: State, e: Event, id: Id)
    requires (e.Reserve? || e.StartFails? || e.StartSucceeds?) && id in s.sessions && id in Step(s, e).0.sessions
    ensures var t := Step(s, e).0;
            && t.shutdowns == s.shutdowns && t.stopping == s.stopping
            && (id in s.starting ==> id in t.starting || id in t.timers) && (id in s.timers ==> id in t.timers)
  {
    hide Drop;
  }

  lemma StopsKeepWatch(s: State, e: Event, id: Id)
    requires (e.StopBegins? || e.StopEnds? || e.ShutdownBegins? || e.ShutdownEnds? || e.CheckCap? || e.ProfileFails?)
    requires id in s.sessions && id in Step(s, e).0.sessions
    ensures var t := Step(s, e).0;
            && s.shutdowns <= t.shutdowns && s.stopping[id] <= t.stopping[id]
            && (id in s.starting ==> id in t.starting)
            && (id in s.timers ==> id in t.timers || id in t.stopping || (exists k :: 0 <= k < |t.shutdowns| && id in t.shutdowns[k]))
  {
    hide Released;
    if e.ShutdownBegins? {
      assert Step(s, e).0.shutdowns[|s.shutdowns|] == s.sessions.Keys;
    }
  }

  lemma StepKeepsBound(s: State, e: Event)
    requires |s.expired| <= s.maxExpired
    ensures |Step(s, e).0.expired| <= Step(s, e).0.maxExpired
  {
    hide Drop, NewestIds, StepStartFails;
    if e.StartFails? {
      StartFailsBound(s, e.id);
    }
  }

  lemma StartFailsBound(s: State, id: Id)
    ensures StepStartFails(s, id).expired == s.expired && StepStartFails(s, id).maxExpired == s.maxExpired
  {
  }

  // ----- runs -----

  function After(s: State, trace: seq<Event>, n: nat): State
    requires n <= |trace|
  {
    if n == 0 then s else Step(After(s, trace, n - 1), trace[n - 1]).0
  }

  lemma {:induction false} RunKeepsInvariant(maxSessions: nat, ttlMs: nat, maxExpired: nat, trace: seq<Event>, n: nat)
    requires n <= |trace|
    ensures Invariant(After(Fresh(maxSessions, ttlMs, maxExpired), trace, n))
  {
    hide Step, Owned, Watched, Timed, Numbered;
    if n == 0 {
      FreshIsInvariant(maxSessions, ttlMs, maxExpired);
    } else {
      var s := After(Fresh(maxSessions, ttlMs, maxExpired), trace, n - 1);
      RunKeepsInvariant(maxSessions, ttlMs, maxExpired, trace, n - 1);
      StepKeepsOwned(s, trace[n - 1]);
      StepKeepsTimed(s, trace[n - 1]);
      StepKeepsWatched(s, trace[n - 1]);
      StepKeepsBound(s, trace[n - 1]);
    }
  }

  lemma FreshIsInvariant(maxSessions: nat, ttlMs: nat, maxExpired: nat)
    ensures Invariant(Fresh(maxSessions, ttlMs, maxExpired))
  {
  }

  /** In every run, no two live sessions have the same persistent profile. */
  lemma NoSharedProfile(maxSessions: nat, ttlMs: nat, maxExpired: nat, trace: seq<Event>, n: nat, a: Id, b: Id)
    requires n <= |trace|
    requires var s := After(Fresh(maxSessions, ttlMs, maxExpired), trace, n);
             a in s.sessions && b in s.sessions && a != b && s.sessions[a].Some?
    ensures var s := After(Fresh(maxSessions, ttlMs, maxExpired), trace, n); s.sessions[a] != s.sessions[b]
  {
    hide After, Watched, Timed, Numbered;
    RunKeepsInvariant(maxSessions, ttlMs, maxExpired, trace, n);
  }

  lemma StepKeepsDeadlines(s: State, e: Event, id: Id)
    requires Timed(s) && id in s.deadlines
    ensures id in Step(s, e).0.deadlines && Step(s, e).0.deadlines[id] == s.deadlines[id]
  {
    if e.TimerFires? || e.GetCall? {
      hide Step;
      TimerEffect(s, e);
    } else if e.Reserve? {
      hide Step, Timed, Drop;
      ReserveStep(s, e.key, e.viaProfile);
    } else {
      hide StepGet, StepTimer, StepReserve, Released;
    }
  }

  /** In every run, a session's deadline never moves once it is set: neither an early timer
  nor a lookup extends it. */
  lemma {:induction false} DeadlineNeverMoves(maxSessions: nat, ttlMs: nat, maxExpired: nat, trace: seq<Event>, m: nat, n: nat, id: Id)
    requires m <= n <= |trace|
    requires id in After(Fresh(maxSessions, ttlMs, maxExpired), trace, m).deadlines
    ensures var s := Fresh(maxSessions, ttlMs, maxExpired);
            && id in After(s, trace, n).deadlines
            && After(s, trace, n).deadlines[id] == After(s, trace, m).deadlines[id]
  {
    hide Step, Owned, Watched, Timed, Numbered;
    if m < n {
      DeadlineNeverMoves(maxSessions, ttlMs, maxExpired, trace, m, n - 1, id);
      RunKeepsInvariant(maxSessions, ttlMs, maxExpired, trace, n - 1);
      StepKeepsDeadlines(After(Fresh(maxSessions, ttlMs, maxExpired), trace, n - 1), trace[n - 1], id);
    }
  }

  /** A start that succeeds sets the deadline at its own time plus the retention time, and
  arms a timer for it; a second success of the same start changes nothing. */
  lemma StartSetsDeadline(s: State, id: Id, now: int)
    requires Timed(s) && id in s.starting
    ensures var t := Step(s, StartSucceeds(id, now)).0;
            && t.deadlines == s.deadlines[id := now + s.ttlMs] && id in t.timers && t.timers[id].expiresAt == Some(now + s.ttlMs)
            && forall later :: Step(t, StartSucceeds(id, later)) == (t, Done)
  {
  }

  /** A timer that fires early is armed again for the same deadline; one that fires from the
  deadline on begins to stop the session; a superseded one does nothing. */
  lemma TimerFollowsDeadline(s: State, id: Id, generation: nat, now: int)
    requires id in s.timers && s.timers[id].expiresAt.Some?
    ensures var t := Step(s, TimerFires(id, generation, now)).0;
            if generation != s.timers[id].generation then t == s
            else if now < s.timers[id].expiresAt.value then
              t == s.(timers := t.timers, generation := s.generation + 1)
              && t.timers.Keys == s.timers.Keys && t.timers[id].expiresAt == s.timers[id].expiresAt
            else id !in t.timers && (id in s.sessions ==> id in t.stopping && (s.maxExpired > 0 ==> id in t.expired))
  {
    hide Drop;
    if id in s.sessions {
      LastIsNewest(Drop(s.expired, id), id, s.maxExpired);
    }
  }

  lemma LastIsNewest(ids: seq<Id>, id: Id, n: nat)
    ensures n > 0 ==> id in NewestIds(ids + [id], n)
  {
    if n > 0 {
      var r := NewestIds(ids + [id], n);
      assert r[|r| - 1] == id;
    }
  }

  /** From its deadline on, a session is not handed out any more, even if its timer has not
  fired, unless it is being stopped already. */
  lemma GetFailsFromDeadline(s: State, id: Id, now: int)
    requires Invariant(s) && id in s.deadlines && now >= s.deadlines[id] && !BeingStopped(s, id)
    ensures Step(s, GetCall(id, now)).1 == SessionExpired || Step(s, GetCall(id, now)).1 == NotFound
  {
    hide Expire, Remember, ClearTimer;
  }

  /** Looking up an expired session begins to stop it. */
  lemma GetStopsExpired(s: State, id: Id, now: int)
    requires id in s.sessions && Due(s, id, now)
    ensures BeingStopped(Step(s, GetCall(id, now)).0, id)
  {
    hide Drop, NewestIds;
  }

  /** Before its deadline a live session is handed out, unless it has been marked expired. */
  lemma GetSucceedsBeforeDeadline(s: State, id: Id, now: int)
    requires Invariant(s) && id in s.sessions && id !in s.expired && (id in s.deadlines ==> now < s.deadlines[id])
    ensures Step(s, GetCall(id, now)) == (s, Session(id))
  {
  }

  /** A session that is gone never comes back. The end of a stop takes it away whether the
  browser closed or not, so the retry that a failed expiry would schedule, which asks for a
  session that is still there, never happens. */
  lemma GoneStaysGone(s: State, e: Event, id: Id)
    requires id < s.nextId && id !in s.sessions
    ensures id < Step(s, e).0.nextId && id !in Step(s, e).0.sessions
    ensures forall x :: x in s.stopping ==> x !in Step(s, StopEnds(x)).0.sessions
  {
    hide Step, Drop;
    StopEndsAll(s);
    if e.TimerFires? || e.GetCall? {
      TimerEffect(s, e);
    } else if e.Reserve? {
      ReserveStep(s, e.key, e.viaProfile);
    } else {
      OthersAddNothing(s, e);
    }
  }

  lemma OthersAddNothing(s: State, e: Event)
    requires !e.TimerFires? && !e.GetCall? && !e.Reserve?
    ensures Step(s, e).0.nextId == s.nextId && Step(s, e).0.sessions.Keys <= s.sessions.Keys
  {
    hide StepGet, StepTimer, StepReserve, Released;
  }

  lemma StopEndsAll(s: State)
    ensures forall x :: x in s.stopping ==> x !in Step(s, StopEnds(x)).0.sessions
  {
    hide Released;
  }

  // ----- locks that are left behind -----

  /** Every profile lock belongs to a live session that was started with that profile. */
  predicate NoLeak(s: State) {
    forall k :: k in s.owners ==> s.owners[k] in s.sessions && s.sessions[s.owners[k]] == Some(k)
  }

  lemma ReserveKeepsNoLeak(s: State, key: Option<Str>, viaProfile: bool)
    requires NoLeak(s) && Numbered(s)
    ensures NoLeak(StepReserve(s, key, viaProfile).0)
  {
    hide Drop;
  }

  lemma StartFailsKeepsNoLeak(s: State, id: Id)
    requires NoLeak(s) && Owned(s)
    ensures NoLeak(StepStartFails(s, id))
  {
  }

  lemma StopsKeepNoLeak(s: State, e: Event)
    requires NoLeak(s) && (e.StopBegins? || e.StopEnds?)
    ensures NoLeak(Step(s, e).0)
  {
    hide Step;
    StopEffect(s, e);
  }

  lemma StopEffect(s: State, e: Event)
    requires e.StopBegins? || e.StopEnds?
    ensures var t := Step(s, e).0;
            || (t.sessions == s.sessions && t.owners == s.owners)
            || (t.sessions == s.sessions - {e.id} && t.owners == Released(s.owners, {e.id}))
  {
    hide Released;
  }

  lemma StepKeepsNoLeak(s: State, e: Event)
    requires NoLeak(s) && Owned(s) && Numbered(s) && !e.ShutdownEnds?
    ensures NoLeak(Step(s, e).0)
  {
    if e.TimerFires? || e.GetCall? {
      hide Step;
      TimerEffect(s, e);
    } else if e.Reserve? {
      hide NoLeak, Numbered, StepReserve;
      ReserveKeepsNoLeak(s, e.key, e.viaProfile);
    } else if e.StartFails? {
      hide NoLeak, Owned, StepStartFails;
      StartFailsKeepsNoLeak(s, e.id);
    } else if e.StopBegins? || e.StopEnds? {
      hide Step;
      StopsKeepNoLeak(s, e);
    } else {
      hide StepGet, StepTimer, Drop, StepStartFails, StepReserve, BeginStop, Released;
    }
  }

  /** The end of a shutdown leaves a lock behind exactly when a session with a persistent
  profile was started after the shutdown had begun: the sessions are all forgotten, but only
  the locks of those that the shutdown found are released. */
  lemma ShutdownLeaks(s: State, k: nat)
    requires NoLeak(s) && Owned(s) && k < |s.shutdowns|
    ensures NoLeak(Step(s, ShutdownEnds(k)).0) <==>
              forall id :: id in s.sessions && s.sessions[id].Some? ==> id in s.shutdowns[k]
  {
    var t := Step(s, ShutdownEnds(k)).0;
    if NoLeak(t) {
      forall id | id in s.sessions && s.sessions[id].Some?
        ensures id in s.shutdowns[k]
      {
        var key := s.sessions[id].value;
        assert key !in t.owners;
      }
    }
  }

  /** A lock whose session is neither live nor starting nor being stopped. */
  predicate Orphaned(s: State, key: Str) {
    && key in s.owners && s.owners[key] !in s.sessions && s.owners[key] !in s.starting && s.owners[key] !in s.stopping
    && s.owners[key] < s.nextId
    && forall k :: 0 <= k < |s.shutdowns| ==> s.owners[key] !in s.shutdowns[k]
  }

  lemma InsertKeepsOrphans(s: State, added: Option<Str>, key: Str)
    requires Orphaned(s, key) && (added.Some? ==> added.value !in s.owners)
    ensures Orphaned(Insert(s, added), key) && Insert(s, added).owners[key] == s.owners[key]
  {
    hide Drop;
  }

  lemma ReserveKeepsOrphans(s: State, e: Event, key: Str)
    requires Orphaned(s, key) && e.Reserve?
    ensures Orphaned(Step(s, e).0, key) && Step(s, e).0.owners[key] == s.owners[key]
  {
    hide Insert, Step;
    ReserveStep(s, e.key, e.viaProfile);
    var read := s.(reading := s.reading - multiset{e.key});
    assert Orphaned(read, key);
    hide Orphaned;
    OrphanIsOwned(s, key);
    if e.key.None? || e.key.value !in s.owners {
      InsertKeepsOrphans(s, e.key, key);
      InsertKeepsOrphans(read, e.key, key);
    }
  }

  lemma StartEndsKeepOrphans(s: State, e: Event, key: Str)
    requires Orphaned(s, key) && (e.StartFails? || e.StartSucceeds? || e.CheckCap? || e.ProfileFails?)
    ensures Orphaned(Step(s, e).0, key) && Step(s, e).0.owners[key] == s.owners[key]
  {
  }

  lemma StopsKeepOrphans(s: State, e: Event, key: Str)
    requires Orphaned(s, key) && (e.StopBegins? || e.StopEnds?)
    ensures Orphaned(Step(s, e).0, key) && Step(s, e).0.owners[key] == s.owners[key]
  {
  }

  lemma ShutdownsKeepOrphans(s: State, e: Event, key: Str)
    requires Orphaned(s, key) && (e.ShutdownBegins? || e.ShutdownEnds?)
    ensures Orphaned(Step(s, e).0, key) && Step(s, e).0.owners[key] == s.owners[key]
  {
  }

  lemma TimersKeepOrphans(s: State, e: Event, key: Str)
    requires Orphaned(s, key) && (e.TimerFires? || e.GetCall?)
    ensures Orphaned(Step(s, e).0, key) && Step(s, e).0.owners[key] == s.owners[key]
  {
    if e.id == s.owners[key] {
      OrphanHasNoSession(s, e, key);
    } else {
      hide Step;
      TimerEffect(s, e);
    }
  }

  lemma OrphanHasNoSession(s: State, e: Event, key: Str)
    requires Orphaned(s, key) && (e.TimerFires? || e.GetCall?) && e.id == s.owners[key]
    ensures Orphaned(Step(s, e).0, key) && Step(s, e).0.owners[key] == s.owners[key]
  {
    hide Drop, NewestIds;
  }

  /** Nothing releases such a lock any more, and no start gets the profile: it stays in use
  for good. */
  lemma OrphanStays(s: State, e: Event, key: Str)
    requires Orphaned(s, key)
    ensures Orphaned(Step(s, e).0, key) && Step(s, e).0.owners[key] == s.owners[key]
    ensures forall viaProfile :: !Step(s, Reserve(Some(key), viaProfile)).1.Launching?
  {
    hide Orphaned;
    OrphanIsOwned(s, key);
    if e.TimerFires? || e.GetCall? {
      TimersKeepOrphans(s, e, key);
    } else if e.StopBegins? || e.StopEnds? {
      StopsKeepOrphans(s, e, key);
    } else if e.ShutdownBegins? || e.ShutdownEnds? {
      ShutdownsKeepOrphans(s, e, key);
    } else if e.Reserve? {
      ReserveKeepsOrphans(s, e, key);
    } else {
      StartEndsKeepOrphans(s, e, key);
    }
  }

  lemma OrphanIsOwned(s: State, key: Str)
    requires Orphaned(s, key)
    ensures key in s.owners
  {
  }

  lemma AfterOne(s: State, trace: seq<Event>, n: nat)
    requires n < |trace|
    ensures After(s, trace, 0) == s
    ensures After(s, trace, n + 1) == Step(After(s, trace, n), trace[n]).0
  {
    hide Step;
  }

  // ----- when a start is granted, and what an end gives back -----

  /** A start gets its session exactly when there is room, or its own cap check has passed
  before, and no live session has its profile. The session is new, live and launching. A
  refusal adds nothing. */
  lemma StartIsGranted(s: State, key: Option<Str>, viaProfile: bool)
    requires Owned(s) && NoLeak(s) && Numbered(s)
    ensures var (t, r) := Step(s, Reserve(key, viaProfile));
            && (r.Launching? <==>
                  && (if viaProfile then key in s.reading else |s.sessions| < s.maxSessions)
                  && (key.Some? ==> forall id :: id in s.sessions ==> s.sessions[id] != key))
            && (if r.Launching? then
                  && r.id !in s.sessions && r.id !in s.starting && r.id !in t.expired
                  && t.sessions == s.sessions[r.id := key] && t.starting == s.starting[r.id := key]
                else
                  t.sessions == s.sessions && t.starting == s.starting && t.owners == s.owners)
            && (r == AtCapacity <==> !viaProfile && |s.sessions| >= s.maxSessions)
  {
    hide Step, Insert, Owned, NoLeak, Numbered;
    ReserveStep(s, key, viaProfile);
    if key.Some? {
      OwnedMeansTaken(s, key.value);
    }
    InsertAdds(s, key);
    assert Numbered(s.(reading := s.reading - multiset{key})) by {
      ReadingIsNotNumbered(s, key);
    }
    InsertAdds(s.(reading := s.reading - multiset{key}), key);
  }

  lemma ReadingIsNotNumbered(s: State, key: Option<Str>)
    requires Numbered(s)
    ensures Numbered(s.(reading := s.reading - multiset{key}))
  {
  }

  /** A profile is owned exactly while a live session has it. */
  lemma OwnedMeansTaken(s: State, key: Str)
    requires Owned(s) && NoLeak(s)
    ensures key !in s.owners <==> forall id :: id in s.sessions ==> s.sessions[id] != Some(key)
  {
    if key !in s.owners {
      NoOwnerNoSession(s, key);
    }
  }

  lemma InsertAdds(s: State, key: Option<Str>)
    requires Numbered(s)
    ensures var t := Insert(s, key);
            && s.nextId !in s.sessions && s.nextId !in s.starting && s.nextId !in t.expired
            && t.sessions == s.sessions[s.nextId := key] && t.starting == s.starting[s.nextId := key]
  {
    hide Drop;
  }

  lemma NoOwnerNoSession(s: State, key: Str)
    requires Owned(s) && key !in s.owners
    ensures forall id :: id in s.sessions ==> s.sessions[id] != Some(key)
  {
  }

  /** The end of a stop and the failure of a start take the session away and free its
  profile: the next start with it is granted if there is room. */
  lemma EndFreesProfile(s: State, e: Event, id: Id)
    requires Owned(s) && NoLeak(s) && Numbered(s) && id in s.sessions
    requires (e == StopEnds(id) && id in s.stopping) || (e == StartFails(id) && id in s.starting)
    ensures var t := Step(s, e).0;
            && t.sessions == s.sessions - {id}
            && (Step(t, Reserve(s.sessions[id], false)).1.Launching? <==> |t.sessions| < s.maxSessions)
  {
    hide Step, Owned, NoLeak, Numbered;
    var t := Step(s, e).0;
    StepKeepsOwned(s, e);
    StepKeepsNoLeak(s, e);
    StepKeepsTimedNumbers(s, e);
    EndTakesAway(s, e, id);
    StartIsGranted(t, s.sessions[id], false);
    OnlyOneOwner(s, id);
  }

  lemma StepKeepsTimedNumbers(s: State, e: Event)
    requires Numbered(s) && (e.StopEnds? || e.StartFails?)
    ensures Numbered(Step(s, e).0) && Step(s, e).0.maxSessions == s.maxSessions
  {
    hide Released;
  }

  lemma EndTakesAway(s: State, e: Event, id: Id)
    requires (e == StopEnds(id) && id in s.stopping) || (e == StartFails(id) && id in s.starting)
    ensures Step(s, e).0.sessions == s.sessions - {id}
  {
    hide Released;
  }

  lemma OnlyOneOwner(s: State, id: Id)
    requires Owned(s) && id in s.sessions
    ensures s.sessions[id].Some? ==> forall x :: x in s.sessions && x != id ==> s.sessions[x] != s.sessions[id]
  {
  }

  /** A shutdown leaves no timer that could fire later and has every live session on its way
  out; when it ends, no session is live and no lock of those that it found is left. */
  lemma ShutdownEndsAll(s: State, k: nat)
    ensures var t := Step(s, ShutdownBegins).0;
            && t.timers == map[] && t.sessions == s.sessions && t.owners == s.owners
            && t.shutdowns == s.shutdowns + [s.sessions.Keys] && forall id :: id in t.sessions ==> BeingStopped(t, id)
    ensures k < |s.shutdowns| ==>
              var t := Step(s, ShutdownEnds(k)).0;
              t.sessions == map[] && forall p :: p in t.owners <==> p in s.owners && s.owners[p] !in s.shutdowns[k]
  {
    assert Step(s, ShutdownBegins).0.shutdowns[|s.shutdowns|] == s.sessions.Keys;
  }

  /** The answer of a lookup: expired from the deadline on and while it is remembered as
  such, unknown when it is not live otherwise. */
  lemma GetTells(s: State, id: Id, now: int)
    requires Timed(s)
    ensures var (t, r) := Step(s, GetCall(id, now));
            var expired := id in s.expired || (id in s.timers && now >= s.deadlines[id]);
            && (r == SessionExpired <==> expired)
            && (r == NotFound <==> !expired && id !in s.sessions)
            && (r == Session(id) <==> !expired && id in s.sessions)
            && (expired && id in s.timers && now >= s.deadlines[id] ==> id !in t.timers)
  {
    hide Drop, NewestIds;
  }

  // ----- the class -----

  /** The manager's maps. The ghost fields hold the asynchronous calls under way. */
  class Manager {
    const maxSessions: nat
    const ttlMs: nat
    const maxExpired: nat
    var sessions: map<Id, Option<Str>>
    var owners: map<Str, Id>
    var timers: map<Id, Timer>
    var expired: seq<Id>
    var generation: nat
    var nextId: Id
    ghost var reading: multiset<Option<Str>>
    ghost var starting: map<Id, Option<Str>>
    ghost var stopping: multiset<Id>
    ghost var shutdowns: seq<set<Id>>
    ghost var deadlines: map<Id, int>

    ghost function ToState(): State
      reads this
    {
      State(maxSessions, ttlMs, maxExpired, sessions, owners, timers, expired, generation, reading, nextId,
            starting, stopping, shutdowns, deadlines)
    }

    constructor (maxSessions: nat, ttlMs: nat, maxExpired: nat)
      ensures ToState() == Fresh(maxSessions, ttlMs, maxExpired)
    {
      this.maxSessions, this.ttlMs, this.maxExpired := maxSessions, ttlMs, maxExpired;
      sessions, owners, timers, expired, generation, nextId := map[], map[], map[], [], 0, 0;
      reading, starting, stopping, shutdowns, deadlines := multiset{}, map[], multiset{}, [], map[];
    }

    // The private helpers.

    method ClearExpiryTimer(id: Id)
      modifies `timers
      ensures ToState() == ClearTimer(old(ToState()), id)
    {
      timers := timers - {id};
    }

    method ScheduleExpiryAt(id: Id, expiresAt: int)
      modifies `timers, `generation
      ensures ToState() == Schedule(old(ToState()), id, expiresAt)
    {
      ClearExpiryTimer(id);
      generation := generation + 1;
      timers := timers[id := Timer(generation, Some(expiresAt))];
    }

    method RememberExpired(id: Id)
      modifies `expired
      ensures ToState() == Remember(old(ToState()), id)
    {
      expired := Drop(expired, id);
      expired := expired + [id];
      ghost var all := expired;
      while |expired| > maxExpired
        invariant |expired| <= |all| && expired == all[|all| - |expired|..]
        invariant |expired| < |all| ==> |expired| >= maxExpired
      {
        expired := expired[1..];
      }
    }

    method ReleasePersistentProfile(id: Id)
      modifies `owners
      ensures owners == Released(old(owners), {id})
    {
      var keys := owners.Keys;
      while keys != {}
        invariant keys <= owners.Keys <= old(owners).Keys
        invariant forall k :: k in old(owners) && k !in owners ==> old(owners)[k] == id
        invariant forall k :: k in owners ==> owners[k] == old(owners)[k] && (owners[k] != id || k in keys)
        decreases |keys|
      {
        var key :| key in keys;
        if owners[key] == id {
          owners := owners - {key};
        }
        keys := keys - {key};
      }
    }

    /** `stop` up to its wait for the browser. */
    method StopBegin(id: Id) returns (found: bool)
      modifies `timers, `stopping
      ensures ToState() == BeginStop(old(ToState()), id) && found == (id in sessions)
    {
      if id !in sessions {
        return false;
      }
      ClearExpiryTimer(id);
      stopping := stopping + multiset{id};
      found := true;
    }

    method ExpireSession(id: Id)
      modifies `timers, `stopping, `expired
      ensures ToState() == Expire(old(ToState()), id)
    {
      if id in sessions {
        RememberExpired(id);
        var found := StopBegin(id);
      }
    }

    method InsertSession(key: Option<Str>) returns (id: Id)
      modifies `nextId, `owners, `expired, `sessions, `starting
      ensures ToState() == Insert(old(ToState()), key) && id == old(nextId)
    {
      hide Drop;
      id := nextId;
      nextId := nextId + 1;
      if key.Some? {
        owners := owners[key.value := id];
      }
      expired := Drop(expired, id);
      sessions := sessions[id := key];
      starting := starting[id := key];
    }

    // The public operations, event by event.

    method StartReserve(key: Option<Str>, viaProfile: bool) returns (r: Reply)
      requires viaProfile ==> key in reading
      modifies this
      ensures (ToState(), r) == Step(old(ToState()), Reserve(key, viaProfile))
    {
      hide Insert, Step;
      ReserveStep(ToState(), key, viaProfile);
      if !viaProfile && |sessions| >= maxSessions {
        return AtCapacity;
      }
      if viaProfile {
        reading := reading - multiset{key};
      }
      if key.Some? && key.value in owners {
        return ProfileInUse;
      }
      var id := InsertSession(key);
      r := Launching(id);
    }

    method StartSucceed(id: Id, now: int) returns (r: Reply)
      requires id in starting
      modifies this
      ensures (ToState(), r) == Step(old(ToState()), StartSucceeds(id, now))
    {
      ScheduleExpiryAt(id, now + ttlMs);
      starting := starting - {id};
      deadlines := deadlines[id := now + ttlMs];
      r := Session(id);
    }

    method StartFail(id: Id, key: Option<Str>)
      requires id in starting && starting[id] == key
      modifies this
      ensures ToState() == Step(old(ToState()), StartFails(id)).0
    {
      hide Step;
      StartFailsStep(ToState(), id);
      ClearExpiryTimer(id);
      sessions := sessions - {id};
      if key.Some? && key.value in owners && owners[key.value] == id {
        owners := owners - {key.value};
      }
      starting := starting - {id};
    }

    method Stop(id: Id) returns (r: Reply)
      modifies this
      ensures (ToState(), r) == Step(old(ToState()), StopBegins(id))
    {
      var found := StopBegin(id);
      r := if found then Done else NotFound;
    }

    /** The rest of `stop`, whether the browser closed or failed to. */
    method StopEnd(id: Id)
      requires id in stopping
      modifies this
      ensures ToState() == Step(old(ToState()), StopEnds(id)).0
    {
      hide Released, Step;
      StopEndsStep(ToState(), id);
      sessions := sessions - {id};
      ReleasePersistentProfile(id);
      stopping := stopping - multiset{id};
    }

    method FireTimer(id: Id, timerGeneration: nat, now: int)
      modifies this
      ensures ToState() == Step(old(ToState()), TimerFires(id, timerGeneration, now)).0
    {
      hide Drop, NewestIds, Remember, Expire;
      if id !in timers || timers[id].generation != timerGeneration {
        return;
      }
      var current := timers[id];
      if current.expiresAt.Some? && now < current.expiresAt.value {
        ScheduleExpiryAt(id, current.expiresAt.value);
        return;
      }
      timers := timers - {id};
      ExpireSession(id);
    }

    method Get(id: Id, now: int) returns (r: Reply)
      modifies this
      ensures (ToState(), r) == Step(old(ToState()), GetCall(id, now))
    {
      hide Drop, NewestIds, Remember, Expire;
      var due := id in timers && timers[id].expiresAt.Some? && now >= timers[id].expiresAt.value;
      if id in expired || due {
        if due {
          ClearExpiryTimer(id);
          RememberExpired(id);
          ExpireSession(id);
        }
        return SessionExpired;
      }
      if id !in sessions {
        return NotFound;
      }
      r := Session(id);
    }

    method ShutdownBegin() returns (found: set<Id>)
      modifies this
      ensures ToState() == Step(old(ToState()), ShutdownBegins).0
      ensures shutdowns == old(shutdowns) + [found]
    {
      timers := map[];
      found := sessions.Keys;
      shutdowns := shutdowns + [found];
    }

    method ShutdownEnd(found: set<Id>, ghost k: nat)
      requires k < |shutdowns| && shutdowns[k] == found
      modifies this
      ensures ToState() == Step(old(ToState()), ShutdownEnds(k)).0
    {
      hide Released, Step;
      ShutdownEndsStep(ToState(), k);
      ReleasedOneMore(owners, {}, 0);
      assert found - found == {};
      var rest := found;
      while rest != {}
        invariant rest <= found && owners == Released(old(owners), found - rest)
        decreases |rest|
        modifies `owners
      {
        var id :| id in rest;
        ReleasedOneMore(old(owners), found - rest, id);
        ReleasePersistentProfile(id);
        assert found - (rest - {id}) == (found - rest) + {id};
        rest := rest - {id};
      }
      assert found - rest == found;
      sessions := map[];
      shutdowns := shutdowns[..k] + shutdowns[k + 1..];
    }
  }

  lemma StopEndsStep(s: State, id: Id)
    requires id in s.stopping
    ensures Step(s, StopEnds(id)).0 ==
            s.(stopping := s.stopping - multiset{id}, sessions := s.sessions - {id}, owners := Released(s.owners, {id}))
  {
    hide Released;
  }

  lemma ShutdownEndsStep(s: State, k: nat)
    requires k < |s.shutdowns|
    ensures Step(s, ShutdownEnds(k)).0 ==
            s.(shutdowns := s.shutdowns[..k] + s.shutdowns[k + 1..], owners := Released(s.owners, s.shutdowns[k]), sessions := map[])
  {
    hide Released;
  }

  lemma ReleasedOneMore(owners: map<Str, Id>, ids: set<Id>, id: Id)
    ensures Released(Released(owners, ids), {id}) == Released(owners, ids + {id})
    ensures Released(owners, {}) == owners
  {
  }
}
