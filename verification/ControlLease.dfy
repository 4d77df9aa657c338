/** The human hand-over lease (src/browser/control-lease.ts).

`Step` says what every call, timer firing and disposal does to the state; the class
`ControlLeaseManager` does it in place. The clock is read once per call here. A
digest is modelled by the token it was made from and the zeroed digest by `None`. */
module ControlLease {
  import opened Common
  import opened Text

  datatype Actor = Agent | User | System | UnknownActor

  datatype Control = AgentControlled | UserControlled | Inactive

  datatype Handoff = NoHandoff | Pending | Active | Released | Expired

  datatype Owner = OwnerAgent | OwnerUser | OwnerNone

  datatype LeaseError = ManualTakeoverActive | HandoffExpired | InvalidState | InvalidArgument

  datatype Lease = Lease(generation: nat, digest: Option<Str>, issuedAt: int, expiresAt: int, activatedAt: Option<int>)

  datatype State = State(
    ttlMs: int, maxTtlMs: int,
    control: Control, handoff: Handoff, owner: Owner,
    lease: Option<Lease>,
    timer: Option<nat>,              // the generation whose expiry timer is armed
    nextGeneration: nat,
    releasedAt: Option<int>, expiredAt: Option<int>)

  /** One call with its clock reading. `actor` is absent when the caller omits it. */
  datatype Event =
    | HandoffCall(now: int, actor: Option<Actor>, reasonValid: bool, ttlMs: Option<int>, token: Str)
    | TakeoverCall(now: int, actor: Option<Actor>, token: Str, confirmed: bool)
    | ReleaseCall(now: int, actor: Option<Actor>, token: Str, confirmed: bool)
    | ResumeCall(now: int, actor: Option<Actor>)
    | RecoverCall(now: int, actor: Option<Actor>, confirmed: bool)
    | StatusCall(now: int)
    | TimerFires(now: int, generation: nat)   // early, late or stale
    | DisposeCall(now: int)

  type Outcome = Result<(), LeaseError>

  const MAX_DURATION_MS := 2_147_000_000

  predicate ValidDuration(ms: int) { 0 < ms <= MAX_DURATION_MS }

  /** What `issueToken` and `assertToken` accept: non-empty, no control characters. */
  predicate TokenShape(token: Str) {
    token != [] && forall i :: 0 <= i < |token| ==> token[i] >= 0x20 && token[i] != 0x7F
  }

  function Initial(ttlMs: int, maxTtlMs: int): State {
    State(ttlMs, maxTtlMs, AgentControlled, NoHandoff, OwnerAgent, None, None, 0, None, None)
  }

  predicate AgentWriteAllowed(s: State) {
    s.control == AgentControlled && s.handoff == NoHandoff && s.owner == OwnerAgent
  }

  predicate UserControlActive(s: State) {
    s.control == UserControlled && s.handoff == Active && s.owner == OwnerUser
  }

  function ZeroDigest(lease: Option<Lease>): Option<Lease> {
    if lease.Some? then Some(lease.value.(digest := None)) else None
  }

  predicate Due(s: State, now: int) {
    s.lease.Some? && (s.handoff == Pending || s.handoff == Active) && now >= s.lease.value.expiresAt
  }

  function ExpireNow(s: State, now: int): State {
    s.(lease := ZeroDigest(s.lease), timer := None, control := Inactive, owner := OwnerNone,
       handoff := Expired, expiredAt := Some(now), releasedAt := None)
  }

  function ExpireIfDue(s: State, now: int): State {
    if Due(s, now) then ExpireNow(s, now) else s
  }

  predicate Matches(s: State, token: Str) {
    s.lease.Some? && token != [] && s.lease.value.digest == Some(token)
  }

  function StepHandoff(s: State, e: Event): (State, Outcome)
    requires e.HandoffCall?
  {
    var actor := e.actor.GetOr(Agent);
    var ttl := e.ttlMs.GetOr(s.ttlMs);
    if actor == UnknownActor then (s, Err(InvalidArgument))
    else if actor != Agent then (s, Err(InvalidState))
    else if !e.reasonValid then (s, Err(InvalidArgument))
    else if s.handoff == Active || s.control == UserControlled then (s, Err(ManualTakeoverActive))
    else if s.handoff == Pending || s.handoff == Released then (s, Err(InvalidState))
    else if !ValidDuration(ttl) || ttl > s.maxTtlMs || !TokenShape(e.token) then (s, Err(InvalidArgument))
    else
      var g := s.nextGeneration + 1;
      (s.(lease := Some(Lease(g, Some(e.token), e.now, e.now + ttl, None)), nextGeneration := g, timer := Some(g),
          control := Inactive, owner := OwnerNone, handoff := Pending, releasedAt := None, expiredAt := None),
       Ok(()))
  }

  function StepTakeover(s: State, e: Event): (State, Outcome)
    requires e.TakeoverCall?
  {
    var actor := e.actor.GetOr(User);
    if actor == UnknownActor || !e.confirmed then (s, Err(InvalidArgument))
    else if actor != User then (s, Err(InvalidState))
    else if s.handoff == Expired then (s, Err(HandoffExpired))
    else if s.handoff == NoHandoff || s.handoff == Released then (s, Err(InvalidState))
    else if s.handoff == Active then (s, if Matches(s, e.token) then Ok(()) else Err(ManualTakeoverActive))
    else if !TokenShape(e.token) || !Matches(s, e.token) then (s, Err(InvalidArgument))
    else
      (s.(lease := Some(s.lease.value.(activatedAt := Some(e.now))),
          control := UserControlled, owner := OwnerUser, handoff := Active),
       Ok(()))
  }

  function StepRelease(s: State, e: Event): (State, Outcome)
    requires e.ReleaseCall?
  {
    var actor := e.actor.GetOr(User);
    if actor == UnknownActor || !e.confirmed then (s, Err(InvalidArgument))
    else if actor != User then (s, Err(InvalidState))
    else if s.handoff == Expired then (s, Err(HandoffExpired))
    else if s.handoff != Active then (s, Err(InvalidState))
    else if !TokenShape(e.token) || !Matches(s, e.token) then (s, Err(InvalidArgument))
    else
      (s.(lease := None, timer := None, control := Inactive, owner := OwnerNone, handoff := Released,
          releasedAt := Some(e.now), expiredAt := None),
       Ok(()))
  }

  function StepResume(s: State, e: Event): (State, Outcome)
    requires e.ResumeCall?
  {
    var actor := e.actor.GetOr(Agent);
    if actor == UnknownActor then (s, Err(InvalidArgument))
    else if actor != Agent then (s, Err(InvalidState))
    else if s.handoff == Active || s.control == UserControlled then (s, Err(ManualTakeoverActive))
    else if s.handoff == Expired then (s, Err(HandoffExpired))
    else if s.handoff == Pending then (s, Err(InvalidState))
    else if s.handoff == NoHandoff then (s, if s.control == AgentControlled then Ok(()) else Err(InvalidState))
    else
      (s.(control := AgentControlled, owner := OwnerAgent, handoff := NoHandoff, releasedAt := None, expiredAt := None),
       Ok(()))
  }

  function StepRecover(s: State, e: Event): (State, Outcome)
    requires e.RecoverCall?
  {
    var actor := e.actor.GetOr(User);
    if actor == UnknownActor || !e.confirmed then (s, Err(InvalidArgument))
    else if actor != User then (s, Err(InvalidState))
    else if s.handoff != Expired then (s, Err(InvalidState))
    else
      (s.(lease := None, control := Inactive, owner := OwnerNone, handoff := Released,
          releasedAt := Some(e.now), expiredAt := None),
       Ok(()))
  }

  /** A timer only touches the lease it was armed for, and re-arms when it is early. */
  function StepTimer(s: State, now: int, generation: nat): State {
    if s.lease.None? || s.lease.value.generation != generation || s.handoff == Expired then s
    else if s.lease.value.expiresAt > now then s.(timer := Some(generation))
    else ExpireNow(s, now)
  }

  function StepDispose(s: State, now: int): State {
    s.(lease := None, timer := None, control := Inactive, owner := OwnerNone, handoff := Expired, expiredAt := Some(now))
  }

  function Step(s: State, e: Event): (State, Outcome) {
    match e
    case HandoffCall(now, _, _, _, _) => StepHandoff(ExpireIfDue(s, now), e)
    case TakeoverCall(now, _, _, _) => StepTakeover(ExpireIfDue(s, now), e)
    case ReleaseCall(now, _, _, _) => StepRelease(ExpireIfDue(s, now), e)
    case ResumeCall(now, _) => StepResume(ExpireIfDue(s, now), e)
    case RecoverCall(now, _, _) => StepRecover(ExpireIfDue(s, now), e)
    case StatusCall(now) => (ExpireIfDue(s, now), Ok(()))
    case TimerFires(now, generation) => (StepTimer(s, now, generation), Ok(()))
    case DisposeCall(now) => (StepDispose(s, now), Ok(()))
  }

  // ----- what every step keeps -----

  /** The five legal combinations, and what each says about the lease record. */
  predicate Legal(s: State) {
    && (match s.handoff
        case NoHandoff => s.control == AgentControlled && s.owner == OwnerAgent && s.lease.None?
        case Pending => s.control == Inactive && s.owner == OwnerNone
                        && s.lease.Some? && s.lease.value.digest.Some? && s.lease.value.activatedAt.None?
        case Active => s.control == UserControlled && s.owner == OwnerUser
                       && s.lease.Some? && s.lease.value.digest.Some? && s.lease.value.activatedAt.Some?
        case Released => s.control == Inactive && s.owner == OwnerNone && s.lease.None?
        case Expired => s.control == Inactive && s.owner == OwnerNone
                        && (s.lease.Some? ==> s.lease.value.digest.None?))
    && (s.lease.Some? ==> s.lease.value.generation == s.nextGeneration)
    // an armed timer belongs to the lease in force, and such a lease has one
    && (s.timer.Some? <==> s.handoff == Pending || s.handoff == Active)
    && (s.timer.Some? ==> s.timer.value == s.nextGeneration)
  }

  lemma StepKeepsLegal(s: State, e: Event)
    requires Legal(s)
    ensures Legal(Step(s, e).0)
  {
  }

  /** A failed call changes nothing but, possibly, the expiry that was already due. */
  lemma FailureOnlyExpires(s: State, e: Event)
    requires Step(s, e).1.Err?
    ensures Step(s, e).0 == ExpireIfDue(s, e.now)
  {
  }

  /** A timer of an older lease changes nothing. */
  lemma StaleTimerIsHarmless(s: State, now: int, generation: nat)
    requires Legal(s) && generation != s.nextGeneration
    ensures Step(s, TimerFires(now, generation)).0 == s
  {
  }

  /** A lease in force is never ended by the clock before its deadline, and no call
  sees it in force from the deadline on. */
  lemma ExpiryIsExact(s: State, e: Event)
    requires Legal(s) && (s.handoff == Pending || s.handoff == Active)
    requires !e.DisposeCall? && (e.TimerFires? ==> e.generation == s.nextGeneration)
    ensures e.now >= s.lease.value.expiresAt && !e.HandoffCall? && !e.RecoverCall? ==> Step(s, e).0.handoff == Expired
    ensures e.now < s.lease.value.expiresAt ==> Step(s, e).0.handoff != Expired
  {
  }

  // ----- when each call succeeds, and what it leaves -----

  /** A handoff is pending or active and its deadline has not come. */
  predicate InForce(s: State, handoff: Handoff, now: int) {
    && s.handoff == handoff && (handoff == Pending || handoff == Active)
    && s.lease.Some? && now < s.lease.value.expiresAt
  }

  /** A handoff is over unreleased, or its deadline has come. */
  predicate HasExpired(s: State, now: int) {
    s.handoff == Expired || ((s.handoff == Pending || s.handoff == Active) && s.lease.Some? && now >= s.lease.value.expiresAt)
  }

  predicate By(actor: Option<Actor>, expected: Actor) { actor == None || actor == Some(expected) }

  /** The token of the lease in force. */
  predicate Holds(s: State, token: Str) { s.lease.Some? && s.lease.value.digest == Some(token) }

  predicate Becomes(t: State, control: Control, handoff: Handoff, owner: Owner) {
    t.control == control && t.handoff == handoff && t.owner == owner
  }

  /** A handoff is granted exactly to the agent, with a reason and a duration within the
  bounds, while no handoff is open; it then waits for the holder of its token, with its timer
  armed, until its own deadline. */
  lemma HandoffSucceeds(s: State, now: int, actor: Option<Actor>, reasonValid: bool, ttlMs: Option<int>, token: Str)
    requires Legal(s)
    ensures var (t, r) := Step(s, HandoffCall(now, actor, reasonValid, ttlMs, token));
            var ttl := ttlMs.GetOr(s.ttlMs);
            && (r.Ok? <==>
                  && (s.handoff == NoHandoff || HasExpired(s, now))
                  && By(actor, Agent) && reasonValid && 0 < ttl <= MAX_DURATION_MS && ttl <= s.maxTtlMs && TokenShape(token))
            && (r.Ok? ==>
                  && Becomes(t, Inactive, Pending, OwnerNone)
                  && t.nextGeneration == s.nextGeneration + 1 && t.timer == Some(t.nextGeneration)
                  && t.lease == Some(Lease(t.nextGeneration, Some(token), now, now + ttl, None))
                  && t.releasedAt == None && t.expiredAt == None && t.ttlMs == s.ttlMs && t.maxTtlMs == s.maxTtlMs)
  {
  }

  /** A takeover succeeds exactly for a person who confirms it with the token of a handoff
  that is pending, or already that person's, before its deadline. The deadline stays. */
  lemma TakeoverSucceeds(s: State, now: int, actor: Option<Actor>, token: Str, confirmed: bool)
    requires Legal(s)
    ensures var (t, r) := Step(s, TakeoverCall(now, actor, token, confirmed));
            && (r.Ok? <==>
                  && ((InForce(s, Pending, now) && TokenShape(token)) || (InForce(s, Active, now) && token != []))
                  && By(actor, User) && confirmed && Holds(s, token))
            && (r.Ok? ==>
                  && Becomes(t, UserControlled, Active, OwnerUser)
                  && t == s.(control := t.control, handoff := t.handoff, owner := t.owner, lease := t.lease)
                  && t.lease == Some(s.lease.value.(activatedAt := if s.handoff == Pending then Some(now)
                                                                   else s.lease.value.activatedAt)))
  {
  }

  /** A release succeeds exactly for a person who confirms it with the token of an active
  handoff before its deadline. It leaves no lease and no timer. */
  lemma ReleaseSucceeds(s: State, now: int, actor: Option<Actor>, token: Str, confirmed: bool)
    requires Legal(s)
    ensures var (t, r) := Step(s, ReleaseCall(now, actor, token, confirmed));
            && (r.Ok? <==> InForce(s, Active, now) && By(actor, User) && confirmed && TokenShape(token) && Holds(s, token))
            && (r.Ok? ==>
                  && Becomes(t, Inactive, Released, OwnerNone)
                  && t == s.(control := t.control, handoff := t.handoff, owner := t.owner, lease := None, timer := None,
                             releasedAt := Some(now), expiredAt := None))
  {
  }

  /** A resume succeeds exactly for the agent after a release, or when nothing was handed
  over, and agent writes are then allowed. */
  lemma ResumeSucceeds(s: State, now: int, actor: Option<Actor>)
    requires Legal(s)
    ensures var (t, r) := Step(s, ResumeCall(now, actor));
            && (r.Ok? <==> (s.handoff == Released || s.handoff == NoHandoff) && By(actor, Agent))
            && (r.Ok? ==>
                  && AgentWriteAllowed(t)
                  && t == (if s.handoff == NoHandoff then s
                           else s.(control := t.control, handoff := t.handoff, owner := t.owner,
                                   releasedAt := None, expiredAt := None)))
  {
  }

  /** A recovery succeeds exactly for a person who confirms it when the handoff has expired. */
  lemma RecoverySucceeds(s: State, now: int, actor: Option<Actor>, confirmed: bool)
    requires Legal(s)
    ensures var (t, r) := Step(s, RecoverCall(now, actor, confirmed));
            && (r.Ok? <==> HasExpired(s, now) && By(actor, User) && confirmed)
            && (r.Ok? ==>
                  && Becomes(t, Inactive, Released, OwnerNone)
                  && t == s.(control := t.control, handoff := t.handoff, owner := t.owner, lease := None, timer := None,
                             releasedAt := Some(now), expiredAt := None))
  {
  }

  /** A deadline that has come ends the handoff: no digest, no timer, and the time is kept. */
  lemma DeadlineEnds(s: State, now: int)
    requires Legal(s) && HasExpired(s, now) && s.handoff != Expired
    ensures var t := Step(s, StatusCall(now)).0;
            && t == Step(s, TimerFires(now, s.nextGeneration)).0
            && Becomes(t, Inactive, Expired, OwnerNone)
            && t == s.(control := t.control, handoff := t.handoff, owner := t.owner, timer := None, releasedAt := None,
                       lease := Some(s.lease.value.(digest := None)), expiredAt := Some(now))
  {
  }

  /** The error of a refused call whose caller is the right one: a person's control in force,
  an expired handoff, or, with everything in order but the moment, an invalid state. */
  lemma RefusalTells(s: State, e: Event)
    requires Legal(s) && Step(s, e).1.Err?
    requires e.HandoffCall? ==> By(e.actor, Agent) && e.reasonValid
    requires e.ResumeCall? ==> By(e.actor, Agent)
    requires e.TakeoverCall? || e.ReleaseCall? || e.RecoverCall? ==> By(e.actor, User) && e.confirmed
    ensures var error := Step(s, e).1.error;
            && (error == ManualTakeoverActive <==>
                  InForce(s, Active, e.now) && (e.HandoffCall? || e.ResumeCall? || e.TakeoverCall?))
            && (error == HandoffExpired <==> HasExpired(s, e.now) && (e.TakeoverCall? || e.ReleaseCall? || e.ResumeCall?))
            && (error == InvalidArgument <==>
                  || (e.HandoffCall? && (s.handoff == NoHandoff || HasExpired(s, e.now)))
                  || (e.TakeoverCall? && InForce(s, Pending, e.now))
                  || (e.ReleaseCall? && InForce(s, Active, e.now)))
  {
  }

  // ----- runs -----

  /** The state after the first n events. */
  function After(s: State, trace: seq<Event>, n: nat): State
    requires n <= |trace|
  {
    if n == 0 then s else Step(After(s, trace, n - 1), trace[n - 1]).0
  }

  predicate Succeeds(s: State, trace: seq<Event>, n: nat)
    requires n < |trace|
  {
    Step(After(s, trace, n), trace[n]).1.Ok?
  }

  lemma {:induction false} RunKeepsLegal(s: State, trace: seq<Event>, n: nat)
    requires n <= |trace| && Legal(s)
    ensures Legal(After(s, trace, n))
  {
    if n > 0 {
      RunKeepsLegal(s, trace, n - 1);
      StepKeepsLegal(After(s, trace, n - 1), trace[n - 1]);
    }
  }

  predicate SucceededHandoff(s: State, trace: seq<Event>, n: nat)
    requires n < |trace|
  {
    trace[n].HandoffCall? && Succeeds(s, trace, n)
  }

  /** A user gave control back: by a confirmed release with the token of the lease in
  force, or by a confirmed recovery of an expired handoff. */
  predicate UserGaveBack(s: State, trace: seq<Event>, n: nat)
    requires n < |trace|
  {
    && Succeeds(s, trace, n)
    && var before := After(s, trace, n);
       match trace[n]
       case ReleaseCall(now, actor, token, confirmed) =>
         && confirmed && actor.GetOr(User) == User
         && before.handoff == Active && !Due(before, now) && Matches(before, token)
       case RecoverCall(now, actor, confirmed) =>
         confirmed && actor.GetOr(User) == User && ExpireIfDue(before, now).handoff == Expired
       case _ => false
  }

  predicate AgentResumed(s: State, trace: seq<Event>, n: nat)
    requires n < |trace|
  {
    && trace[n].ResumeCall? && trace[n].actor.GetOr(Agent) == Agent
    && Succeeds(s, trace, n) && After(s, trace, n).handoff == Released
  }

  /** Only a resume leads from a handoff back to no handoff. */
  lemma OnlyResumeEndsHandoff(s: State, e: Event)
    requires Legal(s) && s.handoff != NoHandoff && Step(s, e).0.handoff == NoHandoff
    ensures e.ResumeCall? && e.actor.GetOr(Agent) == Agent && Step(s, e).1.Ok? && s.handoff == Released
  {
  }

  lemma OnlyUserReleases(s: State, e: Event)
    requires Legal(s) && s.handoff != Released && Step(s, e).0.handoff == Released
    ensures Step(s, e).1.Ok? && (e.ReleaseCall? || e.RecoverCall?)
    ensures e.confirmed && e.actor.GetOr(User) == User
    ensures e.ReleaseCall? ==> s.handoff == Active && !Due(s, e.now) && Matches(s, e.token)
    ensures e.RecoverCall? ==> ExpireIfDue(s, e.now).handoff == Expired
  {
  }

  lemma HandoffLeavesPending(s: State, e: Event)
    requires e.HandoffCall? && Step(s, e).1.Ok?
    ensures Step(s, e).0.handoff == Pending
  {
  }

  /** Between a handoff at i and a released state at n, a user gave control back. */
  lemma {:induction false} ReleasedByUser(s: State, trace: seq<Event>, i: nat, n: nat) returns (j: nat)
    requires Legal(s) && i < n <= |trace|
    requires SucceededHandoff(s, trace, i) && After(s, trace, n).handoff == Released
    ensures i < j < n && UserGaveBack(s, trace, j)
  {
    RunKeepsLegal(s, trace, n - 1);
    HandoffLeavesPending(After(s, trace, i), trace[i]);
    if After(s, trace, n - 1).handoff == Released && i < n - 1 {
      j := ReleasedByUser(s, trace, i, n - 1);
    } else {
      j := n - 1;
      OnlyUserReleases(After(s, trace, j), trace[j]);
    }
  }

  /** The token in force comes from the last successful handoff. */
  lemma {:induction false} TokenOrigin(s: State, trace: seq<Event>, i: nat, n: nat, token: Str) returns (h: nat)
    requires Legal(s) && i < n <= |trace|
    requires SucceededHandoff(s, trace, i) && Matches(After(s, trace, n), token)
    ensures i <= h < n && SucceededHandoff(s, trace, h) && trace[h].token == token
    ensures forall m :: h < m < n ==> !SucceededHandoff(s, trace, m)
  {
    RunKeepsLegal(s, trace, n - 1);
    if SucceededHandoff(s, trace, n - 1) {
      h := n - 1;
    } else {
      TokenKept(After(s, trace, n - 1), trace[n - 1], token);
      h := TokenOrigin(s, trace, i, n - 1, token);
    }
  }

  lemma TokenKept(s: State, e: Event, token: Str)
    requires Legal(s) && Matches(Step(s, e).0, token)
    requires !(e.HandoffCall? && Step(s, e).1.Ok?)
    ensures Matches(s, token)
  {
  }

  /** After a successful handoff, agent writes become allowed again only after a user
  gave control back and then the agent resumed; and a release names the token that the
  latest handoff issued. Timers may fire at any time, for any lease. */
  lemma {:induction false} NoReclaim(s: State, trace: seq<Event>, i: nat, n: nat) returns (j: nat, k: nat)
    requires Legal(s) && i < n <= |trace|
    requires SucceededHandoff(s, trace, i) && AgentWriteAllowed(After(s, trace, n))
    ensures i < j < k < n && UserGaveBack(s, trace, j) && AgentResumed(s, trace, k)
    ensures trace[j].ReleaseCall? ==>
              exists h :: && i <= h < j && SucceededHandoff(s, trace, h) && trace[h].token == trace[j].token
                          && (forall m :: h < m < j ==> !SucceededHandoff(s, trace, m))
  {
    RunKeepsLegal(s, trace, n - 1);
    HandoffLeavesPending(After(s, trace, i), trace[i]);
    if i < n - 1 && After(s, trace, n - 1).handoff == NoHandoff {
      j, k := NoReclaim(s, trace, i, n - 1);
    } else {
      k := n - 1;
      OnlyResumeEndsHandoff(After(s, trace, k), trace[k]);
      j := ReleasedByUser(s, trace, i, k);
      if trace[j].ReleaseCall? {
        var h := TokenOrigin(s, trace, i, j, trace[j].token);
      }
    }
  }

  /** A successful handoff ends agent writes at once, and while it is pending or in user hands
  no event allows them again. */
  lemma HandoffIsAHardStop(s: State, e: Event)
    requires Legal(s)
    requires (e.HandoffCall? && Step(s, e).1.Ok?) || s.handoff == Pending || s.handoff == Active
    ensures !AgentWriteAllowed(Step(s, e).0)
  {
  }

  // ----- the round trip -----

  /** A look at the clock, or a timer, before the deadline. */
  predicate Quiet(e: Event, deadline: int) { (e.StatusCall? || e.TimerFires?) && e.now < deadline }

  lemma QuietChangesNothing(s: State, e: Event, deadline: int)
    requires Legal(s) && Quiet(e, deadline) && (s.lease.Some? ==> deadline <= s.lease.value.expiresAt)
    ensures Step(s, e).0 == s
  {
  }

  lemma {:induction false} QuietStretch(s: State, trace: seq<Event>, a: nat, b: nat, deadline: int)
    requires a <= b <= |trace| && Legal(After(s, trace, a))
    requires After(s, trace, a).lease.Some? ==> deadline <= After(s, trace, a).lease.value.expiresAt
    requires forall x :: a <= x < b ==> Quiet(trace[x], deadline)
    ensures forall x :: a <= x <= b ==> After(s, trace, x) == After(s, trace, a)
  {
    hide Step, Legal, Quiet;
    if a < b {
      QuietStretch(s, trace, a, b - 1, deadline);
      QuietChangesNothing(After(s, trace, a), trace[b - 1], deadline);
    }
  }

  predicate ConfirmedWith(e: Event, token: Str) {
    (e.TakeoverCall? || e.ReleaseCall?) && By(e.actor, User) && e.confirmed && e.token == token
  }

  /** A handoff, a takeover and a release with its token before its deadline, and a resume
  at any time after that: with nothing but clock readings and early timers in between, each
  of them succeeds, the person is in control from the takeover to the release, and the agent
  may write again exactly from the resume on. Nothing else is left of the handoff than that
  its number is used up. */
  lemma RoundTrip(s: State, trace: seq<Event>, i: nat, j: nat, k: nat, m: nat)
    requires Legal(s) && i < j < k < m < |trace| && SucceededHandoff(s, trace, i)
    requires trace[j].TakeoverCall? && ConfirmedWith(trace[j], trace[i].token)
    requires trace[k].ReleaseCall? && ConfirmedWith(trace[k], trace[i].token)
    requires trace[m].ResumeCall? && By(trace[m].actor, Agent)
    requires var deadline := trace[i].now + trace[i].ttlMs.GetOr(After(s, trace, i).ttlMs);
             && trace[j].now < deadline && trace[k].now < deadline
             && forall x :: i < x < m && x != j && x != k ==> Quiet(trace[x], deadline)
    ensures Succeeds(s, trace, j) && Succeeds(s, trace, k) && Succeeds(s, trace, m)
    ensures forall x :: j < x <= k ==> UserControlActive(After(s, trace, x))
    ensures forall x :: i < x <= m ==> !AgentWriteAllowed(After(s, trace, x))
    ensures After(s, trace, m + 1) == After(s, trace, i).(control := AgentControlled, handoff := NoHandoff, owner := OwnerAgent,
              lease := None, timer := None, nextGeneration := After(s, trace, i).nextGeneration + 1,
              releasedAt := None, expiredAt := None)
  {
    hide Step, After, Quiet, Legal, TokenShape;
    var first, deadline := After(s, trace, i), trace[i].now + trace[i].ttlMs.GetOr(After(s, trace, i).ttlMs);
    var e0, e1, e2, e3 := trace[i], trace[j], trace[k], trace[m];
    RunKeepsLegal(s, trace, i);
    HandoffSucceeds(first, e0.now, e0.actor, e0.reasonValid, e0.ttlMs, e0.token);
    Stays(s, trace, i, j, deadline);
    TakeoverSucceeds(After(s, trace, j), e1.now, e1.actor, e1.token, e1.confirmed);
    Stays(s, trace, j, k, deadline);
    ReleaseSucceeds(After(s, trace, k), e2.now, e2.actor, e2.token, e2.confirmed);
    Stays(s, trace, k, m, deadline);
    ResumeSucceeds(After(s, trace, m), e3.now, e3.actor);
    Next(s, trace, m);
    ShapedIsNotEmpty(e0.token);
  }

  lemma Next(s: State, trace: seq<Event>, n: nat)
    requires n < |trace|
    ensures After(s, trace, n + 1) == Step(After(s, trace, n), trace[n]).0
  {
    hide Step;
  }

  lemma ShapedIsNotEmpty(token: Str)
    ensures TokenShape(token) ==> token != []
  {
  }

  /** Nothing changes between event a and event b. */
  lemma Stays(s: State, trace: seq<Event>, a: nat, b: nat, deadline: int)
    requires Legal(s) && a < b < |trace| && (forall x :: a < x < b ==> Quiet(trace[x], deadline))
    requires var t := Step(After(s, trace, a), trace[a]).0; t.lease.Some? ==> deadline <= t.lease.value.expiresAt
    ensures forall x :: a < x <= b ==> After(s, trace, x) == Step(After(s, trace, a), trace[a]).0
    ensures Legal(After(s, trace, b))
  {
    hide Step, Quiet, After, Legal;
    RunKeepsLegal(s, trace, a + 1);
    Next(s, trace, a);
    QuietStretch(s, trace, a + 1, b, deadline);
  }

  // ----- the manager -----

  class ControlLeaseManager {
    const ttlMs: int
    const maxTtlMs: int
    var controlState: Control
    var handoffState: Handoff
    var owner: Owner
    var currentLease: Option<Lease>
    var expiryTimer: Option<nat>
    var nextGeneration: nat
    var releasedAt: Option<int>
    var expiredAt: Option<int>

    function ToState(): State
      reads this
    {
      State(ttlMs, maxTtlMs, controlState, handoffState, owner, currentLease, expiryTimer, nextGeneration,
            releasedAt, expiredAt)
    }

    constructor (ttlMs: int, maxTtlMs: int)
      requires ValidDuration(ttlMs) && ValidDuration(maxTtlMs) && ttlMs <= maxTtlMs
      ensures ToState() == Initial(ttlMs, maxTtlMs) && Legal(ToState())
    {
      this.ttlMs, this.maxTtlMs := ttlMs, maxTtlMs;
      controlState, handoffState, owner := AgentControlled, NoHandoff, OwnerAgent;
      currentLease, expiryTimer, nextGeneration, releasedAt, expiredAt := None, None, 0, None, None;
    }

    method ClearDigest()
      modifies this`currentLease
      ensures currentLease == ZeroDigest(old(currentLease))
    {
      if currentLease.Some? {
        currentLease := Some(currentLease.value.(digest := None));
      }
    }

    /** The timer callback. */
    method ExpireLease(now: int, generation: nat)
      modifies this
      ensures ToState() == Step(old(ToState()), TimerFires(now, generation)).0
    {
      if currentLease.None? || currentLease.value.generation != generation || handoffState == Expired {
        return;
      }
      var remaining := currentLease.value.expiresAt - now;
      if remaining > 0 {
        expiryTimer := Some(generation);
        return;
      }
      expiryTimer := None;
      ClearDigest();
      controlState := Inactive;
      owner := OwnerNone;
      handoffState := Expired;
      expiredAt := Some(now);
      releasedAt := None;
    }

    method ExpireIfDue(now: int) returns (expired: bool)
      modifies this
      ensures ToState() == Step(old(ToState()), StatusCall(now)).0
      ensures expired == Due(old(ToState()), now)
    {
      if currentLease.None? || (handoffState != Pending && handoffState != Active) {
        return false;
      }
      if now < currentLease.value.expiresAt {
        return false;
      }
      ExpireLease(now, currentLease.value.generation);
      expired := true;
    }

    method RequestHandoff(now: int, actor: Option<Actor>, reasonValid: bool, ttl: Option<int>, token: Str)
      returns (r: Outcome)
      modifies this
      ensures (ToState(), r) == Step(old(ToState()), HandoffCall(now, actor, reasonValid, ttl, token))
    {
      var _ := ExpireIfDue(now);
      var caller := actor.GetOr(Agent);
      if caller == UnknownActor { return Err(InvalidArgument); }
      if caller != Agent { return Err(InvalidState); }
      if !reasonValid { return Err(InvalidArgument); }
      if handoffState == Active || controlState == UserControlled { return Err(ManualTakeoverActive); }
      if handoffState == Pending { return Err(InvalidState); }
      if handoffState == Released { return Err(InvalidState); }
      var duration := ttl.GetOr(ttlMs);
      if !ValidDuration(duration) || duration > maxTtlMs { return Err(InvalidArgument); }
      if !TokenShape(token) { return Err(InvalidArgument); }
      nextGeneration := nextGeneration + 1;
      currentLease := Some(Lease(nextGeneration, Some(token), now, now + duration, None));
      controlState := Inactive;
      owner := OwnerNone;
      handoffState := Pending;
      releasedAt := None;
      expiredAt := None;
      expiryTimer := Some(nextGeneration);
      r := Ok(());
    }

    method Takeover(now: int, actor: Option<Actor>, token: Str, confirmed: bool) returns (r: Outcome)
      modifies this
      ensures (ToState(), r) == Step(old(ToState()), TakeoverCall(now, actor, token, confirmed))
    {
      var _ := ExpireIfDue(now);
      var caller := actor.GetOr(User);
      if caller == UnknownActor || !confirmed { return Err(InvalidArgument); }
      if caller != User { return Err(InvalidState); }
      if handoffState == Expired { return Err(HandoffExpired); }
      if handoffState == NoHandoff || handoffState == Released { return Err(InvalidState); }
      if handoffState == Active {
        if Matches(ToState(), token) { return Ok(()); }
        return Err(ManualTakeoverActive);
      }
      if !TokenShape(token) || !Matches(ToState(), token) { return Err(InvalidArgument); }
      currentLease := Some(currentLease.value.(activatedAt := Some(now)));
      controlState := UserControlled;
      owner := OwnerUser;
      handoffState := Active;
      r := Ok(());
    }

    method Release(now: int, actor: Option<Actor>, token: Str, confirmed: bool) returns (r: Outcome)
      modifies this
      ensures (ToState(), r) == Step(old(ToState()), ReleaseCall(now, actor, token, confirmed))
    {
      var _ := ExpireIfDue(now);
      var caller := actor.GetOr(User);
      if caller == UnknownActor || !confirmed { return Err(InvalidArgument); }
      if caller != User { return Err(InvalidState); }
      if handoffState == Expired { return Err(HandoffExpired); }
      if handoffState != Active { return Err(InvalidState); }
      if !TokenShape(token) || !Matches(ToState(), token) { return Err(InvalidArgument); }
      expiryTimer := None;
      ClearDigest();
      currentLease := None;
      controlState := Inactive;
      owner := OwnerNone;
      handoffState := Released;
      releasedAt := Some(now);
      expiredAt := None;
      r := Ok(());
    }

    method Resume(now: int, actor: Option<Actor>) returns (r: Outcome)
      modifies this
      ensures (ToState(), r) == Step(old(ToState()), ResumeCall(now, actor))
    {
      var _ := ExpireIfDue(now);
      var caller := actor.GetOr(Agent);
      if caller == UnknownActor { return Err(InvalidArgument); }
      if caller != Agent { return Err(InvalidState); }
      if handoffState == Active || controlState == UserControlled { return Err(ManualTakeoverActive); }
      if handoffState == Expired { return Err(HandoffExpired); }
      if handoffState == Pending { return Err(InvalidState); }
      if handoffState == NoHandoff {
        if controlState == AgentControlled { return Ok(()); }
        return Err(InvalidState);
      }
      controlState := AgentControlled;
      owner := OwnerAgent;
      handoffState := NoHandoff;
      releasedAt := None;
      expiredAt := None;
      r := Ok(());
    }

    method RecoverExpired(now: int, actor: Option<Actor>, confirmed: bool) returns (r: Outcome)
      modifies this
      ensures (ToState(), r) == Step(old(ToState()), RecoverCall(now, actor, confirmed))
    {
      var _ := ExpireIfDue(now);
      var caller := actor.GetOr(User);
      if caller == UnknownActor || !confirmed { return Err(InvalidArgument); }
      if caller != User { return Err(InvalidState); }
      if handoffState != Expired { return Err(InvalidState); }
      controlState := Inactive;
      owner := OwnerNone;
      handoffState := Released;
      currentLease := None;
      releasedAt := Some(now);
      expiredAt := None;
      r := Ok(());
    }

    /** The guard before every agent write. */
    method AssertAgentControl(now: int) returns (r: Outcome)
      requires Legal(ToState())
      modifies this
      ensures ToState() == Step(old(ToState()), StatusCall(now)).0 && Legal(ToState())
      ensures r.Ok? <==> AgentWriteAllowed(ToState())
      ensures r == match handoffState
                   case NoHandoff => Ok(())
                   case Active => Err(ManualTakeoverActive)
                   case Expired => Err(HandoffExpired)
                   case _ => Err(InvalidState)
    {
      var _ := ExpireIfDue(now);
      StepKeepsLegal(old(ToState()), StatusCall(now));
      if handoffState == Expired { return Err(HandoffExpired); }
      if handoffState == Active || controlState == UserControlled { return Err(ManualTakeoverActive); }
      if handoffState != NoHandoff || controlState != AgentControlled { return Err(InvalidState); }
      r := Ok(());
    }

    /** The guard before a user write: only the holder of the token in force may act. */
    method AssertUserControl(now: int, token: Str) returns (r: Outcome)
      requires Legal(ToState())
      modifies this
      ensures ToState() == Step(old(ToState()), StatusCall(now)).0 && Legal(ToState())
      ensures r.Ok? <==> UserControlActive(ToState()) && TokenShape(token) && Matches(ToState(), token)
    {
      var _ := ExpireIfDue(now);
      StepKeepsLegal(old(ToState()), StatusCall(now));
      if handoffState == Expired { return Err(HandoffExpired); }
      if handoffState != Active || controlState != UserControlled { return Err(InvalidState); }
      if !TokenShape(token) || !Matches(ToState(), token) { return Err(InvalidArgument); }
      r := Ok(());
    }

    method Dispose(now: int)
      modifies this
      ensures ToState() == Step(old(ToState()), DisposeCall(now)).0
    {
      expiryTimer := None;
      ClearDigest();
      currentLease := None;
      controlState := Inactive;
      owner := OwnerNone;
      handoffState := Expired;
      expiredAt := Some(now);
    }
  }
}
