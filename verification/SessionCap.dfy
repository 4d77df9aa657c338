/** The limit on concurrent sessions (src/browser/session-manager.ts). The check of the limit
and the insertion of the session are apart while a start reads its profile; the profile's key
is fixed before. A start has room exactly when it fits beside the most sessions that those
starts can still become. */
module SessionCap {
  import opened Common
  import opened Text
  import opened SessionManager

  // ----- what the starts under way can become -----

  /** The profile keys of the starts that are reading their profile. */
  function Wanted(s: State): set<Str> { set k | k in s.reading && k.Some? :: k.value }

  /** The lock of the profile is free, or held for a session that is gone and about to be
  released. */
  predicate Open(s: State, key: Str) {
    key in s.owners ==>
      s.owners[key] !in s.sessions && (s.owners[key] in s.starting || s.owners[key] in s.stopping)
  }

  function OpenKeys(s: State): set<Str> { set k | k in Wanted(s) && Open(s, k) }

  /** Wanted keys whose lock is not held for ever. */
  function ClaimKeys(s: State): set<Str> { set k | k in Wanted(s) && !Orphaned(s, k) }

  /** The live sessions and those that the starts under way can add to them: starts of one
  profile add one together, starts without a key one each. */
  function Demand(s: State): nat { |s.sessions| + s.reading[None] + |OpenKeys(s)| }

  /** The sessions that the starts under way can be after a shutdown. */
  function Claims(s: State): nat { s.reading[None] + |ClaimKeys(s)| }

  predicate WithinCap(s: State) { Demand(s) <= s.maxSessions && Claims(s) <= s.maxSessions }

  /** Does the event pass the source's own check of the cap? */
  predicate PassesCheck(s: State, e: Event) {
    match e
    case CheckCap(_) => |s.sessions| < s.maxSessions
    case Reserve(key, viaProfile) =>
      !viaProfile && |s.sessions| < s.maxSessions && (key.Some? ==> key.value !in s.owners)
    case _ => false
  }

  /** The sessions that the start adds to the demand: none when one of the same profile is
  counted already. */
  function Added(s: State, e: Event): nat {
    match e
    case CheckCap(Some(key)) => if key !in Wanted(s) && Open(s, key) then 1 else 0
    case Reserve(Some(key), _) => if key in Wanted(s) then 0 else 1
    case _ => 1
  }

  function AddedClaim(s: State, e: Event): nat {
    match e
    case CheckCap(Some(key)) => if key !in Wanted(s) && !Orphaned(s, key) then 1 else 0
    case CheckCap(None) => 1
    case _ => 0
  }

  /** The check that the source would have to make. */
  predicate HasRoom(s: State, e: Event) {
    PassesCheck(s, e) ==> Demand(s) + Added(s, e) <= s.maxSessions && Claims(s) + AddedClaim(s, e) <= s.maxSessions
  }

  // ----- sizes -----

  lemma SubsetSize<T>(a: set<T>, b: set<T>)
    requires a <= b
    ensures |a| <= |b|
  {
    assert b == a + (b - a) && a !! (b - a);
  }

  lemma WithoutOne<T>(a: set<T>, x: T)
    ensures |a - {x}| == if x in a then |a| - 1 else |a|
  {
    if x !in a {
      assert a - {x} == a;
    }
  }

  lemma WithOne<T>(a: set<T>, x: T)
    ensures |a + {x}| == if x in a then |a| else |a| + 1
  {
    if x in a {
      assert a + {x} == a;
    }
  }

  lemma OneSessionLess(m: map<Id, Option<Str>>, id: Id)
    ensures |m - {id}| == if id in m then |m| - 1 else |m|
  {
    assert (m - {id}).Keys == m.Keys - {id};
    assert |m - {id}| == |(m - {id}).Keys| && |m| == |m.Keys|;
  }

  lemma OneSessionMore(m: map<Id, Option<Str>>, id: Id, key: Option<Str>)
    requires id !in m
    ensures |m[id := key]| == |m| + 1
  {
    assert m[id := key].Keys == m.Keys + {id};
    assert |m[id := key]| == |m[id := key].Keys| && |m| == |m.Keys|;
  }

  // ----- whose lock it is -----

  /** A lock is held for a session of that profile, as long as there is a record of it. */
  predicate Keyed(s: State) {
    forall k :: k in s.owners ==>
      && s.owners[k] < s.nextId
      && (s.owners[k] in s.sessions ==> s.sessions[s.owners[k]] == Some(k))
      && (s.owners[k] in s.starting ==> s.starting[s.owners[k]] == Some(k))
  }

  predicate Sound(s: State) { Keyed(s) && Timed(s) && Numbered(s) }

  lemma StepKeepsKeyed(s: State, e: Event)
    requires Keyed(s) && Numbered(s)
    ensures Keyed(Step(s, e).0)
  {
    hide Step, Numbered;
    if e.TimerFires? || e.GetCall? {
      TimerEffect(s, e);
    } else if e.Reserve? {
      hide Keyed, StepReserve;
      ReserveStep(s, e.key, e.viaProfile);
      ReserveKeepsKeyed(s, e.key, e.viaProfile);
    } else {
      hide Keyed;
      OthersKeepKeyed(s, e);
    }
  }

  lemma ReserveKeepsKeyed(s: State, key: Option<Str>, viaProfile: bool)
    requires Keyed(s) && Numbered(s)
    ensures Keyed(StepReserve(s, key, viaProfile).0)
  {
    hide Drop;
  }

  lemma OthersKeepKeyed(s: State, e: Event)
    requires Keyed(s) && !(e.TimerFires? || e.GetCall? || e.Reserve?)
    ensures Keyed(Step(s, e).0)
  {
    hide StepReserve, StepTimer, StepGet;
  }

  lemma StepKeepsSound(s: State, e: Event)
    requires Sound(s)
    ensures Sound(Step(s, e).0)
  {
    hide Step, Keyed, Timed, Numbered;
    StepKeepsKeyed(s, e);
    StepKeepsTimed(s, e);
  }

  // ----- one event -----

  lemma ClaimsShrink(s: State, t: State)
    requires Wanted(t) <= Wanted(s) && t.reading[None] <= s.reading[None]
    requires forall k :: Orphaned(s, k) ==> Orphaned(t, k)
    ensures ClaimKeys(t) <= ClaimKeys(s) && Claims(t) <= Claims(s)
  {
    hide Orphaned, Wanted;
    SubsetSize(ClaimKeys(t), ClaimKeys(s));
  }

  lemma OrphansStay(s: State, e: Event)
    ensures forall k :: Orphaned(s, k) ==> Orphaned(Step(s, e).0, k)
  {
    hide Orphaned, Step;
    forall k | Orphaned(s, k)
      ensures Orphaned(Step(s, e).0, k)
    {
      OrphanStays(s, e, k);
    }
  }

  /** The event frees no wanted profile and starts nothing. */
  predicate Frees(s: State, t: State) {
    exists k :: k in Wanted(t) && Open(t, k) && !(k in Wanted(s) && Open(s, k))
  }

  lemma DemandShrinks(s: State, t: State)
    requires t.reading[None] <= s.reading[None] && !Frees(s, t) && |t.sessions| <= |s.sessions|
    ensures Demand(t) <= Demand(s)
  {
    hide Open, Wanted;
    SubsetSize(OpenKeys(t), OpenKeys(s));
  }

  lemma LessReading(s: State, t: State)
    requires t.reading <= s.reading
    ensures Wanted(t) <= Wanted(s) && t.reading[None] <= s.reading[None]
  {
  }

  lemma TimerFreesNothing(s: State, e: Event)
    requires e.TimerFires? || e.GetCall?
    ensures var t := Step(s, e).0; t.reading == s.reading && !Frees(s, t) && |t.sessions| == |s.sessions|
  {
    hide Step;
    TimerEffect(s, e);
  }

  lemma StoppingFreesNothing(s: State, id: Id)
    ensures var t := BeginStop(s, id); t.reading == s.reading && !Frees(s, t) && t.sessions == s.sessions
  {
  }

  lemma QuietFreesNothing(s: State, e: Event)
    requires e.StartSucceeds? || e.StopBegins? || e.ShutdownBegins? || e.ProfileFails?
    ensures var t := Step(s, e).0; t.reading <= s.reading && !Frees(s, t) && |t.sessions| == |s.sessions|
  {
    hide StepReserve, StepTimer, StepGet, StepStartFails, BeginStop;
    if e.StopBegins? {
      StoppingFreesNothing(s, e.id);
    }
  }

  /** A session that goes frees at most its own profile. */
  lemma EndDemand(s: State, t: State, id: Id)
    requires Keyed(s) && t.reading == s.reading && t.sessions == s.sessions - {id}
    requires forall k :: k in Wanted(t) && Open(t, k) && !Open(s, k) ==>
      id in s.sessions && k in s.owners && s.owners[k] == id
    ensures Demand(t) <= Demand(s)
  {
    hide Open;
    OneSessionLess(s.sessions, id);
    if id in s.sessions && s.sessions[id].Some? {
      var k := s.sessions[id].value;
      assert OpenKeys(t) <= OpenKeys(s) + {k};
      SubsetSize(OpenKeys(t), OpenKeys(s) + {k});
      WithOne(OpenKeys(s), k);
    } else {
      SubsetSize(OpenKeys(t), OpenKeys(s));
    }
  }

  lemma StartFailsDemand(s: State, id: Id)
    requires Keyed(s)
    ensures Demand(StepStartFails(s, id)) <= Demand(s)
  {
    var t := StepStartFails(s, id);
    if id in s.starting {
      EndDemand(s, t, id);
    }
  }

  lemma StopEndsDemand(s: State, id: Id)
    requires Keyed(s)
    ensures Demand(Step(s, StopEnds(id)).0) <= Demand(s)
  {
    hide StepReserve, StepTimer, StepGet, StepStartFails;
    var t := Step(s, StopEnds(id)).0;
    if id in s.stopping {
      EndDemand(s, t, id);
    }
  }

  /** A shutdown leaves no more than the claims. */
  lemma ShutdownDemand(s: State, k: nat)
    requires k < |s.shutdowns|
    ensures Demand(Step(s, ShutdownEnds(k)).0) <= Claims(Step(s, ShutdownEnds(k)).0)
  {
    hide Released, Wanted;
    var t := Step(s, ShutdownEnds(k)).0;
    SubsetSize(OpenKeys(t), ClaimKeys(t));
  }

  /** Inserting a session of a free profile: the profile is no longer open. */
  lemma InsertDemand(s: State, key: Option<Str>)
    requires Keyed(s) && Numbered(s) && (key.Some? ==> key.value !in s.owners)
    ensures var t := Insert(s, key);
            && |t.sessions| == |s.sessions| + 1 && t.reading == s.reading
            && OpenKeys(t) == (if key.Some? then OpenKeys(s) - {key.value} else OpenKeys(s))
            && (key.Some? && key.value in Wanted(s) ==> key.value in OpenKeys(s))
  {
    hide Drop;
    OneSessionMore(s.sessions, s.nextId, key);
  }

  lemma InsertClaims(s: State, key: Option<Str>)
    requires Keyed(s) && (key.Some? ==> key.value !in s.owners)
    ensures ClaimKeys(Insert(s, key)) == ClaimKeys(s)
  {
    hide Drop;
  }

  /** The reading start that goes on to reserve: what it adds to the sessions goes from what
  was counted for it. */
  lemma ReserveReadDemand(s: State, key: Option<Str>)
    requires Keyed(s) && Numbered(s)
    ensures Demand(StepReserve(s, key, true).0) <= Demand(s)
  {
    hide Insert, Open, Keyed, Numbered;
    if key in s.reading {
      var read := s.(reading := s.reading - multiset{key});
      LessReading(s, read);
      ReadingLeaves(s, key);
      if key.None? || key.value !in s.owners {
        KeyedAfterReading(s, read);
        InsertDemand(read, key);
        InsertDemand(s, key);
        if key.Some? {
          assert OpenKeys(read) - {key.value} <= OpenKeys(s) - {key.value};
          SubsetSize(OpenKeys(read) - {key.value}, OpenKeys(s) - {key.value});
          WithoutOne(OpenKeys(s), key.value);
        } else {
          SubsetSize(OpenKeys(read), OpenKeys(s));
        }
      } else {
        SubsetSize(OpenKeys(read), OpenKeys(s));
      }
    }
  }

  lemma ReadingLeaves(s: State, key: Option<Str>)
    requires key in s.reading
    ensures var read := s.(reading := s.reading - multiset{key});
            && OpenKeys(read) <= OpenKeys(s) && |read.sessions| == |s.sessions|
            && read.reading[None] == (if key.None? then s.reading[None] - 1 else s.reading[None])
            && (key.None? ==> OpenKeys(read) == OpenKeys(s))
            && (key.Some? ==> OpenKeys(s) - {key.value} <= OpenKeys(read) && key.value in Wanted(s))
  {
  }

  lemma KeyedAfterReading(s: State, t: State)
    requires Keyed(s) && Numbered(s) && t == s.(reading := t.reading)
    ensures Keyed(t) && Numbered(t)
  {
  }

  /** An event that does not pass the check adds nothing to the demand but what the claims of
  a shutdown hold already, and nothing to the claims. */
  lemma OthersDemandNothing(s: State, e: Event)
    requires Sound(s) && !PassesCheck(s, e)
    ensures var t := Step(s, e).0;
            && t.maxSessions == s.maxSessions && Claims(t) <= Claims(s)
            && (Demand(t) <= Demand(s) || Demand(t) <= Claims(t))
  {
    hide Step, StepReserve, Timed, Frees, Demand, Claims;
    var t := Step(s, e).0;
    SameLimit(s, e);
    ReadingShrinks(s, e);
    LessReading(s, t);
    OrphansStay(s, e);
    ClaimsShrink(s, t);
    if e.TimerFires? || e.GetCall? {
      TimerFreesNothing(s, e);
      DemandShrinks(s, t);
    } else if e.StartSucceeds? || e.StopBegins? || e.ShutdownBegins? || e.ProfileFails? {
      QuietFreesNothing(s, e);
      DemandShrinks(s, t);
    } else if e.StartFails? {
      StartFailsStep(s, e.id);
      StartFailsDemand(s, e.id);
    } else if e.StopEnds? {
      StopEndsDemand(s, e.id);
    } else if e.ShutdownEnds? {
      if e.k < |s.shutdowns| {
        ShutdownDemand(s, e.k);
      } else {
        NoSuchShutdown(s, e.k);
      }
    } else if e.Reserve? && e.viaProfile {
      ReserveStep(s, e.key, e.viaProfile);
      ReserveReadDemand(s, e.key);
    } else {
      Refused(s, e);
    }
  }

  lemma NoSuchShutdown(s: State, k: nat)
    requires k >= |s.shutdowns|
    ensures Step(s, ShutdownEnds(k)).0 == s
  {
  }

  lemma Refused(s: State, e: Event)
    requires !PassesCheck(s, e) && (e.CheckCap? || (e.Reserve? && !e.viaProfile))
    ensures Step(s, e).0 == s
  {
  }

  lemma SameLimit(s: State, e: Event)
    ensures Step(s, e).0.maxSessions == s.maxSessions
  {
    hide Drop, NewestIds, Released;
    if e.TimerFires? || e.GetCall? {
      hide Step;
      TimerEffect(s, e);
    }
  }

  lemma ReadingShrinks(s: State, e: Event)
    requires !PassesCheck(s, e)
    ensures Step(s, e).0.reading <= s.reading
  {
    hide Drop, NewestIds, Released;
    if e.TimerFires? || e.GetCall? {
      hide Step;
      TimerEffect(s, e);
    }
  }

  /** A start that passes the check adds exactly what `Added` and `AddedClaim` say. */
  lemma CheckAdds(s: State, e: Event)
    requires Sound(s) && PassesCheck(s, e)
    ensures var t := Step(s, e).0;
            && t.maxSessions == s.maxSessions
            && Demand(t) == Demand(s) + Added(s, e) && Claims(t) == Claims(s) + AddedClaim(s, e)
  {
    hide Insert, Timed;
    if e.CheckCap? {
      CheckReads(s, e.key);
      if e.key.Some? {
        WithOne(OpenKeys(s), e.key.value);
        WithOne(ClaimKeys(s), e.key.value);
      }
    } else {
      InsertDemand(s, e.key);
      InsertClaims(s, e.key);
      InsertedLimit(s, e.key);
      if e.key.Some? {
        WithoutOne(OpenKeys(s), e.key.value);
      }
    }
  }

  lemma InsertedLimit(s: State, key: Option<Str>)
    ensures Insert(s, key).maxSessions == s.maxSessions
  {
    hide Drop;
  }

  lemma SameLocks(s: State, t: State)
    requires t == s.(reading := t.reading)
    ensures forall k :: Open(t, k) == Open(s, k) && Orphaned(t, k) == Orphaned(s, k)
  {
  }

  lemma OneMoreWanted(s: State, key: Option<Str>)
    ensures var t := s.(reading := s.reading + multiset{key});
            && t.reading[None] == (if key.None? then s.reading[None] + 1 else s.reading[None])
            && Wanted(t) == (if key.Some? then Wanted(s) + {key.value} else Wanted(s))
  {
  }

  lemma CheckReads(s: State, key: Option<Str>)
    ensures var t := s.(reading := s.reading + multiset{key});
            && t.reading[None] == (if key.None? then s.reading[None] + 1 else s.reading[None])
            && OpenKeys(t) == (if key.Some? && Open(s, key.value) then OpenKeys(s) + {key.value} else OpenKeys(s))
            && ClaimKeys(t) == (if key.Some? && !Orphaned(s, key.value) then ClaimKeys(s) + {key.value} else ClaimKeys(s))
  {
    hide Open, Orphaned, Wanted;
    var t := s.(reading := s.reading + multiset{key});
    SameLocks(s, t);
    OneMoreWanted(s, key);
  }

  lemma StepWithin(s: State, e: Event)
    requires Sound(s) && WithinCap(s)
    ensures HasRoom(s, e) <==> WithinCap(Step(s, e).0)
    ensures Step(s, e).0.maxSessions == s.maxSessions
  {
    hide Step, Demand, Claims, Sound, PassesCheck, Added, AddedClaim;
    if PassesCheck(s, e) {
      CheckAdds(s, e);
    } else {
      OthersDemandNothing(s, e);
    }
  }

  // ----- runs -----

  predicate RoomyRun(s: State, trace: seq<Event>) {
    forall m :: 0 <= m < |trace| ==> HasRoom(After(s, trace, m), trace[m])
  }

  lemma {:induction false} RoomyRunKeepsCap(s: State, trace: seq<Event>, n: nat)
    requires n <= |trace| && RoomyRun(s, trace) && Sound(s) && WithinCap(s)
    ensures var t := After(s, trace, n); t.maxSessions == s.maxSessions && WithinCap(t) && Sound(t)
  {
    hide Step, HasRoom, Sound, WithinCap;
    if n > 0 {
      RoomyRunKeepsCap(s, trace, n - 1);
      StepWithin(After(s, trace, n - 1), trace[n - 1]);
      StepKeepsSound(After(s, trace, n - 1), trace[n - 1]);
    }
  }

  lemma {:induction false} AfterPrepend(s: State, e: Event, rest: seq<Event>, n: nat)
    requires n <= |rest|
    ensures After(s, [e] + rest, n + 1) == After(Step(s, e).0, rest, n)
  {
    hide Step;
    AfterOne(s, [e] + rest, n);
    if n > 0 {
      AfterPrepend(s, e, rest, n - 1);
      AfterOne(Step(s, e).0, rest, n - 1);
    }
  }

  /** A run in which every start has room and which ends with at least this many sessions. */
  predicate Reaches(s: State, trace: seq<Event>, count: nat) {
    RoomyRun(s, trace) && |After(s, trace, |trace|).sessions| >= count
  }

  lemma Prepend(s: State, e: Event, rest: seq<Event>, count: nat)
    requires HasRoom(s, e) && Reaches(Step(s, e).0, rest, count)
    ensures Reaches(s, [e] + rest, count)
  {
    hide Step, After, HasRoom;
    var trace := [e] + rest;
    AfterPrepend(s, e, rest, |rest|);
    forall m | 0 <= m < |trace|
      ensures HasRoom(After(s, trace, m), trace[m])
    {
      if m == 0 {
        AfterOne(s, trace, 0);
      } else {
        AfterPrepend(s, e, rest, m - 1);
      }
    }
  }

  lemma NoEvents(s: State)
    ensures Reaches(s, [], |s.sessions|)
  {
  }

  lemma FewerSuffice(s: State, trace: seq<Event>, more: nat, count: nat)
    requires Reaches(s, trace, more) && count <= more
    ensures Reaches(s, trace, count)
  {
  }

  // ----- the demand is met -----

  /** What the next of the starts under way can do without a session going: reserve its
  profile, or first let go the lock of a session that is gone. */
  function Onward(s: State, key: Str): Event {
    if key !in s.owners then Reserve(Some(key), true)
    else if s.owners[key] in s.stopping then StopEnds(s.owners[key])
    else StartFails(s.owners[key])
  }

  lemma OnwardKeepsDemand(s: State, key: Str)
    requires Sound(s) && key in OpenKeys(s)
    ensures var t := Step(s, Onward(s, key)).0;
            && Demand(t) >= Demand(s)
            && (if key in s.owners then t.reading == s.reading && |t.owners| < |s.owners| else |t.reading| < |s.reading|)
  {
    hide Timed, Numbered, Keyed;
    if key !in s.owners {
      hide Step, StepReserve;
      ReserveStep(s, Some(key), true);
      ReserveMeetsDemand(s, key);
    } else if s.owners[key] in s.stopping {
      StopLetsGo(s, key);
    } else {
      hide Step, StepStartFails;
      StartFailsStep(s, s.owners[key]);
      StartLetsGo(s, key);
    }
  }

  lemma ReserveMeetsDemand(s: State, key: Str)
    requires Keyed(s) && Numbered(s) && key in OpenKeys(s) && key !in s.owners
    ensures var t := StepReserve(s, Some(key), true).0; Demand(t) >= Demand(s) && |t.reading| < |s.reading|
  {
    hide Insert, Open, Keyed, Numbered;
    var read := s.(reading := s.reading - multiset{Some(key)});
    ReadingLeaves(s, Some(key));
    KeyedAfterReading(s, read);
    InsertDemand(read, Some(key));
    assert OpenKeys(s) - {key} <= OpenKeys(read) - {key};
    SubsetSize(OpenKeys(s) - {key}, OpenKeys(read) - {key});
    WithoutOne(OpenKeys(s), key);
  }

  lemma FewerOwners(a: map<Str, Id>, b: map<Str, Id>, key: Str)
    requires a.Keys <= b.Keys && key in b && key !in a
    ensures |a| < |b|
  {
    assert a.Keys <= b.Keys - {key};
    SubsetSize(a.Keys, b.Keys - {key});
    assert |a| == |a.Keys| && |b| == |b.Keys|;
  }

  lemma StopLetsGo(s: State, key: Str)
    requires key in OpenKeys(s) && key in s.owners && s.owners[key] in s.stopping
    ensures var t := Step(s, StopEnds(s.owners[key])).0;
            Demand(t) >= Demand(s) && t.reading == s.reading && |t.owners| < |s.owners|
  {
    hide StepReserve, StepTimer, StepGet, StepStartFails;
    var id := s.owners[key];
    var t := Step(s, StopEnds(id)).0;
    OneSessionLess(s.sessions, id);
    FewerOwners(t.owners, s.owners, key);
    assert OpenKeys(s) <= OpenKeys(t);
    SubsetSize(OpenKeys(s), OpenKeys(t));
  }

  lemma StartLetsGo(s: State, key: Str)
    requires Keyed(s) && key in OpenKeys(s) && key in s.owners && s.owners[key] in s.starting
    ensures var t := StepStartFails(s, s.owners[key]);
            Demand(t) >= Demand(s) && t.reading == s.reading && |t.owners| < |s.owners|
  {
    var id := s.owners[key];
    var t := StepStartFails(s, id);
    OneSessionLess(s.sessions, id);
    FewerOwners(t.owners, s.owners, key);
    assert OpenKeys(s) <= OpenKeys(t);
    SubsetSize(OpenKeys(s), OpenKeys(t));
  }

  lemma KeylessKeepsDemand(s: State)
    requires Sound(s) && None in s.reading
    ensures var t := Step(s, Reserve(None, true)).0; Demand(t) >= Demand(s) && |t.reading| < |s.reading|
  {
    hide Insert, Open, Keyed, Numbered, Timed, Step;
    ReserveStep(s, None, true);
    var read := s.(reading := s.reading - multiset{None});
    ReadingLeaves(s, None);
    KeyedAfterReading(s, read);
    InsertDemand(read, None);
  }

  /** The starts under way can become as many sessions as the demand says. */
  lemma {:induction false} DemandIsMet(s: State) returns (trace: seq<Event>)
    requires Sound(s)
    ensures Reaches(s, trace, Demand(s))
    decreases |s.reading|, |s.owners|
  {
    hide Step, Demand, Sound, Reaches, OpenKeys;
    if None in s.reading {
      var e := Reserve(None, true);
      KeylessKeepsDemand(s);
      StepKeepsSound(s, e);
      var rest := DemandIsMet(Step(s, e).0);
      trace := [e] + rest;
      FewerSuffice(Step(s, e).0, rest, Demand(Step(s, e).0), Demand(s));
      Prepend(s, e, rest, Demand(s));
    } else if key :| key in OpenKeys(s) {
      var e := Onward(s, key);
      OnwardKeepsDemand(s, key);
      StepKeepsSound(s, e);
      var rest := DemandIsMet(Step(s, e).0);
      trace := [e] + rest;
      FewerSuffice(Step(s, e).0, rest, Demand(Step(s, e).0), Demand(s));
      Prepend(s, e, rest, Demand(s));
    } else {
      trace := [];
      NoEvents(s);
      NothingWanted(s);
    }
  }

  lemma NothingWanted(s: State)
    requires None !in s.reading && forall k :: k !in OpenKeys(s)
    ensures Demand(s) == |s.sessions|
  {
    assert OpenKeys(s) == {};
  }

  // ----- the claims are met -----

  /** Every live session is one that a shutdown under way has found. */
  predicate AllFound(s: State) {
    forall id :: id in s.sessions ==> exists k :: 0 <= k < |s.shutdowns| && id in s.shutdowns[k]
  }

  lemma ShutdownKeepsClaims(s: State)
    requires AllFound(s) && s.shutdowns != []
    ensures var t := Step(s, ShutdownEnds(0)).0;
            AllFound(t) && Claims(t) >= Claims(s) && t.shutdowns == s.shutdowns[1..]
  {
    var t := Step(s, ShutdownEnds(0)).0;
    forall k | k in ClaimKeys(s)
      ensures k in ClaimKeys(t)
    {
      ClaimSurvives(s, k);
    }
    SubsetSize(ClaimKeys(s), ClaimKeys(t));
  }

  lemma ClaimSurvives(s: State, key: Str)
    requires AllFound(s) && s.shutdowns != [] && !Orphaned(s, key)
    ensures !Orphaned(Step(s, ShutdownEnds(0)).0, key)
  {
    var t := Step(s, ShutdownEnds(0)).0;
    if Orphaned(t, key) {
      assert key in s.owners && t.owners[key] == s.owners[key];
      assert forall k :: 0 < k < |s.shutdowns| ==> t.shutdowns[k - 1] == s.shutdowns[k];
    }
  }

  lemma FoundKeepsClaim(s: State, key: Str)
    requires !Orphaned(s, key)
    ensures !Orphaned(Step(s, ShutdownBegins).0, key)
  {
    var t := Step(s, ShutdownBegins).0;
    assert t.shutdowns[|s.shutdowns|] == s.sessions.Keys;
    assert forall j :: 0 <= j < |s.shutdowns| ==> t.shutdowns[j] == s.shutdowns[j];
  }

  lemma ShutdownFindsAll(s: State)
    ensures var t := Step(s, ShutdownBegins).0; AllFound(t) && Claims(t) >= Claims(s)
  {
    var t := Step(s, ShutdownBegins).0;
    assert t.shutdowns[|s.shutdowns|] == s.sessions.Keys;
    forall k | k in ClaimKeys(s)
      ensures k in ClaimKeys(t)
    {
      FoundKeepsClaim(s, k);
    }
    SubsetSize(ClaimKeys(s), ClaimKeys(t));
  }

  lemma ClaimsAreDemanded(s: State)
    requires AllFound(s) && s.shutdowns == [] && Keyed(s)
    ensures Demand(s) >= Claims(s)
  {
    assert ClaimKeys(s) <= OpenKeys(s);
    SubsetSize(ClaimKeys(s), OpenKeys(s));
  }

  lemma {:induction false} WipedOut(s: State) returns (trace: seq<Event>)
    requires Sound(s) && AllFound(s)
    ensures Reaches(s, trace, Claims(s))
    decreases |s.shutdowns|
  {
    hide Step, Demand, Claims, Sound, Reaches, AllFound;
    if s.shutdowns == [] {
      trace := DemandIsMet(s);
      SoundIsKeyed(s);
      ClaimsAreDemanded(s);
      FewerSuffice(s, trace, Demand(s), Claims(s));
    } else {
      var e := ShutdownEnds(0);
      ShutdownKeepsClaims(s);
      StepKeepsSound(s, e);
      var rest := WipedOut(Step(s, e).0);
      trace := [e] + rest;
      FewerSuffice(Step(s, e).0, rest, Claims(Step(s, e).0), Claims(s));
      Prepend(s, e, rest, Claims(s));
    }
  }

  lemma SoundIsKeyed(s: State)
    requires Sound(s)
    ensures Keyed(s)
  {
  }

  /** After a shutdown the starts under way can become as many sessions as the claims say. */
  lemma ClaimsAreMet(s: State) returns (trace: seq<Event>)
    requires Sound(s)
    ensures Reaches(s, trace, Claims(s))
  {
    hide Step, Claims, Sound, Reaches, AllFound;
    var e := ShutdownBegins;
    ShutdownFindsAll(s);
    StepKeepsSound(s, e);
    var rest := WipedOut(Step(s, e).0);
    trace := [e] + rest;
    FewerSuffice(Step(s, e).0, rest, Claims(Step(s, e).0), Claims(s));
    Prepend(s, e, rest, Claims(s));
  }

  // ----- the check is exact -----

  /** Does no continuation in which every further start has room exceed the cap? */
  ghost predicate CapIsSafe(s: State) {
    forall trace :: RoomyRun(s, trace) ==> |After(s, trace, |trace|).sessions| <= s.maxSessions
  }

  lemma CapIsSafeWithin(s: State)
    requires Sound(s)
    ensures CapIsSafe(s) <==> WithinCap(s)
  {
    hide After, RoomyRun, Sound, Claims;
    if WithinCap(s) {
      forall trace | RoomyRun(s, trace)
        ensures |After(s, trace, |trace|).sessions| <= s.maxSessions
      {
        RoomyRunKeepsCap(s, trace, |trace|);
      }
    } else if Demand(s) > s.maxSessions {
      var trace := DemandIsMet(s);
    } else {
      var trace := ClaimsAreMet(s);
    }
  }

  /** At every point of a run in which every start so far had room, the next event has room
  exactly when the cap is safe after it. */
  lemma CapIsExact(maxSessions: nat, ttlMs: nat, maxExpired: nat, trace: seq<Event>, e: Event)
    requires RoomyRun(Fresh(maxSessions, ttlMs, maxExpired), trace)
    ensures var s := After(Fresh(maxSessions, ttlMs, maxExpired), trace, |trace|);
            && |s.sessions| <= maxSessions
            && (HasRoom(s, e) <==> CapIsSafe(Step(s, e).0))
  {
    hide Step, After, RoomyRun, CapIsSafe, Sound, HasRoom, Claims;
    var start := Fresh(maxSessions, ttlMs, maxExpired);
    FreshHasRoom(maxSessions, ttlMs, maxExpired);
    RoomyRunKeepsCap(start, trace, |trace|);
    var s := After(start, trace, |trace|);
    StepWithin(s, e);
    StepKeepsSound(s, e);
    CapIsSafeWithin(Step(s, e).0);
  }

  lemma FreshHasRoom(maxSessions: nat, ttlMs: nat, maxExpired: nat)
    ensures var s := Fresh(maxSessions, ttlMs, maxExpired); Sound(s) && WithinCap(s)
  {
    var s := Fresh(maxSessions, ttlMs, maxExpired);
    assert OpenKeys(s) == {} && ClaimKeys(s) == {};
  }

  // ----- as long as no shutdown has left a lock behind -----

  function KeysOf(m: map<Id, Option<Str>>): set<Str> { set id | id in m && m[id].Some? :: m[id].value }

  lemma {:induction false} FewKeys(m: map<Id, Option<Str>>)
    ensures |KeysOf(m)| <= |m|
    decreases |m|
  {
    if id :| id in m {
      var rest := m - {id};
      OneSessionLess(m, id);
      FewKeys(rest);
      var key := m[id];
      if key.Some? {
        assert KeysOf(m) <= KeysOf(rest) + {key.value} by {
          assert forall i :: i in m && i != id ==> i in rest && rest[i] == m[i];
        }
        SubsetSize(KeysOf(m), KeysOf(rest) + {key.value});
        WithOne(KeysOf(rest), key.value);
      } else {
        assert KeysOf(m) <= KeysOf(rest) by {
          assert forall i :: i in m && i != id ==> i in rest && rest[i] == m[i];
        }
        SubsetSize(KeysOf(m), KeysOf(rest));
      }
    } else {
      assert KeysOf(m) == {};
    }
  }

  /** While every lock belongs to a live session, the cap is safe exactly when it has room for
  the live sessions, the reading starts without a key, and the profiles that reading starts
  want and nobody owns, each counted once. */
  lemma SafeWithoutLeaks(s: State)
    requires Sound(s) && NoLeak(s)
    ensures CapIsSafe(s) <==> |s.sessions| + s.reading[None] + |Wanted(s) - s.owners.Keys| <= s.maxSessions
  {
    hide CapIsSafe, Timed, Numbered;
    CapIsSafeWithin(s);
    assert OpenKeys(s) == Wanted(s) - s.owners.Keys;
    assert ClaimKeys(s) <= OpenKeys(s) + KeysOf(s.sessions);
    SubsetSize(ClaimKeys(s), OpenKeys(s) + KeysOf(s.sessions));
    UnionSize(OpenKeys(s), KeysOf(s.sessions));
    FewKeys(s.sessions);
  }

  lemma UnionSize<T>(a: set<T>, b: set<T>)
    ensures |a + b| <= |a| + |b|
  {
    assert a + b == a + (b - a) && a !! (b - a);
    SubsetSize(b - a, b);
  }

  // ----- two starts at once -----

  lemma TwoChecks(ttlMs: nat, maxExpired: nat, a: Str, b: Str)
    ensures After(Fresh(1, ttlMs, maxExpired), [CheckCap(Some(a)), CheckCap(Some(b))], 2) ==
            Fresh(1, ttlMs, maxExpired).(reading := multiset{Some(a), Some(b)})
  {
    hide After;
    var s, trace := Fresh(1, ttlMs, maxExpired), [CheckCap(Some(a)), CheckCap(Some(b))];
    AfterOne(s, trace, 0);
    AfterOne(s, trace, 1);
    assert After(s, trace, 1) == s.(reading := multiset{Some(a)});
  }

  /** Two starts can pass the check on a manager with one slot; then the cap is safe exactly
  when they are of one profile, because the second will find it in use. */
  lemma TwoStartsAtOnce(ttlMs: nat, maxExpired: nat, a: Str, b: Str)
    ensures CapIsSafe(After(Fresh(1, ttlMs, maxExpired), [CheckCap(Some(a)), CheckCap(Some(b))], 2)) <==> a == b
  {
    hide After, CapIsSafe;
    var s := Fresh(1, ttlMs, maxExpired).(reading := multiset{Some(a), Some(b)});
    TwoChecks(ttlMs, maxExpired, a, b);
    SafeWithoutLeaks(s);
    assert Wanted(s) == {a, b};
    if a != b {
      assert |{a, b}| == 2;
    } else {
      assert {a, b} == {a};
    }
  }

  lemma Exceeding(s: State) returns (trace: seq<Event>)
    requires !CapIsSafe(s)
    ensures |After(s, trace, |trace|).sessions| > s.maxSessions
  {
    hide After;
    trace :| RoomyRun(s, trace) && |After(s, trace, |trace|).sessions| > s.maxSessions;
  }

  /** Two starts of different profiles end with two sessions. */
  lemma CapCanBeExceeded(ttlMs: nat, maxExpired: nat, a: Str, b: Str) returns (trace: seq<Event>)
    requires a != b
    ensures |After(Fresh(1, ttlMs, maxExpired), trace, |trace|).sessions| > 1
  {
    hide After, Step, CapIsSafe;
    var s := Fresh(1, ttlMs, maxExpired);
    var checks := [CheckCap(Some(a)), CheckCap(Some(b))];
    TwoChecks(ttlMs, maxExpired, a, b);
    TwoStartsAtOnce(ttlMs, maxExpired, a, b);
    var two := After(s, checks, 2);
    var rest := Exceeding(two);
    trace := [checks[0]] + ([checks[1]] + rest);
    AfterOne(s, checks, 0);
    AfterOne(s, checks, 1);
    AfterPrepend(s, checks[0], [checks[1]] + rest, |rest| + 1);
    AfterPrepend(Step(s, checks[0]).0, checks[1], rest, |rest|);
  }
}
