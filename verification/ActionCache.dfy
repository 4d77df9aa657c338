/** Idempotent writes: the caches by action id of a session (src/browser/browser-session.ts,
runIdempotentWrite) and of a workflow executor (src/browser/workflow.ts, run). A run of the
operation stands for its promise and is numbered; replaying a promise is giving its number. */
module ActionCache {
  import opened Common
  import opened Text
  import opened Json
  import Stable = StableJson
  import opened Retention
  import WorkflowSteps

  const TTL_MS := 10 * 60_000
  const MAX_ENTRIES := 256

  const LIMITS := Limits(MAX_ENTRIES, 0)

  /** SHA-256 of the canonical text of a request, as an injective function of it. */
  datatype Digest = Digest(of: Str)

  datatype Cached = Cached(fingerprint: Digest, run: nat)

  type Log = seq<Entry<Cached>>

  datatype Reply = Ran(run: nat) | Replayed(run: nat) | Conflict | InvalidActionId | UserControlled

  function Fingerprint(request: Value): Digest { Digest(Stable.StableJson(request)) }

  /** The session's variant leaves out the fields that are undefined. */
  function SessionFingerprint(request: Value): Digest { Digest(Stable.StableJson(Prune(request))) }

  /** Different requests have different fingerprints. */
  lemma FingerprintIsCanonical(a: Value, b: Value)
    requires WellFormedValue(a) && WellFormedValue(b)
    ensures Fingerprint(a) == Fingerprint(b) <==> Stable.Equivalent(a, b)
    ensures SessionFingerprint(a) == SessionFingerprint(b) <==> Stable.Equivalent(Prune(a), Prune(b))
  {
    hide Stable.StableJson, Stable.Equivalent, Prune;
    Stable.StableJsonIsCanonical(a, b);
    PruneIsWellFormed(a);
    PruneIsWellFormed(b);
    Stable.StableJsonIsCanonical(Prune(a), Prune(b));
  }

  lemma {:induction false} PruneIsWellFormed(v: Value)
    requires WellFormedValue(v)
    ensures WellFormedValue(Prune(v))
    decreases v, 1
  {
    match v
    case Array(items) => PruneItemsWellFormed(items);
    case Object(ms) => PruneMembersWellFormed(ms);
    case _ =>
  }

  lemma {:induction false} PruneItemsWellFormed(items: seq<Value>)
    requires forall i :: 0 <= i < |items| ==> WellFormedValue(items[i])
    ensures forall i :: 0 <= i < |PruneItems(items)| ==> WellFormedValue(PruneItems(items)[i])
    decreases items, 0
  {
    if items != [] {
      PruneIsWellFormed(items[0]);
      PruneItemsWellFormed(items[1..]);
    }
  }

  lemma {:induction false} PruneMembersWellFormed(ms: seq<(Str, Value)>)
    requires DistinctKeys(ms) && forall i :: 0 <= i < |ms| ==> WellFormedValue(ms[i].1)
    ensures var r := PruneMembers(ms);
            && DistinctKeys(r) && (forall i :: 0 <= i < |r| ==> WellFormedValue(r[i].1))
            && (forall i :: 0 <= i < |r| ==> exists j :: 0 <= j < |ms| && ms[j].0 == r[i].0)
    decreases ms, 0
  {
    if ms != [] {
      assert ms[0].1 < ms[0];
      var rest := PruneMembers(ms[1..]);
      PruneMembersWellFormed(ms[1..]);
      forall i | 0 <= i < |rest|
        ensures rest[i].0 != ms[0].0 && exists j :: 0 <= j < |ms| && ms[j].0 == rest[i].0
      {
        var j :| 0 <= j < |ms[1..]| && ms[1..][j].0 == rest[i].0;
        assert ms[j + 1].0 == rest[i].0;
      }
      if !ms[0].1.Undefined? {
        PruneIsWellFormed(ms[0].1);
      }
    }
  }

  // ----- one attempt -----

  datatype Attempt = Attempt(id: Str, fingerprint: Digest, now: int)

  function NewEntry(a: Attempt, run: nat): Entry<Cached> {
    Entry(a.id, a.now + TTL_MS, 0, Cached(a.fingerprint, run))
  }

  /** What an attempt with an action id does, given everything that was ever inserted and
  the number of runs so far. */
  function Attempted(log: Log, a: Attempt, runs: nat): (Log, Reply) {
    var retained := Retained(log, LIMITS, a.now);
    match Find(retained, a.id)
    case None => (log + [NewEntry(a, runs)], Ran(runs))
    case Some(i) =>
      var cached := retained[i].value;
      (log, if cached.fingerprint == a.fingerprint then Replayed(cached.run) else Conflict)
  }

  predicate OrderedUntil(log: Log, clock: int) {
    Ordered(log) && forall i :: 0 <= i < |log| ==> log[i].expiresAt <= clock + TTL_MS && log[i].bytes == 0
  }

  class Cache {
    var entries: Log            // a map by action id, in insertion order
    var runs: nat               // operations started so far
    ghost var log: Log          // every entry ever inserted
    ghost var start: nat
    ghost var clock: int

    ghost predicate Valid()
      reads this
    {
      && EndOfLog(entries, log, start, LIMITS, clock)
      && OrderedUntil(log, clock)
    }

    constructor ()
      ensures Valid() && entries == [] && log == [] && runs == 0
    {
      entries, runs, log, start, clock := [], 0, [], 0, 0;
    }

    /** Runs an operation at most once for each retained action id. */
    method Run(actionId: Option<Str>, fingerprint: Digest, userControlled: bool, now: int) returns (r: Reply)
      requires Valid() && clock <= now
      modifies this
      ensures Valid()
      ensures if userControlled then r == UserControlled && entries == old(entries) && log == old(log) && runs == old(runs)
              else if actionId.None? then r == Ran(old(runs)) && runs == old(runs) + 1 && entries == old(entries) && log == old(log)
              else if !WorkflowSteps.ActionIdShape(actionId.value) then
                r == InvalidActionId && entries == old(entries) && log == old(log) && runs == old(runs)
              else
                && clock == now && entries == Retained(log, LIMITS, now)
                && (log, r) == Attempted(old(log), Attempt(actionId.value, fingerprint, now), old(runs))
                && runs == old(runs) + (if r.Ran? then 1 else 0)
    {
      hide Retained, EndOfLog, OrderedUntil, Evicted, Find;
      if userControlled {
        return UserControlled;
      }
      if actionId.None? {
        r := Ran(runs);
        runs := runs + 1;
        return;
      }
      if !WorkflowSteps.ActionIdShape(actionId.value) {
        return InvalidActionId;
      }
      Prune(now);
      match Find(entries, actionId.value)
      case Some(i) =>
        var cached := entries[i].value;
        r := if cached.fingerprint == fingerprint then Replayed(cached.run) else Conflict;
      case None =>
        var entry := NewEntry(Attempt(actionId.value, fingerprint, now), runs);
        Insert(entry);
        r := Ran(runs);
        runs := runs + 1;
    }

    method Prune(now: int)
      requires Valid() && clock <= now
      modifies this
      ensures Valid() && clock == now && log == old(log) && runs == old(runs)
      ensures entries == Retained(log, LIMITS, now) && Live(entries, now)
    {
      hide EndOfLog, Retained, Ordered;
      EndOfLogLater(entries, log, start, LIMITS, clock, now);
      clock := now;
      var i := 0;
      while i < |entries|
        invariant Valid() && clock == now && log == old(log) && runs == old(runs)
        invariant i <= |entries| && forall k :: 0 <= k < i ==> entries[k].expiresAt > now
        decreases |entries| - i
      {
        if entries[i].expiresAt <= now {
          EntriesAreEnd(entries, log, start, LIMITS, now);
          OrderedSuffix(log, start);
          FirstExpiresFirst(entries, i);
          DropExpired(entries, log, start, LIMITS, now);
          assert entries[..0] + entries[1..] == entries[1..];
          entries := entries[..i] + entries[i + 1..];
          start := start + 1;
        } else {
          i := i + 1;
        }
      }
      EndOfLogIsRetained(entries, log, start, LIMITS, now);
    }

    method Insert(entry: Entry<Cached>)
      requires Valid() && Live(entries, clock) && entry.expiresAt == clock + TTL_MS && entry.bytes == 0
      modifies `entries, `log, `start
      ensures Valid() && log == old(log) + [entry] && entries == Retained(log, LIMITS, clock)
    {
      hide EndOfLog, Retained, Evicted, Ordered;
      ghost var kept := Evicted(entries, entry, LIMITS);
      Alone(entry);
      EntriesAreEnd(entries, log, start, LIMITS, clock);
      NoRoomWithMore(log, start, LIMITS, clock, entry);
      InsertKeepsEnd(entries, log, start, LIMITS, clock, entry);
      InsertedIsRetained(entries, log, start, LIMITS, clock, entry);
      EvictedByCount(entries, log, start, clock, entry);
      AppendKeepsOrder(log, entry, clock);
      entries := entries + [entry];
      while |entries| > MAX_ENTRIES
        invariant entries == (if |entries| > MAX_ENTRIES then old(entries) + [entry] else kept + [entry])
        decreases |entries|
        modifies `entries
      {
        entries := entries[1..];
      }
      start := |log| - |kept|;
      log := log + [entry];
    }
  }

  lemma Alone(entry: Entry<Cached>)
    requires entry.bytes == 0
    ensures RoomFor([], entry, LIMITS)
  {
  }

  lemma AppendKeepsOrder(log: Log, entry: Entry<Cached>, clock: int)
    requires OrderedUntil(log, clock) && entry.expiresAt == clock + TTL_MS && entry.bytes == 0
    ensures OrderedUntil(log + [entry], clock)
  {
  }

  lemma {:induction false} NoBytes(s: Log)
    requires forall i :: 0 <= i < |s| ==> s[i].bytes == 0
    ensures Bytes(s) == 0
  {
    if s != [] {
      NoBytes(s[1..]);
    }
  }

  /** Only the count can evict, and at most one entry at a time. */
  lemma EvictedByCount(entries: Log, log: Log, start: nat, clock: int, entry: Entry<Cached>)
    requires EndOfLog(entries, log, start, LIMITS, clock) && OrderedUntil(log, clock) && entry.bytes == 0
    ensures Evicted(entries, entry, LIMITS) == if |entries| < MAX_ENTRIES then entries else entries[1..]
    ensures |entries| <= MAX_ENTRIES
  {
    NoBytes(entries);
    if |entries| == MAX_ENTRIES {
      NoBytes(entries[1..]);
      assert RoomFor(entries[1..], entry, LIMITS);
    }
  }

  // ----- at most once, over every run -----

  datatype Event = WithId(attempt: Attempt) | Plain

  datatype State = State(log: Log, runs: nat)

  function Step(s: State, e: Event): (State, Reply) {
    match e
    case Plain => (s.(runs := s.runs + 1), Ran(s.runs))
    case WithId(a) =>
      var (log, reply) := Attempted(s.log, a, s.runs);
      (State(log, s.runs + (if reply.Ran? then 1 else 0)), reply)
  }

  function After(events: seq<Event>, n: nat): State
    requires n <= |events|
  {
    if n == 0 then State([], 0) else Step(After(events, n - 1), events[n - 1]).0
  }

  function ReplyTo(events: seq<Event>, i: nat): Reply
    requires i < |events|
  {
    Step(After(events, i), events[i]).1
  }

  /** The clock never goes back. */
  predicate Timed(events: seq<Event>) {
    forall i, j :: 0 <= i < j < |events| && events[i].WithId? && events[j].WithId? ==>
      events[i].attempt.now <= events[j].attempt.now
  }

  /** Exactly the entries that are young enough and among the newest 256 are retained. */
  lemma RetainedIff(log: Log, clock: int, now: int, k: nat)
    requires OrderedUntil(log, clock) && k < |log|
    ensures |Retained(log, LIMITS, now)| <= |log|
    ensures k >= |log| - |Retained(log, LIMITS, now)| <==> log[k].expiresAt > now && |log| - k <= MAX_ENTRIES
  {
    RetainedIsLongest(log, LIMITS, now);
    var r := Retained(log, LIMITS, now);
    NoBytes(log[k..]);
    if k >= |log| - |r| {
      assert r[k - (|log| - |r|)] == log[k];
    }
  }

  /** An id is inserted again only after its last entry has expired or has been pushed out
  by 256 newer ones. */
  predicate Spaced(log: Log) {
    forall p, q :: 0 <= p < q < |log| && log[p].id == log[q].id ==>
      q - p >= MAX_ENTRIES || log[p].expiresAt <= log[q].expiresAt - TTL_MS
  }

  lemma AttemptKeepsSpaced(log: Log, a: Attempt, runs: nat, clock: int)
    requires OrderedUntil(log, clock) && Spaced(log) && clock <= a.now
    ensures var next := Attempted(log, a, runs).0;
            OrderedUntil(next, a.now) && Spaced(next)
  {
    hide Retained;
    var retained := Retained(log, LIMITS, a.now);
    if Find(retained, a.id).None? {
      RetainedIsLongest(log, LIMITS, a.now);
      var gone := |log| - |retained|;
      assert forall p :: gone <= p < |log| ==> log[p] == retained[p - gone];
      forall p | 0 <= p < |log| && log[p].id == a.id
        ensures |log| - p >= MAX_ENTRIES || log[p].expiresAt <= a.now
      {
        RetainedIff(log, clock, a.now, p);
      }
    }
  }

  lemma {:induction false} RunIsSpaced(events: seq<Event>, n: nat, now: int)
    requires Timed(events) && n <= |events|
    requires forall i :: 0 <= i < n && events[i].WithId? ==> events[i].attempt.now <= now
    ensures OrderedUntil(After(events, n).log, now) && Spaced(After(events, n).log)
  {
    hide Attempted, Spaced, OrderedUntil;
    if n == 0 {
      NothingSpaced(now);
    } else if events[n - 1].WithId? {
      var a := events[n - 1].attempt;
      RunIsSpaced(events, n - 1, a.now);
      AttemptKeepsSpaced(After(events, n - 1).log, a, After(events, n - 1).runs, a.now);
      LaterOrdered(After(events, n).log, a.now, now);
    } else {
      RunIsSpaced(events, n - 1, now);
    }
  }

  lemma NothingSpaced(now: int)
    ensures OrderedUntil([], now) && Spaced([])
  {
  }

  lemma LaterOrdered(log: Log, clock: int, now: int)
    requires OrderedUntil(log, clock) && clock <= now
    ensures OrderedUntil(log, now)
  {
  }

  lemma {:induction false} LogGrows(events: seq<Event>, i: nat, j: nat)
    requires i <= j <= |events|
    ensures After(events, i).log <= After(events, j).log
  {
    if i < j {
      LogGrows(events, i, j - 1);
    }
  }

  /** The id of an entry of the retained suffix leads to the entry at index p of the log. */
  lemma FindsOnly(log: Log, a: Attempt, p: nat)
    requires OrderedUntil(log, a.now) && Spaced(log) && p < |log| && log[p].id == a.id
    requires log[p].expiresAt > a.now && |log| - p <= MAX_ENTRIES
    ensures var retained := Retained(log, LIMITS, a.now);
            Find(retained, a.id).Some? && retained[Find(retained, a.id).value] == log[p]
  {
    hide Retained;
    RetainedIsLongest(log, LIMITS, a.now);
    RetainedIff(log, a.now, a.now, p);
    var retained := Retained(log, LIMITS, a.now);
    var gone := |log| - |retained|;
    assert retained[p - gone] == log[p];
    var found := Find(retained, a.id);
    if found.Some? {
      var q := gone + found.value;
      assert log[q] == retained[found.value];
      RetainedIff(log, a.now, a.now, q);
    }
  }

  /** While an action id is retained — for less than ten minutes, and with fewer than 256
  newer ids — every call with it that has the same fingerprint is given the first run, and
  every other call is rejected; neither runs the operation again. */
  lemma AtMostOnce(events: seq<Event>, i: nat, j: nat)
    requires i < j < |events| && Timed(events) && events[i].WithId? && events[j].WithId?
    requires events[i].attempt.id == events[j].attempt.id && ReplyTo(events, i).Ran?
    requires events[j].attempt.now < events[i].attempt.now + TTL_MS
    requires |After(events, j).log| - |After(events, i).log| <= MAX_ENTRIES
    ensures ReplyTo(events, j) ==
              if events[j].attempt.fingerprint == events[i].attempt.fingerprint
              then Replayed(ReplyTo(events, i).run) else Conflict
    ensures After(events, j + 1) == After(events, j)
  {
    hide Retained, Spaced, OrderedUntil;
    var a, b := events[i].attempt, events[j].attempt;
    var p := |After(events, i).log|;
    RunIsSpaced(events, j, b.now);
    LogGrows(events, i + 1, j);
    assert After(events, i + 1).log == After(events, i).log + [NewEntry(a, ReplyTo(events, i).run)];
    assert After(events, j).log[p] == NewEntry(a, ReplyTo(events, i).run);
    FindsOnly(After(events, j).log, b, p);
  }

  // ----- and not less often -----

  /** Did call i run the operation for the entry at index p of the log, before call n? */
  predicate Inserted(events: seq<Event>, i: nat, n: nat, p: nat)
    requires n <= |events|
  {
    && i < n && events[i].WithId? && ReplyTo(events, i).Ran? && |After(events, i).log| == p
    && p < |After(events, n).log|
    && After(events, n).log[p] == NewEntry(events[i].attempt, ReplyTo(events, i).run)
  }

  /** Every entry was made by a call that ran the operation. */
  lemma {:induction false} EntryOrigin(events: seq<Event>, n: nat, p: nat) returns (i: nat)
    requires n <= |events| && p < |After(events, n).log|
    ensures Inserted(events, i, n, p)
  {
    hide Retained;
    if p < |After(events, n - 1).log| {
      i := EntryOrigin(events, n - 1, p);
    } else {
      i := n - 1;
    }
  }

  /** Is the action id of call j still retained from call i, which ran the operation? */
  predicate RetainedFrom(events: seq<Event>, i: nat, j: nat)
    requires j < |events| && events[j].WithId?
  {
    && i < j && events[i].WithId? && events[i].attempt.id == events[j].attempt.id && ReplyTo(events, i).Ran?
    && events[j].attempt.now < events[i].attempt.now + TTL_MS
    && |After(events, j).log| - |After(events, i).log| <= MAX_ENTRIES
  }

  /** A call with an action id runs the operation exactly when that id is not retained from an
  earlier one, and then as a new run; a call without one always does. */
  lemma RunsExactly(events: seq<Event>, j: nat)
    requires j < |events| && Timed(events)
    ensures ReplyTo(events, j).Ran? <==> events[j].Plain? || !exists i :: RetainedFrom(events, i, j)
    ensures ReplyTo(events, j).Ran? ==> ReplyTo(events, j).run == After(events, j).runs
    ensures After(events, j + 1).runs == After(events, j).runs + (if ReplyTo(events, j).Ran? then 1 else 0)
  {
    hide Retained, RetainedFrom, Spaced, OrderedUntil;
    if events[j].WithId? {
      if i: nat :| RetainedFrom(events, i, j) {
        NotAgain(events, i, j);
      }
      if !ReplyTo(events, j).Ran? {
        var i := FoundIsRetained(events, j);
      }
    }
  }

  lemma NotAgain(events: seq<Event>, i: nat, j: nat)
    requires j < |events| && Timed(events) && events[j].WithId? && RetainedFrom(events, i, j)
    ensures !ReplyTo(events, j).Ran?
  {
    hide After, ReplyTo, Timed;
    AtMostOnce(events, i, j);
  }

  lemma FoundIsRetained(events: seq<Event>, j: nat) returns (i: nat)
    requires j < |events| && Timed(events) && events[j].WithId? && !ReplyTo(events, j).Ran?
    ensures RetainedFrom(events, i, j)
  {
    hide Retained, Spaced, OrderedUntil, After;
    var a, log := events[j].attempt, After(events, j).log;
    var retained := Retained(log, LIMITS, a.now);
    var found := Find(retained, a.id).value;
    RunIsSpaced(events, j, a.now);
    RetainedIsLongest(log, LIMITS, a.now);
    var p := |log| - |retained| + found;
    assert log[p] == retained[found];
    RetainedIff(log, a.now, a.now, p);
    i := EntryOrigin(events, j, p);
  }
}
