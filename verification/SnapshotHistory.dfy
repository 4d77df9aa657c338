/** The bounded history of snapshots of a session (src/browser/snapshot-history.ts). */
module SnapshotHistory {
  import opened Common
  import opened Text
  import SnapshotText
  import opened SnapshotNodes
  import opened SnapshotDiff
  import opened Retention

  const HARD_MAX_SNAPSHOTS := 512
  const HARD_MAX_TTL_MS := 24 * 60 * 60_000
  const HARD_MAX_BYTES := 16 * 1024 * 1024
  const HARD_MAX_SNAPSHOT_BYTES := 4 * 1024 * 1024
  const HARD_MAX_NODES := 2_000
  const MAX_ID_LENGTH := 200
  const MAX_TAB_ID_LENGTH := 100

  /** What an entry keeps besides its id, size and deadline. */
  datatype Stored = Stored(tabId: Option<Str>, pageRevision: int, generation: int, createdAt: int, nodes: seq<StoredNode>)

  type HistoryEntry = Entry<Stored>

  datatype Tombstone = Tombstone(id: Str, expiredAt: int)

  /** A snapshot as it comes in; `bytes` is the length of its entry's JSON. */
  datatype Observation = Observation(
    id: Str, tabId: Option<Str>, pageRevision: int, generation: int, targets: seq<Node>, bytes: nat)

  datatype Prepared = Prepared(snapshot: Observation, nodes: seq<StoredNode>)

  datatype Recorded = Recorded(snapshot: Observation, diff: Option<Diff>)

  function BoundedInteger(value: Option<int>, minimum: int, maximum: int, fallback: int): int {
    match value
    case None => fallback
    case Some(v) => Max(minimum, Min(maximum, v))
  }

  // ----- preparing a snapshot -----

  predicate OpaqueString(s: Str, maxLength: nat) {
    0 < |s| <= maxLength && forall i :: 0 <= i < |s| ==> !SnapshotText.Control(s[i])
  }

  /** None when the actual revision is the expected one. */
  function RevisionError(actual: int, expected: Option<int>): Option<Error> {
    match expected
    case None => None
    case Some(e) => if !SafeRevision(e) then Some(InvalidSnapshot) else if actual != e then Some(RevisionMismatch) else None
  }

  function Limited(targets: seq<Node>, maxNodes: nat): seq<Node> {
    if |targets| <= maxNodes then targets else targets[..maxNodes]
  }

  function Prepare(o: Observation, expected: Option<int>, maxNodes: nat): (r: Result<Prepared, Error>)
    ensures r.Ok? ==> OpaqueString(o.id, MAX_ID_LENGTH) && r.value.snapshot.id == o.id
  {
    if !SafeRevision(o.generation) || !SafeRevision(o.pageRevision) then Err(InvalidSnapshot)
    else if RevisionError(o.pageRevision, expected).Some? then Err(RevisionError(o.pageRevision, expected).value)
    else if !OpaqueString(o.id, MAX_ID_LENGTH) then Err(InvalidSnapshot)
    else
      match NormalizeAll(Limited(o.targets, maxNodes))
      case Err(e) => Err(e)
      case Ok(nodes) =>
        if o.tabId.Some? && !OpaqueString(o.tabId.value, MAX_TAB_ID_LENGTH) then Err(InvalidSnapshot)
        else Ok(Prepared(o.(targets := PublicNodes(nodes)), StoredForm(nodes)))
  }

  /** A snapshot is accepted exactly when its numbers are safe, its revision is the expected
  one, its ids are bounded and its first nodes are acceptable. Those nodes, normalised, are
  what is given back, and without their texts what is stored. */
  lemma PreparesExactly(o: Observation, expected: Option<int>, maxNodes: nat)
    ensures var r, kept := Prepare(o, expected, maxNodes), Limited(o.targets, maxNodes);
            && |kept| == Min(|o.targets|, maxNodes) && kept == o.targets[..|kept|]
            && (r.Ok? <==>
                  && SafeRevision(o.generation) && SafeRevision(o.pageRevision)
                  && (expected.Some? ==> expected.value == o.pageRevision)
                  && OpaqueString(o.id, MAX_ID_LENGTH) && (o.tabId.Some? ==> OpaqueString(o.tabId.value, MAX_TAB_ID_LENGTH))
                  && forall i :: 0 <= i < |kept| ==> Acceptable(kept[i]))
            && (r == Err(RevisionMismatch) <==>
                  && SafeRevision(o.generation) && SafeRevision(o.pageRevision)
                  && expected.Some? && SafeRevision(expected.value) && expected.value != o.pageRevision)
            && (r.Ok? ==>
                  && r.value.snapshot == o.(targets := r.value.snapshot.targets)
                  && |r.value.snapshot.targets| == |r.value.nodes| == |kept|
                  && forall i :: 0 <= i < |kept| ==>
                       && r.value.snapshot.targets[i] == NormalizedNode(kept[i])
                       && r.value.nodes[i] == StoredNode(NormalizedNode(kept[i]).(text := None), TextDigest(kept[i].text)))
  {
    hide NormalizedNode, TextDigest, OpaqueString;
    var kept := Limited(o.targets, maxNodes);
    forall i | 0 <= i < |kept| && NormalizeAll(kept).Ok?
      ensures NormalizeAll(kept).value[i] == StoredNode(NormalizedNode(kept[i]), TextDigest(kept[i].text))
    {
      assert Ok(NormalizeAll(kept).value[i]) == NormalizeStoredNode(kept[i]);
    }
  }

  /** A snapshot that was recorded can be prepared again, for a diff, exactly when none of
  the refs that it kept was blank. */
  lemma PreparedTwice(o: Observation, expected: Option<int>, maxNodes: nat)
    requires Prepare(o, expected, maxNodes).Ok?
    ensures var p := Prepare(o, expected, maxNodes).value;
            var kept := Limited(o.targets, maxNodes);
            Prepare(p.snapshot, None, maxNodes).Ok? <==>
              forall i :: 0 <= i < |kept| ==> SnapshotText.BoundedText(kept[i].ref, MAX_REF_LENGTH) != []
  {
    hide NormalizedNode, SnapshotText.BoundedText;
    var p := Prepare(o, expected, maxNodes).value;
    var kept := Limited(o.targets, maxNodes);
    var nodes := NormalizeAll(kept).value;
    var public := PublicNodes(nodes);
    assert Limited(public, maxNodes) == public;
    forall i | 0 <= i < |kept|
      ensures Acceptable(public[i]) <==> SnapshotText.BoundedText(kept[i].ref, MAX_REF_LENGTH) != []
    {
      assert Ok(nodes[i]) == NormalizeStoredNode(kept[i]);
      OwnNode(kept[i]);
    }
  }

  // ----- entries -----

  /** Is the prepared snapshot the same observation as a retained one? */
  predicate SameObservation(e: HistoryEntry, p: Prepared) {
    e.value.tabId == p.snapshot.tabId && e.value.pageRevision == p.snapshot.pageRevision
    && SameStoredNodes(e.value.nodes, p.nodes)
  }

  function NewEntry(p: Prepared, now: int, ttlMs: int): HistoryEntry {
    Entry(p.snapshot.id, now + ttlMs, p.snapshot.bytes,
          Stored(p.snapshot.tabId, p.snapshot.pageRevision, p.snapshot.generation, now, p.nodes))
  }

  /** A repeat of an id is taken for the same observation exactly when it is of the same tab
  and revision and its nodes agree, place by place, in ref, generation and every compared
  field. */
  lemma RepeatMeans(e: HistoryEntry, p: Prepared)
    ensures SameObservation(e, p) <==>
              && p.snapshot.tabId == e.value.tabId && p.snapshot.pageRevision == e.value.pageRevision
              && |p.nodes| == |e.value.nodes|
              && forall i :: 0 <= i < |p.nodes| ==>
                   && p.nodes[i].node.ref == e.value.nodes[i].node.ref && p.nodes[i].node.generation == e.value.nodes[i].node.generation
                   && ChangedFields(e.value.nodes[i], p.nodes[i]) == []
  {
    hide ChangedFields, Fields;
    forall i | 0 <= i < |p.nodes| && |p.nodes| == |e.value.nodes|
      ensures ChangedFields(e.value.nodes[i], p.nodes[i]) == [] <==> Fields(e.value.nodes[i]) == Fields(p.nodes[i])
    {
      UnchangedMeansEqual(e.value.nodes[i], p.nodes[i]);
    }
  }

  /** A snapshot that nothing follows is retained for exactly the retention time. */
  lemma KeptForItsTime(log: seq<HistoryEntry>, limits: Limits, p: Prepared, now: int, ttlMs: int, at: int)
    requires limits.count > 0 && p.snapshot.bytes <= limits.bytes
    requires Ordered(log + [NewEntry(p, now, ttlMs)])
    ensures var r := Retained(log + [NewEntry(p, now, ttlMs)], limits, at);
            && (r != [] <==> at < now + ttlMs)
            && (r != [] ==> r[|r| - 1] == NewEntry(p, now, ttlMs))
  {
    hide Retained, Ordered;
    var e, all := NewEntry(p, now, ttlMs), log + [NewEntry(p, now, ttlMs)];
    var r := Retained(all, limits, at);
    RetainedIsLongest(all, limits, at);
    assert all[|log|..] == [e];
    if at < now + ttlMs {
      OneFits(e, limits, at);
    }
    if r != [] {
      assert r[|r| - 1] == all[|all| - 1];
    }
  }

  lemma OneFits(e: HistoryEntry, limits: Limits, at: int)
    requires limits.count > 0 && e.bytes <= limits.bytes && at < e.expiresAt
    ensures Fits([e], limits) && Live([e], at)
  {
    assert [e][1..] == [];
  }

  // ----- tombstones -----

  predicate Buried(tombs: seq<Tombstone>, id: Str) {
    exists t :: t in tombs && t.id == id
  }

  predicate DistinctTombs(tombs: seq<Tombstone>) {
    forall i, j :: 0 <= i < j < |tombs| ==> tombs[i].id != tombs[j].id
  }

  predicate HasExpired(log: seq<HistoryEntry>, id: Str, clock: int) {
    exists k :: 0 <= k < |log| && log[k].id == id && log[k].expiresAt <= clock
  }

  /** Each tombstone belongs to an entry that was inserted and has expired since, and whose
  id is not retained. */
  ghost predicate Truthful(tombs: seq<Tombstone>, log: seq<HistoryEntry>, entries: seq<HistoryEntry>, clock: int) {
    forall t :: t in tombs ==> t.id != [] && !HasId(entries, t.id) && HasExpired(log, t.id, clock)
  }

  function Stamp(entries: seq<HistoryEntry>, now: int): (r: seq<Tombstone>)
    ensures |r| == |entries| && forall i :: 0 <= i < |r| ==> r[i] == Tombstone(entries[i].id, now)
  {
    seq(|entries|, i requires 0 <= i < |entries| => Tombstone(entries[i].id, now))
  }

  /** The tombstones younger than the retention time. */
  function Unstale(tombs: seq<Tombstone>, ttlMs: int, now: int): (r: seq<Tombstone>)
    ensures forall t :: t in r <==> t in tombs && t.expiredAt + ttlMs > now
  {
    if tombs == [] then []
    else (if tombs[0].expiredAt + ttlMs <= now then [] else [tombs[0]]) + Unstale(tombs[1..], ttlMs, now)
  }

  /** The newest n tombstones. */
  function Newest(tombs: seq<Tombstone>, n: nat): (r: seq<Tombstone>)
    ensures |r| <= n && forall t :: t in r ==> t in tombs
  {
    if |tombs| <= n then tombs else tombs[|tombs| - n..]
  }

  function Without(tombs: seq<Tombstone>, id: Str): (r: seq<Tombstone>)
    ensures forall t :: t in r <==> t in tombs && t.id != id
    ensures |r| <= |tombs|
  {
    if tombs == [] then []
    else (if tombs[0].id == id then [] else [tombs[0]]) + Without(tombs[1..], id)
  }

  /** Setting a key of a map keeps the place of a key that is there. */
  function Bury(tombs: seq<Tombstone>, id: Str, now: int): seq<Tombstone> {
    if Buried(tombs, id)
    then seq(|tombs|, i requires 0 <= i < |tombs| => if tombs[i].id == id then Tombstone(id, now) else tombs[i])
    else tombs + [Tombstone(id, now)]
  }

  /** In a cache whose entries expire in order, the first expired one found is the oldest. */
  lemma ExpiredIsFirst(entries: seq<HistoryEntry>, log: seq<HistoryEntry>, start: nat, now: int, i: nat)
    requires start <= |log| && entries == log[start..] && Ordered(log)
    requires i < |entries| && entries[i].expiresAt <= now && forall k :: 0 <= k < i ==> entries[k].expiresAt > now
    ensures i == 0
  {
    OrderedSuffix(log, start);
    FirstExpiresFirst(entries, i);
  }

  lemma BuryFirst(tombs: seq<Tombstone>, log: seq<HistoryEntry>, entries: seq<HistoryEntry>, start: nat, now: int)
    requires start <= |log| && entries == log[start..] && entries != []
    requires Truthful(tombs, log, entries, now) && DistinctTombs(tombs) && DistinctIds(entries)
    requires entries[0].expiresAt <= now && entries[0].id != []
    ensures var after := Bury(tombs, entries[0].id, now);
            after == tombs + [Tombstone(entries[0].id, now)] && Truthful(after, log, entries[1..], now) && DistinctTombs(after)
    ensures DistinctIds(entries[1..])
  {
    var id := entries[0].id;
    assert HasId(entries, id);
    assert !Buried(tombs, id);
    assert log[start].id == id;
    assert HasExpired(log, id, now);
    forall other | HasId(entries[1..], other)
      ensures HasId(entries, other) && other != id
    {
      var i :| 0 <= i < |entries| - 1 && entries[1..][i].id == other;
      assert entries[i + 1].id == other;
    }
    assert forall i :: 0 <= i < |tombs| ==> tombs[i] in tombs;
  }

  lemma FirstGone(entries: seq<HistoryEntry>)
    requires entries != []
    ensures entries[..0] + entries[1..] == entries[1..]
    ensures Bytes(entries[1..]) == Bytes(entries) - entries[0].bytes
  {
  }

  lemma StampOneMore(entries: seq<HistoryEntry>, n: nat, now: int)
    requires n < |entries|
    ensures entries[n..][1..] == entries[n + 1..] && entries[n..][0] == entries[n]
    ensures Stamp(entries[..n + 1], now) == Stamp(entries[..n], now) + [Tombstone(entries[n].id, now)]
  {
    assert Stamp(entries[..n + 1], now)[..n] == Stamp(entries[..n], now);
  }

  lemma TombsKept(tombs: seq<Tombstone>, ttlMs: int, now: int, n: nat, log: seq<HistoryEntry>, entries: seq<HistoryEntry>, clock: int)
    requires DistinctTombs(tombs) && Truthful(tombs, log, entries, clock)
    ensures var kept := Newest(Unstale(tombs, ttlMs, now), n);
            DistinctTombs(kept) && Truthful(kept, log, entries, clock)
  {
    UnstaleIsDistinct(tombs, ttlMs, now);
  }

  lemma {:induction false} UnstaleIsDistinct(tombs: seq<Tombstone>, ttlMs: int, now: int)
    requires DistinctTombs(tombs)
    ensures DistinctTombs(Unstale(tombs, ttlMs, now))
  {
    if tombs != [] {
      var rest := Unstale(tombs[1..], ttlMs, now);
      UnstaleIsDistinct(tombs[1..], ttlMs, now);
      assert forall i :: 0 <= i < |rest| ==> rest[i] in tombs[1..];
    }
  }

  lemma UnstaleEnds(tombs: seq<Tombstone>, ttlMs: int, now: int)
    ensures tombs[..0] + Unstale(tombs[0..], ttlMs, now) == Unstale(tombs, ttlMs, now)
    ensures tombs[..|tombs|] + Unstale(tombs[|tombs|..], ttlMs, now) == tombs
  {
    assert tombs[0..] == tombs && tombs[|tombs|..] == [];
  }

  lemma UnstaleHead(tombs: seq<Tombstone>, i: nat, ttlMs: int, now: int)
    requires i < |tombs|
    ensures Unstale(tombs[i..], ttlMs, now) ==
            (if tombs[i].expiredAt + ttlMs <= now then [] else [tombs[i]]) + Unstale(tombs[i + 1..], ttlMs, now)
  {
    assert tombs[i..][1..] == tombs[i + 1..];
  }

  lemma TakeOneMore<T>(s: seq<T>, i: nat, rest: seq<T>)
    requires i < |s|
    ensures s[..i] + ([s[i]] + rest) == s[..i + 1] + rest
    ensures s[..i] + ([] + rest) == s[..i] + rest
  {
  }

  lemma DropOne<T>(s: seq<T>, i: nat)
    requires i < |s|
    ensures (s[..i] + s[i + 1..])[..i] == s[..i] && (s[..i] + s[i + 1..])[i..] == s[i + 1..]
  {
  }

  lemma UnstaleStep(tombs: seq<Tombstone>, i: nat, ttlMs: int, now: int)
    requires i < |tombs|
    ensures var whole := tombs[..i] + Unstale(tombs[i..], ttlMs, now);
            if tombs[i].expiredAt + ttlMs > now
            then whole == tombs[..i + 1] + Unstale(tombs[i + 1..], ttlMs, now)
            else
              var shorter := tombs[..i] + tombs[i + 1..];
              whole == shorter[..i] + Unstale(shorter[i..], ttlMs, now)
  {
    hide Unstale;
    UnstaleHead(tombs, i, ttlMs, now);
    TakeOneMore(tombs, i, Unstale(tombs[i + 1..], ttlMs, now));
    DropOne(tombs, i);
  }

  lemma {:induction false} WithoutIsDistinct(tombs: seq<Tombstone>, id: Str)
    requires DistinctTombs(tombs)
    ensures DistinctTombs(Without(tombs, id))
  {
    if tombs != [] {
      var rest := Without(tombs[1..], id);
      WithoutIsDistinct(tombs[1..], id);
      assert forall i :: 0 <= i < |rest| ==> rest[i] in tombs[1..];
    }
  }

  lemma InsertKeepsLog(log: seq<HistoryEntry>, e: HistoryEntry)
    requires Ordered(log) && forall i :: 0 <= i < |log| ==> log[i].expiresAt <= e.expiresAt
    ensures Ordered(log + [e])
  {
  }

  lemma InsertKeepsIds(pruned: seq<HistoryEntry>, k: nat, e: HistoryEntry)
    requires k <= |pruned| && DistinctIds(pruned) && !HasId(pruned, e.id)
    ensures DistinctIds(pruned[k..] + [e])
  {
  }

  lemma IdOfInserted(entries: seq<HistoryEntry>, k: nat, e: HistoryEntry, id: Str)
    requires k <= |entries|
    ensures HasId(entries[k..] + [e], id) ==> HasId(entries, id) || id == e.id
  {
    assert forall j :: 0 <= j < |entries| - k ==> entries[k..][j] == entries[k + j];
  }

  lemma InsertKeepsTombs(tombs: seq<Tombstone>, log: seq<HistoryEntry>, pruned: seq<HistoryEntry>, k: nat, e: HistoryEntry, clock: int)
    requires k <= |pruned| && Truthful(tombs, log, pruned, clock) && DistinctTombs(tombs)
    ensures var after := Without(tombs, e.id);
            Truthful(after, log + [e], pruned[k..] + [e], clock) && DistinctTombs(after) && |after| <= |tombs|
  {
    WithoutIsDistinct(tombs, e.id);
    forall t | t in Without(tombs, e.id)
      ensures t.id != [] && !HasId(pruned[k..] + [e], t.id) && HasExpired(log + [e], t.id, clock)
    {
      var i :| 0 <= i < |log| && log[i].id == t.id && log[i].expiresAt <= clock;
      assert (log + [e])[i] == log[i];
      IdOfInserted(pruned, k, e, t.id);
    }
  }

  // ----- diffs against the history -----

  /** The checks of a diff and the diff itself, once the base is found. */
  function DiffWith(snapshot: Observation, base: HistoryEntry, expected: Option<int>, requireSame: bool): Result<Diff, Error> {
    if RevisionError(snapshot.pageRevision, expected).Some? then Err(RevisionError(snapshot.pageRevision, expected).value)
    else if requireSame && snapshot.pageRevision != base.value.pageRevision then Err(RevisionMismatch)
    else MakeDiff(base.value.nodes, snapshot.targets)
  }

  /** Preparing a snapshot and comparing it never report a missing base. */
  lemma DiffErrors(o: Observation, expected: Option<int>, requireSame: bool, maxNodes: nat, entries: seq<HistoryEntry>, id: Str)
    ensures Prepare(o, None, maxNodes) != Err(NotFound) && Prepare(o, None, maxNodes) != Err(Expired)
    ensures Prepare(o, None, maxNodes).Ok? && HasId(entries, id) ==>
              var d := DiffWith(Prepare(o, None, maxNodes).value.snapshot, entries[Find(entries, id).value], expected, requireSame);
              d != Err(NotFound) && d != Err(Expired)
  {
  }

  /** A base that was retained at t0 can still be found at t3, after an insertion in
  between, exactly when it has not expired and fits with everything newer than it and the
  new entry. */
  lemma BaseSurvives(log: seq<HistoryEntry>, limits: Limits, t0: int, t2: int, t3: int, e: HistoryEntry, k: nat)
    requires t0 <= t2 <= t3 && Ordered(log) && Ordered(log + [e]) && RoomFor([], e, limits)
    requires k < |Retained(log, limits, t0)| && DistinctIds(Retained(log, limits, t0))
    requires e.id != Retained(log, limits, t0)[k].id
    ensures var before := Retained(log, limits, t0);
            HasId(Retained(log + [e], limits, t3), before[k].id) <==>
              before[k].expiresAt > t3 && RoomFor(before[k..], e, limits)
  {
    hide Retained, RoomFor, Ordered;
    var before := Retained(log, limits, t0);
    var n, m := SurvivesUntil(log, limits, t0, t2, t3, e, k);
    IdAtIndex(before, n, m, e, k);
  }

  /** It can happen: a history of capacity one loses every base to the next snapshot. */
  lemma CapacityOneLosesBase(base: HistoryEntry, e: HistoryEntry, bytes: nat, now: int)
    requires base.id != e.id && base.bytes <= bytes && e.bytes <= bytes && base.expiresAt > now && e.expiresAt > now
    ensures var limits := Retention.Limits(1, bytes);
            HasId(Retained([base], limits, now), base.id) && !HasId(Retained([base, e], limits, now), base.id)
  {
    var limits := Retention.Limits(1, bytes);
    assert [base, e][1..] == [e];
    RetainedFrom([base], limits, now, 0);
    RetainedFrom([base, e], limits, now, 1);
    assert Retained([base], limits, now)[0] == base;
  }

  lemma IdAtIndex(before: seq<HistoryEntry>, n: nat, m: nat, e: HistoryEntry, k: nat)
    requires k < |before| && n <= |before| && m <= |before| - n + 1
    requires DistinctIds(before) && e.id != before[k].id
    ensures HasId((before[n..] + [e])[m..], before[k].id) <==> n + m <= k
  {
    var after := (before[n..] + [e])[m..];
    if n + m <= k {
      assert after[k - n - m] == before[k];
    }
    assert forall i :: 0 <= i < |after| - 1 ==> after[i] == before[n + m + i];
  }

  // ----- the history -----

  class History {
    const maxSnapshots: nat
    const ttlMs: nat
    const maxBytes: nat
    const maxSnapshotBytes: nat
    const maxNodes: nat
    var entries: seq<HistoryEntry>      // a map by id, in insertion order
    var expiredIds: seq<Tombstone>      // a map by id, in insertion order
    var totalBytes: int
    ghost var log: seq<HistoryEntry>    // every entry inserted since the last clear
    ghost var start: nat                // how many of them are gone
    ghost var clock: int                // the latest time read

    function Limits(): Limits { Retention.Limits(maxSnapshots, maxBytes) }

    function MaxTombstones(): nat { Min(HARD_MAX_SNAPSHOTS, maxSnapshots * 2) }

    ghost predicate ValidLimits() {
      && 1 <= maxSnapshots <= HARD_MAX_SNAPSHOTS && 1 <= ttlMs <= HARD_MAX_TTL_MS
      && 1 <= maxSnapshotBytes <= maxBytes <= HARD_MAX_BYTES && 1 <= maxNodes <= HARD_MAX_NODES
    }

    ghost predicate ValidLog()
      reads `log, `clock
    {
      && Ordered(log)
      && (forall i :: 0 <= i < |log| ==> log[i].expiresAt <= clock + ttlMs && log[i].id != [])
    }

    ghost predicate ValidTombs()
      reads `entries, `expiredIds, `log, `clock
    {
      && DistinctTombs(expiredIds) && |expiredIds| <= MaxTombstones()
      && Truthful(expiredIds, log, entries, clock)
    }

    ghost predicate Valid()
      reads this
    {
      && ValidLimits() && ValidLog()
      && EndOfLog(entries, log, start, Limits(), clock)
      && totalBytes == Bytes(entries)
      && DistinctIds(entries)
      && ValidTombs()
    }

    constructor (snapshots: Option<int>, ttl: Option<int>, bytes: Option<int>, snapshotBytes: Option<int>, nodes: Option<int>)
      ensures Valid() && entries == [] && expiredIds == [] && log == []
      ensures forall n: nat :: snapshots == Some(n) && 1 <= n <= HARD_MAX_SNAPSHOTS ==> maxSnapshots == n
      ensures forall n: nat :: bytes == Some(n) && 1 <= n <= HARD_MAX_BYTES ==> maxBytes == n
    {
      var allBytes := BoundedInteger(bytes, 1, HARD_MAX_BYTES, 2 * 1024 * 1024);
      maxSnapshots := BoundedInteger(snapshots, 1, HARD_MAX_SNAPSHOTS, 32);
      ttlMs := BoundedInteger(ttl, 1, HARD_MAX_TTL_MS, 10 * 60_000);
      maxBytes := allBytes;
      maxSnapshotBytes := BoundedInteger(snapshotBytes, 1, Min(HARD_MAX_SNAPSHOT_BYTES, allBytes), Min(256 * 1024, allBytes));
      maxNodes := BoundedInteger(nodes, 1, HARD_MAX_NODES, 500);
      entries, expiredIds, totalBytes := [], [], 0;
      log, start := [], 0;
    }

    method Clear()
      requires Valid()
      modifies this
      ensures Valid() && entries == [] && expiredIds == [] && log == [] && clock == old(clock)
    {
      entries, expiredIds, totalBytes := [], [], 0;
      log, start := [], 0;
    }

    /** Drops the expired entries; what is left is the longest suffix of the log that is
    unexpired and fits. */
    method Prune(now: int) returns (removed: nat)
      requires Valid() && clock <= now
      modifies this
      ensures Valid() && clock == now && log == old(log)
      ensures entries == Retained(log, Limits(), now) && Live(entries, now)
      ensures removed <= |old(entries)| && entries == old(entries)[removed..]
      ensures expiredIds == Newest(Unstale(old(expiredIds) + Stamp(old(entries)[..removed], now), ttlMs, now), MaxTombstones())
    {
      hide Ordered, EndOfLog, DistinctIds, DistinctTombs, Truthful, Bytes, Stamp, Unstale, Newest, Live;
      removed := DropExpiredEntries(now);
      TombsKept(expiredIds, ttlMs, now, MaxTombstones(), log, entries, now);
      DropTombstones(now);
      EndOfLogIsRetained(entries, log, start, Limits(), now);
      totalBytes := Max(totalBytes, 0);
    }

    /** The first loop of pruning. */
    method DropExpiredEntries(now: int) returns (removed: nat)
      requires Valid() && clock <= now
      modifies this
      ensures log == old(log) && clock == now && ValidLog()
      ensures EndOfLog(entries, log, start, Limits(), now) && Live(entries, now)
      ensures removed <= |old(entries)| && entries == old(entries)[removed..]
      ensures totalBytes == Bytes(entries) && DistinctIds(entries)
      ensures expiredIds == old(expiredIds) + Stamp(old(entries)[..removed], now)
      ensures DistinctTombs(expiredIds) && Truthful(expiredIds, log, entries, now)
    {
      hide Ordered, EndOfLog, DistinctIds, DistinctTombs, Truthful, Bury, Bytes, Stamp;
      var i := 0;
      removed := 0;
      ClockMoves(now);
      assert Stamp(old(entries)[..0], now) == [] && expiredIds + [] == expiredIds;
      clock := now;
      while i < |entries|
        invariant log == old(log) && clock == now && ValidLog()
        invariant i <= |entries| && removed <= |old(entries)| && entries == old(entries)[removed..]
        invariant EndOfLog(entries, log, start, Limits(), now)
        invariant forall k :: 0 <= k < i ==> entries[k].expiresAt > now
        invariant totalBytes == Bytes(entries) && DistinctIds(entries)
        invariant expiredIds == old(expiredIds) + Stamp(old(entries)[..removed], now)
        invariant DistinctTombs(expiredIds) && Truthful(expiredIds, log, entries, now)
        decreases |entries| - i
      {
        if entries[i].expiresAt > now {
          i := i + 1;
        } else {
          EntriesAreEnd(entries, log, start, Limits(), now);
          ExpiredIsFirst(entries, log, start, now, i);
          DropExpired(entries, log, start, Limits(), now);
          BuryFirst(expiredIds, log, entries, start, now);
          FirstGone(entries);
          StampOneMore(old(entries), removed, now);
          var entry := entries[i];
          entries := entries[..i] + entries[i + 1..];
          totalBytes := totalBytes - entry.bytes;
          expiredIds := Bury(expiredIds, entry.id, now);
          removed := removed + 1;
          start := start + 1;
        }
      }
    }

    lemma ClockMoves(now: int)
      requires Valid() && clock <= now
      ensures EndOfLog(entries, log, start, Limits(), now) && Truthful(expiredIds, log, entries, now)
      ensures Ordered(log) && forall i :: 0 <= i < |log| ==> log[i].expiresAt <= now + ttlMs && log[i].id != []
      ensures DistinctTombs(expiredIds) && DistinctIds(entries) && totalBytes == Bytes(entries)
    {
      hide DistinctIds, DistinctTombs, Bytes, Ordered;
    }

    /** The other two loops: stale tombstones go, then the oldest beyond the bound. */
    method DropTombstones(now: int)
      modifies `expiredIds
      ensures expiredIds == Newest(Unstale(old(expiredIds), ttlMs, now), MaxTombstones())
    {
      hide Unstale;
      var i := 0;
      UnstaleEnds(expiredIds, ttlMs, now);
      while i < |expiredIds|
        invariant i <= |expiredIds|
        invariant expiredIds[..i] + Unstale(expiredIds[i..], ttlMs, now) == Unstale(old(expiredIds), ttlMs, now)
        decreases |expiredIds| - i
      {
        UnstaleStep(expiredIds, i, ttlMs, now);
        if expiredIds[i].expiredAt + ttlMs > now {
          i := i + 1;
        } else {
          expiredIds := expiredIds[..i] + expiredIds[i + 1..];
        }
      }
      UnstaleEnds(expiredIds, ttlMs, now);
      DropOldest();
    }

    method DropOldest()
      modifies `expiredIds
      ensures expiredIds == Newest(old(expiredIds), MaxTombstones())
    {
      while |expiredIds| > MaxTombstones()
        invariant |expiredIds| <= |old(expiredIds)| && expiredIds == old(expiredIds)[|old(expiredIds)| - |expiredIds|..]
        invariant |expiredIds| < |old(expiredIds)| ==> |expiredIds| >= MaxTombstones()
      {
        expiredIds := expiredIds[1..];
      }
    }

    /** Inserts a snapshot unless its id is retained already, and evicts the oldest entries
    to make room. The two times are the two readings of the clock. */
    method RetainPrepared(p: Prepared, now: int, pruneNow: int) returns (r: Result<Observation, Error>)
      requires Valid() && clock <= now <= pruneNow && p.snapshot.id != []
      modifies this
      ensures Valid() && clock == pruneNow
      ensures var pruned, e := Retained(old(log), Limits(), pruneNow), NewEntry(p, now, ttlMs);
              if HasId(pruned, e.id) then
                && entries == pruned && log == old(log)
                && r == (if SameObservation(pruned[Find(pruned, e.id).value], p) then Ok(p.snapshot) else Err(IdConflict))
              else if e.bytes > maxSnapshotBytes then
                entries == pruned && log == old(log) && r == Err(ResourceExhausted)
              else
                r == Ok(p.snapshot) && log == old(log) + [e] && entries == Evicted(pruned, e, Limits()) + [e]
      ensures log != old(log) && now + ttlMs > pruneNow ==> entries == Retained(log, Limits(), pruneNow)
    {
      hide Ordered, EndOfLog, DistinctIds, DistinctTombs, Truthful, Bytes, Unstale, Newest, Retained, Stamp;
      assert forall i :: 0 <= i < |log| ==> log[i].expiresAt <= now + ttlMs;
      var removed := Prune(pruneNow);
      var existing := Find(entries, p.snapshot.id);
      if existing.Some? {
        if !SameObservation(entries[existing.value], p) {
          return Err(IdConflict);
        }
        return Ok(p.snapshot);
      }
      var entry := NewEntry(p, now, ttlMs);
      if entry.bytes > maxSnapshotBytes || entry.bytes > maxBytes {
        return Err(ResourceExhausted);
      }
      Insert(entry);
      r := Ok(p.snapshot);
    }

    method Insert(entry: HistoryEntry)
      requires Valid() && Live(entries, clock) && !HasId(entries, entry.id) && entry.id != []
      requires entry.bytes <= maxBytes && entry.expiresAt <= clock + ttlMs
      requires forall i :: 0 <= i < |log| ==> log[i].expiresAt <= entry.expiresAt
      modifies this
      ensures Valid() && clock == old(clock)
      ensures log == old(log) + [entry] && entries == Evicted(old(entries), entry, Limits()) + [entry]
      ensures entry.expiresAt > clock ==> entries == Retained(log, Limits(), clock)
    {
      hide Ordered, EndOfLog, DistinctIds, DistinctTombs, Truthful, Bytes, Retained, Evicted, HasId;
      ghost var pruned := entries;
      BeforeInsert(entry);
      MakeRoom(entry);
      ghost var kept := entries;
      BytesConcat(kept, [entry]);
      InsertKeepsLog(log, entry);
      InsertKeepsIds(pruned, |pruned| - |kept|, entry);
      InsertKeepsTombs(expiredIds, log, pruned, |pruned| - |kept|, entry, clock);
      entries := entries + [entry];
      totalBytes := totalBytes + entry.bytes;
      expiredIds := Without(expiredIds, entry.id);
      start := |log| - |kept|;
      log := log + [entry];
      OneEntry(entry);
    }

    lemma OneEntry(entry: HistoryEntry)
      ensures Bytes([entry]) == entry.bytes
    {
    }

    lemma BeforeInsert(entry: HistoryEntry)
      requires Valid() && Live(entries, clock) && entry.bytes <= maxBytes
      ensures var kept := Evicted(entries, entry, Limits());
              && |kept| <= |entries| && kept == entries[|entries| - |kept|..] && |kept| <= |log|
              && EndOfLog(kept + [entry], log + [entry], |log| - |kept|, Limits(), clock)
              && (entry.expiresAt > clock ==> kept + [entry] == Retained(log + [entry], Limits(), clock))
      ensures Truthful(expiredIds, log, entries, clock) && DistinctTombs(expiredIds) && DistinctIds(entries)
    {
      hide DistinctIds, DistinctTombs, Truthful, Bytes, Evicted, Retained, Ordered;
      var kept := Evicted(entries, entry, Limits());
      Alone(entry);
      EntriesAreEnd(entries, log, start, Limits(), clock);
      NoRoomWithMore(log, start, Limits(), clock, entry);
      InsertKeepsEnd(entries, log, start, Limits(), clock, entry);
      EvictedIsSuffix(entries, entry, Limits());
      if entry.expiresAt > clock {
        InsertedIsRetained(entries, log, start, Limits(), clock, entry);
      }
    }

    lemma Alone(entry: HistoryEntry)
      requires ValidLimits() && entry.bytes <= maxBytes
      ensures RoomFor([], entry, Limits())
    {
    }

    /** The eviction loop. */
    method MakeRoom(entry: HistoryEntry)
      requires ValidLimits() && entry.bytes <= maxBytes && totalBytes == Bytes(entries)
      modifies `entries, `totalBytes
      ensures entries == Evicted(old(entries), entry, Limits()) && totalBytes == Bytes(entries)
    {
      while |entries| >= maxSnapshots || totalBytes + entry.bytes > maxBytes
        invariant Evicted(entries, entry, Limits()) == Evicted(old(entries), entry, Limits())
        invariant totalBytes == Bytes(entries)
        decreases |entries|
      {
        totalBytes := Max(totalBytes - entries[0].bytes, 0);
        entries := entries[1..];
      }
    }

    /** An entry that a diff needs. Expired is reported only of an id that was inserted and
    has expired since. */
    method RequireEntry(id: Str, now: int) returns (r: Result<HistoryEntry, Error>)
      requires Valid() && clock <= now
      modifies this
      ensures Valid() && clock == now && log == old(log) && entries == Retained(log, Limits(), now)
      ensures r.Ok? <==> HasId(entries, id)
      ensures r.Ok? ==> r.value == entries[Find(entries, id).value] && r.value.id == id
      ensures r.Err? ==> r.error == if Buried(expiredIds, id) then Expired else NotFound
      ensures r == Err(Expired) ==> HasExpired(log, id, now)
    {
      hide Ordered, EndOfLog, DistinctIds, DistinctTombs, Bytes, Unstale, Newest, Retained, Stamp;
      var removed := Prune(now);
      match Find(entries, id)
      case Some(i) => r := Ok(entries[i]);
      case None => r := Err(if Buried(expiredIds, id) then Expired else NotFound);
    }

    /** The difference between a snapshot and a retained one. */
    method DiffAgainst(o: Observation, baseId: Str, expected: Option<int>, requireSame: bool, now: int)
      returns (r: Result<Diff, Error>)
      requires Valid() && clock <= now
      modifies this
      ensures Valid() && log == old(log)
      ensures match Prepare(o, None, maxNodes)
              case Err(e) => r == Err(e) && entries == old(entries) && clock == old(clock)
              case Ok(p) =>
                && clock == now && entries == Retained(log, Limits(), now)
                && r == (match Find(entries, baseId)
                         case Some(i) => DiffWith(p.snapshot, entries[i], expected, requireSame)
                         case None => Err(if Buried(expiredIds, baseId) then Expired else NotFound))
    {
      hide Valid, Retained, MakeDiff, NormalizeAll, Find;
      var prepared := Prepare(o, None, maxNodes);
      if prepared.Err? {
        return Err(prepared.error);
      }
      var snapshot := prepared.value.snapshot;
      var base := RequireEntry(baseId, now);
      if base.Err? {
        return Err(base.error);
      }
      var mismatch := RevisionError(snapshot.pageRevision, expected);
      if mismatch.Some? {
        return Err(mismatch.value);
      }
      if requireSame && snapshot.pageRevision != base.value.value.pageRevision {
        return Err(RevisionMismatch);
      }
      r := CompareNodes(base.value.value.nodes, snapshot.targets);
    }

    /** Records a snapshot and compares it with a retained base. The base is looked up
    before the insertion, so an unknown base inserts nothing; but the insertion itself may
    evict the base, and then the call fails although the snapshot has been recorded. */
    method RecordWithDiff(o: Observation, expectedOnRecord: Option<int>, baseId: Option<Str>, expected: Option<int>,
                          requireSame: bool, t0: int, t1: int, t2: int, t3: int)
      returns (r: Result<Recorded, Error>)
      requires Valid() && clock <= t0 <= t1 <= t2 <= t3
      modifies this
      ensures Valid()
      ensures log == old(log) ||
              (Prepare(o, expectedOnRecord, maxNodes).Ok? &&
               log == old(log) + [NewEntry(Prepare(o, expectedOnRecord, maxNodes).value, t1, ttlMs)])
      ensures baseId.Some? && !HasId(Retained(old(log), Limits(), t0), baseId.value) ==>
                r.Err? && (r.error == NotFound || r.error == Expired) && log == old(log)
      ensures r.Ok? ==>
                && Prepare(o, expectedOnRecord, maxNodes).Ok?
                && r.value.snapshot == Prepare(o, expectedOnRecord, maxNodes).value.snapshot
                && (r.value.diff.Some? <==> baseId.Some?)
                && (baseId.Some? ==>
                      && HasId(entries, baseId.value) && Prepare(r.value.snapshot, None, maxNodes).Ok?
                      && Ok(r.value.diff.value) ==
                         DiffWith(Prepare(r.value.snapshot, None, maxNodes).value.snapshot,
                                  entries[Find(entries, baseId.value).value], expected, requireSame))
      ensures log != old(log) && baseId.Some? && baseId.value != o.id ==>
                var p := Prepare(o, expectedOnRecord, maxNodes).value;
                var before, e := Retained(old(log), Limits(), t0), NewEntry(p, t1, ttlMs);
                HasId(before, baseId.value) &&
                var k := Find(before, baseId.value).value;
                (r == Err(NotFound) || r == Err(Expired) <==>
                   Prepare(p.snapshot, None, maxNodes).Ok? &&
                   !(before[k].expiresAt > t3 && RoomFor(before[k..], e, Limits())))
    {
      hide Valid, Retained, MakeDiff, NormalizeAll, Find, RoomFor, HasId, Evicted, Prepare, SameObservation, DiffWith, Buried;
      var base: Option<HistoryEntry> := None;
      if baseId.Some? {
        var found := RequireEntry(baseId.value, t0);
        if found.Err? {
          return Err(found.error);
        }
        base := Some(found.value);
      }
      ghost var before := entries;
      var prepared := Prepare(o, expectedOnRecord, maxNodes);
      if prepared.Err? {
        return Err(prepared.error);
      }
      var p := prepared.value;
      if base.Some? {
        var mismatch := RevisionError(p.snapshot.pageRevision, expected);
        if mismatch.Some? {
          return Err(mismatch.value);
        }
        if requireSame && p.snapshot.pageRevision != base.value.value.pageRevision {
          return Err(RevisionMismatch);
        }
      }
      EntriesAreDistinct();
      var saved := RetainPrepared(p, t1, t2);
      if saved.Err? {
        return Err(saved.error);
      }
      if baseId.None? {
        return Ok(Recorded(saved.value, None));
      }
      var diff := DiffAgainst(saved.value, baseId.value, expected, requireSame, t3);
      if log != old(log) && baseId.value != o.id && Prepare(saved.value, None, maxNodes).Ok? {
        BaseLost(old(log), NewEntry(p, t1, ttlMs), t0, t2, t3, Find(before, baseId.value).value);
      }
      if diff.Err? {
        DiffErrors(saved.value, expected, requireSame, maxNodes, entries, baseId.value);
        return Err(diff.error);
      }
      r := Ok(Recorded(saved.value, Some(diff.value)));
    }

    lemma EntriesAreDistinct()
      requires Valid()
      ensures DistinctIds(entries)
    {
    }

    /** After the diff has looked for it: the base survived exactly when it fitted. */
    lemma BaseLost(before: seq<HistoryEntry>, e: HistoryEntry, t0: int, t2: int, t3: int, k: nat)
      requires Valid() && log == before + [e] && entries == Retained(log, Limits(), t3) && t0 <= t2 <= t3
      requires e.bytes <= maxSnapshotBytes
      requires k < |Retained(before, Limits(), t0)| && DistinctIds(Retained(before, Limits(), t0))
      requires e.id != Retained(before, Limits(), t0)[k].id
      ensures var kept := Retained(before, Limits(), t0);
              HasId(entries, kept[k].id) <==> kept[k].expiresAt > t3 && RoomFor(kept[k..], e, Limits())
    {
      hide Retained, HasId, EndOfLog, DistinctIds, Truthful, DistinctTombs;
      assert forall i :: 0 <= i < |before| ==> log[i] == before[i];
      BaseSurvives(before, Limits(), t0, t2, t3, e, k);
    }
  }
}
