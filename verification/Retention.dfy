/** What a cache bounded by age, count and bytes should hold: the longest suffix of its
insertion log that is unexpired and fits. Used for the snapshot history and for the two
action caches. */
module Retention {
  import opened Common
  import opened Text

  datatype Entry<+T> = Entry(id: Str, expiresAt: int, bytes: nat, value: T)

  datatype Limits = Limits(count: nat, bytes: nat)

  function Bytes<T>(s: seq<Entry<T>>): nat {
    if s == [] then 0 else s[0].bytes + Bytes(s[1..])
  }

  predicate Fits<T>(s: seq<Entry<T>>, limits: Limits) {
    |s| <= limits.count && Bytes(s) <= limits.bytes
  }

  predicate Live<T>(s: seq<Entry<T>>, now: int) {
    forall i :: 0 <= i < |s| ==> s[i].expiresAt > now
  }

  /** Later insertions expire no earlier. */
  predicate Ordered<T>(s: seq<Entry<T>>) {
    forall i, j :: 0 <= i < j < |s| ==> s[i].expiresAt <= s[j].expiresAt
  }

  lemma OrderedSuffix<T>(s: seq<Entry<T>>, k: nat)
    requires k <= |s| && Ordered(s)
    ensures Ordered(s[k..])
  {
  }

  lemma FirstExpiresFirst<T>(s: seq<Entry<T>>, i: nat)
    requires Ordered(s) && i < |s|
    ensures s[0].expiresAt <= s[i].expiresAt
  {
  }

  // ----- entries by id -----

  predicate HasId<T>(entries: seq<Entry<T>>, id: Str) {
    exists i :: 0 <= i < |entries| && entries[i].id == id
  }

  predicate DistinctIds<T>(entries: seq<Entry<T>>) {
    forall i, j :: 0 <= i < j < |entries| ==> entries[i].id != entries[j].id
  }

  function Find<T>(entries: seq<Entry<T>>, id: Str): (r: Option<nat>)
    ensures r.Some? <==> HasId(entries, id)
    ensures r.Some? ==> r.value < |entries| && entries[r.value].id == id
  {
    if entries == [] then None
    else if entries[0].id == id then Some(0)
    else
      assert forall i :: 1 <= i < |entries| ==> entries[1..][i - 1] == entries[i];
      match Find(entries[1..], id)
      case None => None
      case Some(i) => Some(i + 1)
  }

  // ----- the longest suffix -----

  /** The longest suffix of the log that is unexpired and fits. */
  function Retained<T(==)>(log: seq<Entry<T>>, limits: Limits, now: int): seq<Entry<T>> {
    if log == [] || (Fits(log, limits) && Live(log, now)) then log else Retained(log[1..], limits, now)
  }

  lemma {:induction false} BytesConcat<T>(a: seq<Entry<T>>, b: seq<Entry<T>>)
    ensures Bytes(a + b) == Bytes(a) + Bytes(b)
  {
    if a == [] {
      assert a + b == b;
    } else {
      assert (a + b)[1..] == a[1..] + b;
      BytesConcat(a[1..], b);
    }
  }

  lemma BytesOfSuffix<T>(s: seq<Entry<T>>, k: nat)
    requires k <= |s|
    ensures Bytes(s[k..]) <= Bytes(s)
  {
    BytesConcat(s[..k], s[k..]);
    assert s[..k] + s[k..] == s;
  }

  /** It is a suffix, it is unexpired and fits, and every longer suffix is not. */
  lemma {:induction false} RetainedIsLongest<T>(log: seq<Entry<T>>, limits: Limits, now: int)
    ensures var r := Retained(log, limits, now);
            && |r| <= |log| && r == log[|log| - |r|..] && Live(r, now) && Fits(r, limits)
            && forall k :: 0 <= k < |log| - |r| ==> !(Fits(log[k..], limits) && Live(log[k..], now))
  {
    if log != [] && !(Fits(log, limits) && Live(log, now)) {
      var rest := log[1..];
      RetainedIsLongest(rest, limits, now);
      var r := Retained(log, limits, now);
      assert log[|log| - |r|..] == rest[|rest| - |r|..];
      forall k | 0 <= k < |log| - |r|
        ensures !(Fits(log[k..], limits) && Live(log[k..], now))
      {
        assert if k == 0 then log[k..] == log else log[k..] == rest[k - 1..];
      }
    }
  }

  /** A suffix that is unexpired and fits, while the next longer one is not, is it. */
  lemma {:induction false} RetainedFrom<T>(log: seq<Entry<T>>, limits: Limits, now: int, k: nat)
    requires k <= |log| && Live(log[k..], now) && Fits(log[k..], limits)
    requires k > 0 ==> !(Fits(log[k - 1..], limits) && Live(log[k - 1..], now))
    ensures Retained(log, limits, now) == log[k..]
  {
    if k == 0 {
      assert log[0..] == log;
    } else {
      var rest := log[1..];
      assert rest[k - 1..] == log[k..];
      if k > 1 {
        assert rest[k - 2..] == log[k - 1..];
      }
      TooLongIsTooLong(log, limits, now, k - 1);
      RetainedFrom(rest, limits, now, k - 1);
    }
  }

  lemma TooLongIsTooLong<T>(log: seq<Entry<T>>, limits: Limits, now: int, k: nat)
    requires k <= |log| && !(Fits(log[k..], limits) && Live(log[k..], now))
    ensures !(Fits(log, limits) && Live(log, now))
  {
    BytesOfSuffix(log, k);
    LiveSuffix(log, now, k);
  }

  lemma LiveSuffix<T>(s: seq<Entry<T>>, now: int, k: nat)
    requires k <= |s|
    ensures Live(s, now) ==> Live(s[k..], now)
  {
  }

  // ----- the state of a cache between its operations -----

  /** The entries are the end of the log from `start` on, they fit, and the entry before
  them could not be kept: it does not fit with them or has expired. */
  predicate EndOfLog<T(==)>(entries: seq<Entry<T>>, log: seq<Entry<T>>, start: nat, limits: Limits, clock: int) {
    && start <= |log| && entries == log[start..] && Fits(entries, limits)
    && (start > 0 ==> !Fits(log[start - 1..], limits) || log[start - 1].expiresAt <= clock)
  }

  /** Once its expired entries are gone, a cache in that state holds exactly the longest
  suffix. */
  lemma EndOfLogIsRetained<T>(entries: seq<Entry<T>>, log: seq<Entry<T>>, start: nat, limits: Limits, now: int)
    requires EndOfLog(entries, log, start, limits, now) && Live(entries, now)
    ensures entries == Retained(log, limits, now)
  {
    if start > 0 && log[start - 1].expiresAt <= now {
      assert log[start - 1..][0] == log[start - 1];
    }
    RetainedFrom(log, limits, now, start);
  }

  lemma EndOfLogLater<T>(entries: seq<Entry<T>>, log: seq<Entry<T>>, start: nat, limits: Limits, clock: int, now: int)
    requires EndOfLog(entries, log, start, limits, clock) && clock <= now
    ensures EndOfLog(entries, log, start, limits, now)
  {
  }

  /** Dropping the first entry, once it has expired, keeps the state. */
  lemma DropExpired<T>(entries: seq<Entry<T>>, log: seq<Entry<T>>, start: nat, limits: Limits, now: int)
    requires EndOfLog(entries, log, start, limits, now) && entries != [] && entries[0].expiresAt <= now
    ensures EndOfLog(entries[1..], log, start + 1, limits, now)
  {
    BytesOfSuffix(entries, 1);
    assert log[start] == entries[0];
  }

  /** The first entry, when the new one does not fit beside all the others, may go. */
  predicate RoomFor<T>(entries: seq<Entry<T>>, e: Entry<T>, limits: Limits) {
    |entries| < limits.count && Bytes(entries) + e.bytes <= limits.bytes
  }

  /** Evicting while there is no room: what the eviction loop computes. */
  function Evicted<T>(entries: seq<Entry<T>>, e: Entry<T>, limits: Limits): seq<Entry<T>> {
    if entries == [] || RoomFor(entries, e, limits) then entries else Evicted(entries[1..], e, limits)
  }

  lemma FitsWithNew<T>(s: seq<Entry<T>>, e: Entry<T>, limits: Limits)
    ensures Fits(s + [e], limits) <==> RoomFor(s, e, limits)
  {
    BytesConcat(s, [e]);
  }

  /** Evicting and then inserting keeps the state: the log grows by the new entry. */
  lemma {:induction false} InsertKeepsEnd<T>(entries: seq<Entry<T>>, log: seq<Entry<T>>, start: nat, limits: Limits, clock: int, e: Entry<T>)
    requires start <= |log| && entries == log[start..]
    requires start > 0 ==> !RoomFor(log[start - 1..], e, limits) || log[start - 1].expiresAt <= clock
    requires RoomFor([], e, limits)
    ensures var kept := Evicted(entries, e, limits);
            |kept| <= |log| && EndOfLog(kept + [e], log + [e], |log| - |kept|, limits, clock)
  {
    hide Fits, RoomFor;
    if entries == [] || RoomFor(entries, e, limits) {
      FitsWithNew(entries, e, limits);
      assert (log + [e])[start..] == entries + [e];
      if start > 0 {
        FitsWithNew(log[start - 1..], e, limits);
        assert (log + [e])[start - 1..] == log[start - 1..] + [e];
      }
    } else {
      assert entries[1..] == log[start + 1..];
      InsertKeepsEnd(entries[1..], log, start + 1, limits, clock, e);
    }
  }

  lemma {:induction false} EvictedIsSuffix<T>(entries: seq<Entry<T>>, e: Entry<T>, limits: Limits)
    ensures |Evicted(entries, e, limits)| <= |entries|
    ensures Evicted(entries, e, limits) == entries[|entries| - |Evicted(entries, e, limits)|..]
  {
    hide RoomFor;
    if entries != [] && !RoomFor(entries, e, limits) {
      EvictedIsSuffix(entries[1..], e, limits);
    }
  }

  lemma NoRoomWithMore<T>(log: seq<Entry<T>>, start: nat, limits: Limits, clock: int, e: Entry<T>)
    requires start <= |log| && EndOfLog(log[start..], log, start, limits, clock)
    ensures start > 0 ==> !RoomFor(log[start - 1..], e, limits) || log[start - 1].expiresAt <= clock
  {
  }

  /** So an insertion at `clock` of an entry that is not born expired makes the cache the
  longest suffix of the longer log. */
  lemma InsertedIsRetained<T>(entries: seq<Entry<T>>, log: seq<Entry<T>>, start: nat, limits: Limits, clock: int, e: Entry<T>)
    requires EndOfLog(entries, log, start, limits, clock) && Live(entries, clock)
    requires RoomFor([], e, limits) && e.expiresAt > clock
    ensures Evicted(entries, e, limits) + [e] == Retained(log + [e], limits, clock)
  {
    hide Evicted, RoomFor, EndOfLog, Retained;
    var kept := Evicted(entries, e, limits);
    EntriesAreEnd(entries, log, start, limits, clock);
    NoRoomWithMore(log, start, limits, clock, e);
    InsertKeepsEnd(entries, log, start, limits, clock, e);
    EvictedIsSuffix(entries, e, limits);
    LiveSuffix(entries, clock, |entries| - |kept|);
    EndOfLogIsRetained(kept + [e], log + [e], |log| - |kept|, limits, clock);
  }

  lemma EntriesAreEnd<T>(entries: seq<Entry<T>>, log: seq<Entry<T>>, start: nat, limits: Limits, clock: int)
    requires EndOfLog(entries, log, start, limits, clock)
    ensures start <= |log| && entries == log[start..]
  {
  }

  /** An entry survives an insertion exactly when it fits together with everything newer
  than it and the new entry. */
  lemma {:induction false} SurvivesInsertion<T>(entries: seq<Entry<T>>, e: Entry<T>, limits: Limits, k: nat)
    requires k < |entries| && Fits(entries, limits) && Fits([e], limits)
    ensures |entries| - |Evicted(entries, e, limits)| <= k <==> RoomFor(entries[k..], e, limits)
  {
    BytesOfSuffix(entries, k);
    if RoomFor(entries, e, limits) {
    } else if k == 0 {
      assert entries[0..] == entries;
      EvictedIsSuffix(entries[1..], e, limits);
    } else {
      BytesOfSuffix(entries, 1);
      assert entries[1..][k - 1..] == entries[k..];
      SurvivesInsertion(entries[1..], e, limits, k - 1);
    }
  }

  // ----- time passes -----

  lemma {:induction false} ExpiredPrefix<T>(s: seq<Entry<T>>, now: int) returns (n: nat)
    requires Ordered(s)
    ensures n <= |s| && Live(s[n..], now) && forall i :: 0 <= i < n ==> s[i].expiresAt <= now
  {
    if s == [] || s[0].expiresAt > now {
      n := 0;
      assert s[0..] == s;
    } else {
      OrderedSuffix(s, 1);
      n := ExpiredPrefix(s[1..], now);
      assert s[1..][n..] == s[n + 1..];
      n := n + 1;
    }
  }

  /** Pruning a cache drops a prefix of it, which has expired, and keeps the rest. */
  lemma PrunedEnd<T>(entries: seq<Entry<T>>, log: seq<Entry<T>>, start: nat, limits: Limits, clock: int, now: int) returns (n: nat)
    requires EndOfLog(entries, log, start, limits, clock) && clock <= now && Ordered(log)
    ensures n <= |entries| && Retained(log, limits, now) == entries[n..] && Live(entries[n..], now)
    ensures forall i :: 0 <= i < n ==> entries[i].expiresAt <= now
  {
    OrderedSuffix(log, start);
    n := ExpiredPrefix(entries, now);
    BytesOfSuffix(entries, n);
    assert log[start + n..] == entries[n..];
    if n > 0 {
      assert log[start + n - 1] == entries[n - 1];
    }
    EndOfLogIsRetained(entries[n..], log, start + n, limits, now);
  }

  lemma RetainedIsEnd<T>(log: seq<Entry<T>>, limits: Limits, now: int)
    ensures var r := Retained(log, limits, now);
            |r| <= |log| && EndOfLog(r, log, |log| - |r|, limits, now) && Live(r, now)
  {
    RetainedIsLongest(log, limits, now);
    var r := Retained(log, limits, now);
    var start := |log| - |r|;
    if start > 0 && Fits(log[start - 1..], limits) && log[start - 1].expiresAt > now {
      OneMoreLive(log, start, now);
    }
  }

  lemma OneMoreLive<T>(log: seq<Entry<T>>, start: nat, now: int)
    requires 0 < start <= |log| && Live(log[start..], now) && log[start - 1].expiresAt > now
    ensures Live(log[start - 1..], now)
  {
    assert log[start - 1..] == [log[start - 1]] + log[start..];
  }

  /** What survives: an entry that was retained at t0 is still retained at t3, after an
  insertion at t2, exactly when it has not expired by t3 and fits with everything newer
  than it and the new entry. */
  lemma SurvivesUntil<T>(log: seq<Entry<T>>, limits: Limits, t0: int, t2: int, t3: int, e: Entry<T>, k: nat)
    returns (n: nat, m: nat)
    requires t0 <= t2 <= t3 && Ordered(log) && Ordered(log + [e]) && RoomFor([], e, limits)
    requires k < |Retained(log, limits, t0)|
    ensures var before := Retained(log, limits, t0);
            var inserted := Evicted(Retained(log, limits, t2), e, limits) + [e];
            var after := Retained(log + [e], limits, t3);
            && n <= |before| && inserted == before[n..] + [e]
            && m <= |inserted| && after == inserted[m..]
            && (n + m <= k <==> before[k].expiresAt > t3 && RoomFor(before[k..], e, limits))
  {
    hide Evicted, RoomFor, Retained, EndOfLog, Fits, Ordered, Live;
    var before, later := Retained(log, limits, t0), Retained(log, limits, t2);
    var kept := Evicted(later, e, limits);
    RetainedIsEnd(log, limits, t0);
    var gone := PrunedEnd(before, log, |log| - |before|, limits, t0, t2);
    InsertedEnd(log, limits, t2, e);
    n := gone + (|later| - |kept|);
    SuffixOfSuffix(before, gone, |later| - |kept|);
    m := PrunedEnd(kept + [e], log + [e], |log| - |kept|, limits, t2, t3);
    SurvivalIndex(before, later, gone, kept, m, t2, t3, e, limits, k);
  }

  lemma SuffixOfSuffix<T>(s: seq<T>, a: nat, b: nat)
    requires a + b <= |s|
    ensures s[a..][b..] == s[a + b..]
  {
  }

  lemma InsertedEnd<T>(log: seq<Entry<T>>, limits: Limits, now: int, e: Entry<T>)
    requires RoomFor([], e, limits)
    ensures var later := Retained(log, limits, now);
            var kept := Evicted(later, e, limits);
            && |kept| <= |later| <= |log| && kept == later[|later| - |kept|..] && Fits(later, limits)
            && EndOfLog(kept + [e], log + [e], |log| - |kept|, limits, now)
  {
    hide Evicted, RoomFor, Retained, EndOfLog, Fits, Live;
    var later := Retained(log, limits, now);
    RetainedIsLongest(log, limits, now);
    EvictedIsSuffix(later, e, limits);
    NoRoomBeyond(log, limits, now, e);
    InsertKeepsEnd(later, log, |log| - |later|, limits, now, e);
  }

  lemma NoRoomBeyond<T>(log: seq<Entry<T>>, limits: Limits, now: int, e: Entry<T>)
    requires |Retained(log, limits, now)| <= |log|
    ensures var start := |log| - |Retained(log, limits, now)|;
            && log[start..] == Retained(log, limits, now)
            && (start > 0 ==> !RoomFor(log[start - 1..], e, limits) || log[start - 1].expiresAt <= now)
  {
    RetainedIsEnd(log, limits, now);
    NoRoomWithMore(log, |log| - |Retained(log, limits, now)|, limits, now, e);
  }

  lemma SurvivalIndex<T>(before: seq<Entry<T>>, later: seq<Entry<T>>, gone: nat, kept: seq<Entry<T>>, m: nat, t2: int, t3: int, e: Entry<T>, limits: Limits, k: nat)
    requires t2 <= t3 && gone <= |before| && later == before[gone..] && k < |before|
    requires forall i :: 0 <= i < gone ==> before[i].expiresAt <= t2
    requires Fits(later, limits) && RoomFor([], e, limits) && kept == Evicted(later, e, limits)
    requires |kept| <= |later| && kept == later[|later| - |kept|..]
    requires m <= |kept| + 1 && Live((kept + [e])[m..], t3) && forall i :: 0 <= i < m ==> (kept + [e])[i].expiresAt <= t3
    ensures gone + |later| - |kept| + m <= k <==> before[k].expiresAt > t3 && RoomFor(before[k..], e, limits)
  {
    hide Evicted, RoomFor;
    if k >= gone {
      assert later[k - gone..] == before[k..];
      FitsAlone(e, limits);
      SurvivesInsertion(later, e, limits, k - gone);
      var i := k - gone - (|later| - |kept|);
      if i >= 0 {
        assert (kept + [e])[i] == before[k];
        if i >= m {
          assert (kept + [e])[m..][i - m] == before[k];
        }
      }
    }
  }

  lemma FitsAlone<T>(e: Entry<T>, limits: Limits)
    ensures RoomFor([], e, limits) <==> Fits([e], limits)
  {
    FitsWithNew([], e, limits);
    assert [] + [e] == [e];
  }
}