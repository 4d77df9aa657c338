/** Request and response correlation on a CDP connection
(src/browser/raw-cdp-connection.ts). */
module RawCdpConnection {
  import opened Common
  import opened Correlation

  datatype Outcome = Resolved | ProtocolError | TimedOut | SendFailed | SendThrew | ConnectionClosed

  /** `ledger` holds the promises: its pending commands are the unsettled ones. `left` holds
  the commands whose promise was rejected by an exception while their entry stays in the map
  of pending commands. */
  datatype State = State(ledger: Ledger<Outcome>, left: set<Command>, timers: set<Command>, nextId: nat, closed: bool)

  datatype Event =
    | Send(open: bool, throws: bool)   // printing the parameters, or the socket, may throw
    | SendReported(id: Command, failed: bool)
    | Response(id: Command, failed: bool)
    | TimerFires(id: Command)
    | SocketDown
    | CloseCall

  function Fresh(): State { State(Opened(), {}, {}, 0, false) }

  function PendingSet(s: State): set<Command> { set k | k in s.ledger.pending }

  /** The keys of the source's map of pending commands. */
  function Entries(s: State): set<Command> { PendingSet(s) + s.left }

  /** Takes the entries out of the map and settles those that are not settled yet. */
  function SettleAll(s: State, ks: set<Command>, o: Outcome): State {
    s.(ledger := Settle(s.ledger, ks, o), left := s.left - ks, timers := s.timers - ks)
  }

  function HandleClosed(s: State): State { SettleAll(s, Entries(s), ConnectionClosed).(closed := true) }

  function StepSend(s: State, throws: bool): State {
    var id := s.nextId + 1;
    var sent := s.(nextId := id, ledger := Issue(s.ledger, id), timers := s.timers + {id});
    if throws then sent.(ledger := Settle(sent.ledger, {id}, SendThrew), left := s.left + {id}) else sent
  }

  function Step(s: State, e: Event): State {
    match e
    case Send(open, throws) => if s.closed || !open then s else StepSend(s, throws)
    case SendReported(id, failed) => if failed then SettleAll(s, {id}, SendFailed) else s
    case Response(id, failed) => SettleAll(s, {id}, if failed then ProtocolError else Resolved)
    case TimerFires(id) => if id in s.timers then SettleAll(s, {id}, TimedOut) else s
    case SocketDown => HandleClosed(s)
    case CloseCall => if s.closed then s else HandleClosed(s)
  }

  /** Nothing is settled twice; every entry of the map has its timeout armed; the entries left
  behind by an exception are settled; and a closed connection has no entry. */
  ghost predicate Invariant(s: State) {
    && Balanced(s.ledger)
    && (forall k :: k in s.timers <==> k in s.ledger.pending || k in s.left)
    && (forall k :: k in s.left ==> k in s.ledger.issued && k !in s.ledger.pending)
    && (forall k :: k in s.ledger.issued ==> 0 < k <= s.nextId)
    && (s.closed ==> s.ledger.pending == [] && s.left == {})
  }

  lemma SettleAllKeepsInvariant(s: State, ks: set<Command>, o: Outcome)
    requires Invariant(s)
    ensures Invariant(SettleAll(s, ks, o))
  {
    hide Balanced, Outcomes;
    SettleKeepsBalanced(s.ledger, ks, o);
  }

  lemma ClosingKeepsInvariant(s: State)
    requires Invariant(s)
    ensures Invariant(HandleClosed(s)) && HandleClosed(s).ledger.pending == [] && HandleClosed(s).left == {}
  {
    hide Balanced, Outcomes;
    SettleAllKeepsInvariant(s, Entries(s), ConnectionClosed);
    RestOfAll(s.ledger.pending, Entries(s));
  }

  lemma SendKeepsInvariant(s: State, throws: bool)
    requires Invariant(s) && !s.closed
    ensures Invariant(StepSend(s, throws))
  {
    hide Balanced, Outcomes;
    var id := s.nextId + 1;
    IssueKeepsBalanced(s.ledger, id);
    SettleKeepsBalanced(Issue(s.ledger, id), {id}, SendThrew);
  }

  lemma StepKeepsInvariant(s: State, e: Event)
    requires Invariant(s)
    ensures Invariant(Step(s, e))
  {
    hide Invariant, SettleAll, HandleClosed, StepSend;
    match e
    case Send(_, throws) =>
      if !s.closed {
        SendKeepsInvariant(s, throws);
      }
    case SendReported(id, _) => SettleAllKeepsInvariant(s, {id}, SendFailed);
    case Response(id, failed) => SettleAllKeepsInvariant(s, {id}, if failed then ProtocolError else Resolved);
    case TimerFires(id) => SettleAllKeepsInvariant(s, {id}, TimedOut);
    case _ => ClosingKeepsInvariant(s);
  }

  function OutcomeBy(e: Event): Option<(Command, Outcome)> {
    match e
    case SendReported(id, true) => Some((id, SendFailed))
    case Response(id, failed) => Some((id, if failed then ProtocolError else Resolved))
    case TimerFires(id) => Some((id, TimedOut))
    case _ => None
  }

  /** A failed send, a response and a timeout settle the command that they name, if it is
  still unsettled, and no other; either way its entry is gone. */
  lemma EventSettlesOne(s: State, e: Event, other: Command)
    requires Invariant(s) && OutcomeBy(e).Some? && other in s.ledger.pending
    ensures var (k, o), t := OutcomeBy(e).value, Step(s, e);
            && (other in t.ledger.pending <==> other != k)
            && (k in s.ledger.pending ==> exists i :: 0 <= i < |t.ledger.settled| && t.ledger.settled[i] == (k, o))
            && (k !in s.ledger.pending ==> t.ledger == s.ledger)
            && k !in Entries(t)
  {
    hide Outcomes, Balanced;
    var (k, o) := OutcomeBy(e).value;
    if k in s.ledger.pending {
      var i := OutcomeOf(s.ledger.pending, {k}, o, k);
      assert Settle(s.ledger, {k}, o).settled[|s.ledger.settled| + i] == (k, o);
    } else {
      SettleNothing(s.ledger.pending, {k}, o);
      assert s.ledger.settled + [] == s.ledger.settled;
    }
  }

  /** A send that throws rejects its own command at once, and leaves its entry in the map. */
  lemma ThrowingSendLeavesEntry(s: State)
    requires Invariant(s) && !s.closed
    ensures var t, id := Step(s, Send(true, true)), s.nextId + 1;
            && t.ledger.settled == s.ledger.settled + [(id, SendThrew)] && t.ledger.pending == s.ledger.pending
            && Entries(t) == Entries(s) + {id} && id !in Entries(s) && id in t.timers
  {
    hide Balanced, Rest, Outcomes;
    var id := s.nextId + 1;
    assert id !in s.ledger.pending by {
      PendingIsIssued(s.ledger);
    }
    RestAppend(s.ledger.pending, {id}, id);
    OutcomesAppend(s.ledger.pending, {id}, SendThrew, id);
    SettleNothing(s.ledger.pending, {id}, SendThrew);
    assert s.ledger.pending + [] == s.ledger.pending;
  }

  /** A send over an open connection issues one new command, which waits with its timeout
  armed unless the send throws; a send over a closed one issues nothing. */
  lemma SendIssuesOne(s: State, open: bool, throws: bool)
    requires Invariant(s)
    ensures var (t, id) := (Step(s, Send(open, throws)), s.nextId + 1);
            if s.closed || !open then t == s
            else
              && t.ledger.issued == s.ledger.issued + [id] && id !in s.ledger.issued && t.nextId == id && id in t.timers
              && (id in t.ledger.pending <==> !throws) && (throws ==> HasOutcome(t.ledger, id, SendThrew))
  {
    hide Outcomes, Balanced;
    EventGives(s, Send(open, throws), s.nextId + 1, SendThrew);
  }

  lemma PendingIsIssued(l: Ledger<Outcome>)
    requires Balanced(l)
    ensures forall k :: k in l.pending ==> k in l.issued
  {
  }

  function After(trace: seq<Event>, n: nat): State
    requires n <= |trace|
  {
    if n == 0 then Fresh() else Step(After(trace, n - 1), trace[n - 1])
  }

  /** In every run, every command is settled exactly once across responses, timeouts, failed
  and throwing sends and the end of the connection. */
  lemma {:induction false} RunKeepsInvariant(trace: seq<Event>, n: nat)
    requires n <= |trace|
    ensures Invariant(After(trace, n))
  {
    hide Step, Balanced;
    if n == 0 {
      OpenedIsBalanced<Outcome>();
    } else {
      RunKeepsInvariant(trace, n - 1);
      StepKeepsInvariant(After(trace, n - 1), trace[n - 1]);
    }
  }

  /** The end of the connection, by the socket or by a call, settles every unsettled command
  as closed and leaves no entry; no command is issued from then on. */
  lemma ClosingEnds(s: State, e: Event, k: Command)
    requires Invariant(s) && (e.SocketDown? || e.CloseCall?)
    ensures var t := Step(s, e);
            && t.closed && t.ledger.pending == [] && Entries(t) == {}
            && (k in s.ledger.pending ==> HasOutcome(t.ledger, k, ConnectionClosed))
            && forall open, throws :: Step(t, Send(open, throws)) == t
  {
    hide Outcomes, Balanced, HasOutcome;
    EventGives(s, e, k, ConnectionClosed);
    if e.SocketDown? || !s.closed {
      ClosingKeepsInvariant(s);
    }
  }

  lemma {:induction false} ClosedStays(trace: seq<Event>, m: nat, n: nat)
    requires m <= n <= |trace| && After(trace, m).closed
    ensures After(trace, n).closed && After(trace, n).ledger.issued == After(trace, m).ledger.issued
  {
    hide Rest, Outcomes, PendingSet;
    if m < n {
      ClosedStays(trace, m, n - 1);
    }
  }

  /** From the end of the connection on, every command that was ever sent is settled. */
  lemma ClosedLeavesNoneWaiting(trace: seq<Event>, m: nat, n: nat, k: Command)
    requires m <= n <= |trace| && After(trace, m).closed && k in After(trace, n).ledger.issued
    ensures k !in After(trace, n).ledger.pending && IsSettled(After(trace, n).ledger, k)
  {
    hide After, IsSettled;
    ClosedStays(trace, m, n);
    RunKeepsInvariant(trace, n);
  }

  /** Does the event give command k this outcome? */
  predicate Causes(s: State, e: Event, k: Command, o: Outcome) {
    match e
    case Send(open, throws) => !s.closed && open && throws && k == s.nextId + 1 && o == SendThrew
    case SendReported(id, failed) => failed && id == k && k in s.ledger.pending && o == SendFailed
    case Response(id, failed) => id == k && k in s.ledger.pending && o == (if failed then ProtocolError else Resolved)
    case TimerFires(id) => id == k && k in s.ledger.pending && o == TimedOut
    case _ => k in s.ledger.pending && o == ConnectionClosed
  }

  /** An event gives command k the outcome o exactly when it is a cause of it. */
  lemma EventGives(s: State, e: Event, k: Command, o: Outcome)
    requires Invariant(s)
    ensures HasOutcome(Step(s, e).ledger, k, o) <==> HasOutcome(s.ledger, k, o) || Causes(s, e, k, o)
  {
    hide Settle, HasOutcome, Balanced;
    match e
    case Send(open, throws) =>
      if !s.closed && open {
        var id := s.nextId + 1;
        IssueGives(s.ledger, id, k, o);
        SettleGives(Issue(s.ledger, id), {id}, SendThrew, k, o);
      }
    case SendReported(id, _) => SettleGives(s.ledger, {id}, SendFailed, k, o);
    case Response(id, failed) => SettleGives(s.ledger, {id}, if failed then ProtocolError else Resolved, k, o);
    case TimerFires(id) => SettleGives(s.ledger, {id}, TimedOut, k, o);
    case _ => SettleGives(s.ledger, Entries(s), ConnectionClosed, k, o);
  }

  lemma IssueGives(l: Ledger<Outcome>, n: Command, k: Command, o: Outcome)
    ensures HasOutcome(Issue(l, n), k, o) <==> HasOutcome(l, k, o)
    ensures n in Issue(l, n).pending
  {
  }

  /** In every run, a command has an outcome exactly when one of the events so far was a cause
  of it. */
  lemma {:induction false} OutcomeHasCause(trace: seq<Event>, n: nat, k: Command, o: Outcome)
    requires n <= |trace|
    ensures HasOutcome(After(trace, n).ledger, k, o) <==> exists m :: 0 <= m < n && Causes(After(trace, m), trace[m], k, o)
  {
    hide Step, Causes;
    if n > 0 {
      OutcomeHasCause(trace, n - 1, k, o);
      RunKeepsInvariant(trace, n - 1);
      EventGives(After(trace, n - 1), trace[n - 1], k, o);
    }
  }

  // ----- when the map is exactly the unsettled commands -----

  /** Does the event take the entry of command k out of the map? */
  predicate TakesOut(e: Event, k: Command) {
    match e
    case Send(_, _) => false
    case SendReported(id, failed) => failed && id == k
    case Response(id, _) => id == k
    case TimerFires(id) => id == k
    case _ => true
  }

  /** Did event m send command k and throw, with nothing to take its entry out before n: no
  timeout, no answer and no close? */
  predicate LeftBy(trace: seq<Event>, m: nat, n: nat, k: Command)
    requires n <= |trace|
  {
    && m < n && trace[m] == Send(true, true) && !After(trace, m).closed && k == After(trace, m).nextId + 1
    && forall j :: m < j < n ==> !TakesOut(trace[j], k)
  }

  lemma StepLeft(s: State, e: Event, k: Command)
    requires Invariant(s)
    ensures k in Step(s, e).left <==>
              (k in s.left && !TakesOut(e, k)) || (e == Send(true, true) && !s.closed && k == s.nextId + 1)
  {
    hide Balanced, Rest, Outcomes;
  }

  lemma {:induction false} LeftIsLeftBy(trace: seq<Event>, n: nat, k: Command)
    requires n <= |trace|
    ensures k in After(trace, n).left <==> exists m :: LeftBy(trace, m, n, k)
  {
    hide Step, TakesOut, Invariant;
    if n > 0 {
      var s, e := After(trace, n - 1), trace[n - 1];
      RunKeepsInvariant(trace, n - 1);
      LeftIsLeftBy(trace, n - 1, k);
      StepLeft(s, e, k);
      if k in s.left && !TakesOut(e, k) {
        var m: nat :| LeftBy(trace, m, n - 1, k);
        assert LeftBy(trace, m, n, k);
      } else if k in After(trace, n).left {
        assert LeftBy(trace, n - 1, n, k);
      }
      if m: nat :| LeftBy(trace, m, n, k) {
        if m < n - 1 {
          assert LeftBy(trace, m, n - 1, k);
        }
      }
    }
  }

  /** The map holds exactly the unsettled commands if and only if no send has thrown whose
  timeout, answer or close is still to come. */
  lemma MapIsUnsettled(trace: seq<Event>, n: nat)
    requires n <= |trace|
    ensures (forall k :: k in Entries(After(trace, n)) <==> Unsettled(After(trace, n), k)) <==>
              !exists m, k :: LeftBy(trace, m, n, k)
  {
    hide After, LeftBy;
    var s := After(trace, n);
    RunKeepsInvariant(trace, n);
    forall k
      ensures k in s.left <==> exists m :: LeftBy(trace, m, n, k)
    {
      LeftIsLeftBy(trace, n, k);
    }
    EntriesAreUnsettled(s);
    if k :| k in s.left {
      var m: nat :| LeftBy(trace, m, n, k);
    }
    if m: nat, k :| LeftBy(trace, m, n, k) {
      assert k in s.left;
    }
  }

  predicate Unsettled(s: State, k: Command) { k in s.ledger.issued && !IsSettled(s.ledger, k) }

  lemma EntriesAreUnsettled(s: State)
    requires Invariant(s)
    ensures (forall k :: k in Entries(s) <==> Unsettled(s, k)) <==> s.left == {}
  {
    hide IsSettled;
    if k :| k in s.left {
      assert k in Entries(s) && !Unsettled(s, k);
    }
  }

  // ----- the class -----

  class Connection {
    var pending: seq<Command>       // the keys of a map, in insertion order
    var timers: set<Command>
    var nextId: nat
    var closed: bool
    ghost var issued: seq<Command>
    ghost var settled: seq<(Command, Outcome)>
    ghost var left: set<Command>

    ghost function ToState(): State
      reads this
    {
      State(Ledger(issued, Rest(pending, left), settled), left, timers, nextId, closed)
    }

    ghost predicate Valid()
      reads this
    {
      Invariant(ToState()) && Distinct(pending) && forall k :: k in left ==> k in pending
    }

    constructor ()
      ensures Valid() && ToState() == Fresh()
    {
      pending, timers, nextId, closed, issued, settled, left := [], {}, 0, false, [], [], {};
      new;
      OpenedIsBalanced<Outcome>();
    }

    /** The id, unless the call fails at once or printing or sending throws. */
    method SendCommand(open: bool, throws: bool) returns (id: Option<Command>)
      requires Valid()
      modifies this
      ensures Valid() && ToState() == Step(old(ToState()), Send(open, throws))
      ensures id == if old(closed) || !open || throws then None else Some(nextId)
    {
      hide Balanced, Rest, Outcomes;
      if closed || !open {
        return None;
      }
      ghost var before := ToState();
      SendKeepsInvariant(before, throws);
      nextId := nextId + 1;
      timers := timers + {nextId};
      EntriesAreIssued(before, pending, nextId);
      RestAppend(pending, left, nextId);
      pending := pending + [nextId];
      issued := issued + [nextId];
      if throws {
        ThrowingSendLeavesEntry(before);
        LeftBehind(pending[..|pending| - 1], left, nextId);
        settled := settled + [(nextId, SendThrew)];
        left := left + {nextId};
        return None;
      }
      id := Some(nextId);
    }

    method SettleOne(id: Command, o: Outcome)
      requires Valid()
      modifies `pending, `timers, `settled, `left
      ensures Valid() && ToState() == SettleAll(old(ToState()), {id}, o)
    {
      hide Rest, Outcomes, Balanced;
      SettleAllKeepsInvariant(ToState(), {id}, o);
      EntriesStay(pending, left, id, o);
      var found := IndexOf(pending, id);
      if found.Some? {
        SettleFound(pending, found.value, o);
        RestIsDistinct(pending, {id});
        timers := timers - {id};
        pending := pending[..found.value] + pending[found.value + 1..];
        settled := settled + (if id in left then [] else [(id, o)]);
      } else {
        assert timers - {id} == timers by {
          assert id !in Rest(pending, left);
        }
        assert settled + [] == settled;
      }
      left := left - {id};
    }

    method HandleSendReport(id: Command, failed: bool)
      requires Valid()
      modifies this
      ensures Valid() && ToState() == Step(old(ToState()), SendReported(id, failed))
    {
      if failed {
        SettleOne(id, SendFailed);
      }
    }

    method HandleResponse(id: Command, failed: bool)
      requires Valid()
      modifies this
      ensures Valid() && ToState() == Step(old(ToState()), Response(id, failed))
    {
      SettleOne(id, if failed then ProtocolError else Resolved);
    }

    method HandleTimeout(id: Command)
      requires Valid() && id in timers
      modifies this
      ensures Valid() && ToState() == Step(old(ToState()), TimerFires(id))
    {
      SettleOne(id, TimedOut);
    }

    /** The socket has closed or failed; may be called again. Rejecting a promise that is
    settled does nothing. */
    method HandleClose()
      requires Valid()
      modifies this
      ensures Valid() && ToState() == Step(old(ToState()), SocketDown)
    {
      hide Rest, Outcomes, Balanced;
      closed := true;
      ghost var ks := Entries(ToState());
      NoOutcomes(left, ks);
      for i := 0 to |pending|
        invariant pending == old(pending) && issued == old(issued) && nextId == old(nextId) && left == old(left) && closed
        invariant settled == old(settled) + Outcomes(Rest(pending[..i], left), ks, ConnectionClosed)
        invariant timers == old(timers) - (set k | k in pending[..i])
      {
        RestAppend(pending[..i], left, pending[i]);
        OutcomesAppend(Rest(pending[..i], left), ks, ConnectionClosed, pending[i]);
        assert pending[..i + 1] == pending[..i] + [pending[i]];
        assert pending[i] in ks;
        timers := timers - {pending[i]};
        settled := settled + (if pending[i] in left then [] else [(pending[i], ConnectionClosed)]);
        assert Rest(pending[..i], left) + [] == Rest(pending[..i], left);
      }
      assert pending[..|pending|] == pending;
      ClosingKeepsInvariant(old(ToState()));
      pending := [];
      left := {};
      RestOfAll([], {});
    }

    method Close()
      requires Valid()
      modifies this
      ensures Valid() && ToState() == Step(old(ToState()), CloseCall)
    {
      if !closed {
        HandleClose();
      }
    }
  }

  lemma NoOutcomes(left: set<Command>, ks: set<Command>)
    ensures Outcomes(Rest([], left), ks, ConnectionClosed) == []
  {
  }

  lemma EntriesAreIssued(s: State, pending: seq<Command>, id: Command)
    requires Invariant(s) && s.nextId < id && s.ledger.pending == Rest(pending, s.left)
    requires forall k :: k in s.left ==> k in pending
    ensures id !in pending && id !in s.left
  {
    assert id in pending ==> id in s.left || id in Rest(pending, s.left);
  }

  /** A new entry that counts as left behind hides from the unsettled ones. */
  lemma LeftBehind(pending: seq<Command>, left: set<Command>, id: Command)
    requires id !in pending && id !in left
    ensures Rest(pending + [id], left + {id}) == Rest(pending, left)
  {
    RestTwice(pending + [id], left, {id});
    RestAppend(pending, left, id);
    RestAppend(Rest(pending, left), {id}, id);
    SettleNothing(Rest(pending, left), {id}, SendThrew);
  }

  /** What taking one entry out of the map means for the unsettled commands. */
  lemma EntriesStay(pending: seq<Command>, left: set<Command>, id: Command, o: Outcome)
    requires Distinct(pending)
    ensures Rest(Rest(pending, {id}), left - {id}) == Rest(Rest(pending, left), {id})
    ensures Outcomes(Rest(pending, left), {id}, o) == if id in pending && id !in left then [(id, o)] else []
    ensures id !in pending ==> Rest(pending, {id}) == pending
  {
    RestTwice(pending, {id}, left - {id});
    RestTwice(pending, left, {id});
    assert {id} + (left - {id}) == left + {id};
    var rest := Rest(pending, left);
    if id in rest {
      RestIsDistinct(pending, left);
      var i := IndexOf(rest, id).value;
      SettleFound(rest, i, o);
    } else {
      SettleNothing(rest, {id}, o);
    }
    if id !in pending {
      SettleNothing(pending, {id}, o);
    }
  }

  function IndexOf(s: seq<Command>, k: Command): (r: Option<nat>)
    ensures r.Some? ==> r.value < |s| && s[r.value] == k
    ensures r.None? ==> k !in s
  {
    if s == [] then None
    else if s[0] == k then Some(0)
    else
      assert forall x :: x in s ==> x == s[0] || x in s[1..];
      match IndexOf(s[1..], k)
      case None => None
      case Some(i) => Some(i + 1)
  }

  lemma SettleFound(pending: seq<Command>, i: nat, o: Outcome)
    requires i < |pending| && Distinct(pending)
    ensures Rest(pending, {pending[i]}) == pending[..i] + pending[i + 1..]
    ensures Outcomes(pending, {pending[i]}, o) == [(pending[i], o)]
  {
    var k := pending[i];
    assert pending == pending[..i] + ([k] + pending[i + 1..]);
    SettleAround(pending[..i], k, pending[i + 1..], o);
  }
}
