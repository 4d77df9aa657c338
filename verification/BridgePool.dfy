/** Commands to browser extensions over their bridge sockets
(src/control-plane/browser-pool.ts): every interleaving of calls, answers, timeouts,
reconnections, disconnections and stops. */
module BridgePool {
  import opened Common
  import opened Text
  import opened Correlation

  type Socket = nat

  datatype Outcome = Answered(ok: bool) | TimedOut | SendFailed | Disconnected | Stopped | TooLarge

  datatype State = State(
    ledger: Ledger<Outcome>,
    browserOf: map<Command, Str>,     // the browser of every command issued
    sockets: map<Str, Socket>,        // the current socket of each browser
    timers: set<Command>,             // timeouts that are armed
    next: Command)

  datatype Event =
    | Attach(id: Str, socket: Socket)
    | CallBridge(id: Str, open: bool, sent: bool)
    | Message(id: Str, request: Option<Command>, ok: bool)
    | Oversize(id: Str)
    | TimerFires(command: Command)
    | Closed(id: Str, socket: Socket)
    | StopBrowser(id: Str)

  function Fresh(): State { State(Opened(), map[], map[], {}, 0) }

  function CallsTo(s: State, id: Str): set<Command> {
    set k | k in s.ledger.pending && k in s.browserOf && s.browserOf[k] == id
  }

  /** Settles commands and disarms their timeouts. */
  function SettleAll(s: State, ks: set<Command>, o: Outcome): State {
    s.(ledger := Settle(s.ledger, ks, o), timers := s.timers - ks)
  }

  function Reject(s: State, id: Str, o: Outcome): State { SettleAll(s, CallsTo(s, id), o) }

  function Step(s: State, e: Event): State {
    match e
    case Attach(id, socket) => s.(sockets := s.sockets[id := socket])
    case CallBridge(id, open, sent) =>
      if id !in s.sockets || !open then s
      else
        var issued := s.(ledger := Issue(s.ledger, s.next), browserOf := s.browserOf[s.next := id],
                         timers := s.timers + {s.next}, next := s.next + 1);
        if sent then issued else SettleAll(issued, {s.next}, SendFailed)
    case Message(id, request, ok) =>
      if request.Some? && request.value in s.ledger.pending && request.value in s.browserOf && s.browserOf[request.value] == id
      then SettleAll(s, {request.value}, Answered(ok)) else s
    case Oversize(id) => Reject(s, id, TooLarge)
    case TimerFires(request) => if request in s.timers then SettleAll(s, {request}, TimedOut) else s
    case Closed(id, socket) =>
      if id in s.sockets && s.sockets[id] == socket then Reject(s.(sockets := s.sockets - {id}), id, Disconnected) else s
    case StopBrowser(id) => Reject(s.(sockets := s.sockets - {id}), id, Stopped)
  }

  /** Every command is settled at most once, exactly the unsettled ones are pending, and each
  of those has its timeout armed. */
  ghost predicate Invariant(s: State) {
    && Balanced(s.ledger)
    && (forall k :: k in s.timers <==> k in s.ledger.pending)
    && (forall k :: k in s.ledger.issued <==> k in s.browserOf)
    && (forall k :: k in s.ledger.issued ==> k < s.next)
  }

  lemma SettleAllKeepsInvariant(s: State, ks: set<Command>, o: Outcome)
    requires Invariant(s)
    ensures Invariant(SettleAll(s, ks, o))
  {
    hide Balanced, Outcomes;
    SettleKeepsBalanced(s.ledger, ks, o);
  }

  lemma IssueKeepsInvariant(s: State, id: Str)
    requires Invariant(s)
    ensures Invariant(s.(ledger := Issue(s.ledger, s.next), browserOf := s.browserOf[s.next := id],
                         timers := s.timers + {s.next}, next := s.next + 1))
  {
    hide Balanced;
    IssueKeepsBalanced(s.ledger, s.next);
  }

  lemma StepKeepsInvariant(s: State, e: Event)
    requires Invariant(s)
    ensures Invariant(Step(s, e))
  {
    hide SettleAll, Invariant, CallsTo;
    match e
    case Attach(id, socket) => OnlySockets(s, s.(sockets := s.sockets[id := socket]));
    case CallBridge(id, _, _) =>
      var issued := s.(ledger := Issue(s.ledger, s.next), browserOf := s.browserOf[s.next := id],
                       timers := s.timers + {s.next}, next := s.next + 1);
      IssueKeepsInvariant(s, id);
      SettleAllKeepsInvariant(issued, {s.next}, SendFailed);
    case Message(_, request, ok) =>
      if request.Some? {
        SettleAllKeepsInvariant(s, {request.value}, Answered(ok));
      }
    case Oversize(id) => SettleAllKeepsInvariant(s, CallsTo(s, id), TooLarge);
    case TimerFires(request) => SettleAllKeepsInvariant(s, {request}, TimedOut);
    case Closed(id, _) =>
      var u := s.(sockets := s.sockets - {id});
      OnlySockets(s, u);
      SettleAllKeepsInvariant(u, CallsTo(u, id), Disconnected);
    case StopBrowser(id) =>
      var u := s.(sockets := s.sockets - {id});
      OnlySockets(s, u);
      SettleAllKeepsInvariant(u, CallsTo(u, id), Stopped);
  }

  lemma OnlySockets(s: State, t: State)
    requires Invariant(s) && t == s.(sockets := t.sockets)
    ensures Invariant(t)
  {
  }

  function After(trace: seq<Event>, n: nat): State
    requires n <= |trace|
  {
    if n == 0 then Fresh() else Step(After(trace, n - 1), trace[n - 1])
  }

  /** In every run, every command is settled exactly once across answers, timeouts, failed
  sends, disconnections and stops; what is pending is exactly what is unsettled. */
  lemma {:induction false} RunKeepsInvariant(trace: seq<Event>, n: nat)
    requires n <= |trace|
    ensures Invariant(After(trace, n))
  {
    hide Step, Balanced;
    if n == 0 {
      OpenedIsBalanced<Outcome>();
    } else {
      RunKeepsInvariant(trace, n - 1);
      StepKeepsInvariant(After(trace, n - 1), trace[n - 1]);
    }
  }

  /** The first outcome of a command stays its outcome. */
  lemma {:induction false} OutcomeIsFinal(trace: seq<Event>, m: nat, n: nat)
    requires m <= n <= |trace|
    ensures After(trace, m).ledger.settled <= After(trace, n).ledger.settled
    ensures After(trace, m).ledger.issued <= After(trace, n).ledger.issued
  {
    hide Rest, Outcomes, CallsTo;
    if m < n {
      OutcomeIsFinal(trace, m, n - 1);
    }
  }

  /** Does the event give command k this outcome? An answer gives it its own flag, and only to
  the pending command that it names if that went to the answering browser; a timeout, to its
  own command; a send that fails, to the command being sent; an oversize answer, the close of
  the current socket and a stop, to every pending command of their browser. */
  predicate Causes(s: State, e: Event, k: Command, o: Outcome) {
    match e
    case Attach(_, _) => false
    case CallBridge(id, open, sent) => id in s.sockets && open && !sent && k == s.next && o == SendFailed
    case Message(id, request, ok) => request == Some(k) && Awaited(s, id, k) && o == Answered(ok)
    case Oversize(id) => Awaited(s, id, k) && o == TooLarge
    case TimerFires(command) => command == k && k in s.ledger.pending && o == TimedOut
    case Closed(id, socket) => id in s.sockets && s.sockets[id] == socket && Awaited(s, id, k) && o == Disconnected
    case StopBrowser(id) => Awaited(s, id, k) && o == Stopped
  }

  /** Is command k of this browser still without an outcome? */
  predicate Awaited(s: State, id: Str, k: Command) { k in s.ledger.pending && k in s.browserOf && s.browserOf[k] == id }

  /** An event gives command k the outcome o exactly when it is a cause of it. */
  lemma EventGives(s: State, e: Event, k: Command, o: Outcome)
    requires Invariant(s)
    ensures HasOutcome(Step(s, e).ledger, k, o) <==> HasOutcome(s.ledger, k, o) || Causes(s, e, k, o)
  {
    hide Settle, HasOutcome, Balanced;
    match e
    case Attach(_, _) =>
    case CallBridge(id, open, sent) =>
      if id in s.sockets && open {
        var issued := Issue(s.ledger, s.next);
        IssueGives(s.ledger, s.next, k, o);
        SettleGives(issued, {s.next}, SendFailed, k, o);
      }
    case Message(_, request, ok) =>
      if request.Some? {
        SettleGives(s.ledger, {request.value}, Answered(ok), k, o);
      }
    case Oversize(id) => SettleGives(s.ledger, CallsTo(s, id), TooLarge, k, o);
    case TimerFires(request) => SettleGives(s.ledger, {request}, TimedOut, k, o);
    case Closed(id, _) => SettleGives(s.ledger, CallsTo(s.(sockets := s.sockets - {id}), id), Disconnected, k, o);
    case StopBrowser(id) => SettleGives(s.ledger, CallsTo(s.(sockets := s.sockets - {id}), id), Stopped, k, o);
  }

  lemma IssueGives(l: Ledger<Outcome>, n: Command, k: Command, o: Outcome)
    ensures HasOutcome(Issue(l, n), k, o) <==> HasOutcome(l, k, o)
    ensures n in Issue(l, n).pending
  {
  }

  /** In every run, a command has an outcome exactly when one of the events so far was a cause
  of it. */
  lemma {:induction false} OutcomeHasCause(trace: seq<Event>, n: nat, k: Command, o: Outcome)
    requires n <= |trace|
    ensures HasOutcome(After(trace, n).ledger, k, o) <==> exists m :: 0 <= m < n && Causes(After(trace, m), trace[m], k, o)
  {
    hide Step, Causes;
    if n > 0 {
      OutcomeHasCause(trace, n - 1, k, o);
      RunKeepsInvariant(trace, n - 1);
      EventGives(After(trace, n - 1), trace[n - 1], k, o);
    }
  }

  /** A browser that attaches is reached over its newest socket, and the others as before;
  commands that wait for it go on waiting. */
  lemma AttachReplaces(s: State, id: Str, socket: Socket, other: Str)
    ensures var t := Step(s, Attach(id, socket));
            && id in t.sockets && t.sockets[id] == socket
            && (other != id ==> (other in t.sockets <==> other in s.sockets) && (other in s.sockets ==> t.sockets[other] == s.sockets[other]))
            && t == s.(sockets := t.sockets)
  {
  }

  /** The close of a socket that has been superseded settles nothing. */
  lemma SupersededCloseSettlesNothing(s: State, id: Str, socket: Socket)
    requires id !in s.sockets || s.sockets[id] != socket
    ensures Step(s, Closed(id, socket)) == s
  {
  }

  /** The close of the current socket leaves none of the browser's commands pending, settles
  each of them as disconnected, and leaves the other browsers' commands alone. */
  lemma CurrentCloseSettlesAll(s: State, id: Str, socket: Socket, k: Command)
    requires Invariant(s) && id in s.sockets && s.sockets[id] == socket && k in s.ledger.pending
    ensures var t := Step(s, Closed(id, socket));
            && id !in t.sockets
            && (k in t.ledger.pending <==> s.browserOf[k] != id)
            && (s.browserOf[k] == id ==> k !in t.timers && HasOutcome(t.ledger, k, Disconnected))
  {
    hide Outcomes;
    EventGives(s, Closed(id, socket), k, Disconnected);
  }

  /** An answer settles at most the command that it names, only for its own browser, and with
  its own flag. */
  lemma AnswerSettlesOne(s: State, id: Str, k: Command, ok: bool, other: Command)
    requires Invariant(s) && other in s.ledger.pending
    ensures var t := Step(s, Message(id, Some(k), ok));
            && (other !in t.ledger.pending <==> other == k && s.browserOf[k] == id)
            && (other !in t.ledger.pending ==> other !in t.timers && HasOutcome(t.ledger, other, Answered(ok)))
  {
    hide Outcomes;
    EventGives(s, Message(id, Some(k), ok), other, Answered(ok));
  }

  /** A stop leaves none of the browser's commands pending and settles each as stopped. */
  lemma StopSettlesAll(s: State, id: Str, k: Command)
    requires Invariant(s) && k in s.ledger.pending
    ensures var t := Step(s, StopBrowser(id));
            && id !in t.sockets
            && (k in t.ledger.pending <==> s.browserOf[k] != id)
            && (s.browserOf[k] == id ==> k !in t.timers && HasOutcome(t.ledger, k, Stopped))
  {
    hide Outcomes;
    EventGives(s, StopBrowser(id), k, Stopped);
  }

  /** A call over an open socket is pending with its timeout armed when the send succeeds, and
  settled at once as failed when it does not; a call without a socket issues nothing. */
  lemma CallIssuesOne(s: State, id: Str, open: bool, sent: bool)
    requires Invariant(s)
    ensures var t := Step(s, CallBridge(id, open, sent));
            if id !in s.sockets || !open then t == s
            else
              && t.ledger.issued == s.ledger.issued + [s.next] && t.browserOf[s.next] == id
              && (s.next in t.ledger.pending <==> sent) && (s.next in t.timers <==> sent)
              && (!sent ==> HasOutcome(t.ledger, s.next, SendFailed))
  {
    hide Outcomes, Balanced;
    EventGives(s, CallBridge(id, open, sent), s.next, SendFailed);
  }

  /** A timeout settles its own command and no other. */
  lemma TimeoutSettlesOne(s: State, k: Command, other: Command)
    requires Invariant(s) && k in s.timers && other in s.ledger.pending
    ensures var t := Step(s, TimerFires(k));
            && (other in t.ledger.pending <==> other != k)
            && HasOutcome(t.ledger, k, TimedOut)
  {
    hide Outcomes, Balanced;
    EventGives(s, TimerFires(k), k, TimedOut);
  }

  // ----- the class -----

  datatype Entry = Entry(command: Command, browser: Str)

  function Commands(entries: seq<Entry>): (r: seq<Command>)
    ensures |r| == |entries| && forall i :: 0 <= i < |r| ==> r[i] == entries[i].command
  {
    seq(|entries|, i requires 0 <= i < |entries| => entries[i].command)
  }

  predicate Labelled(entries: seq<Entry>, browserOf: map<Command, Str>) {
    forall i :: 0 <= i < |entries| ==> entries[i].command in browserOf && browserOf[entries[i].command] == entries[i].browser
  }

  /** The pool's maps. The ghost fields remember what was issued and how it was settled. */
  class Pool {
    var pending: seq<Entry>             // a map by command, in insertion order
    var sockets: map<Str, Socket>
    var timers: set<Command>
    var next: Command
    ghost var issued: seq<Command>
    ghost var settled: seq<(Command, Outcome)>
    ghost var browserOf: map<Command, Str>

    ghost function ToState(): State
      reads this
    {
      State(Ledger(issued, Commands(pending), settled), browserOf, sockets, timers, next)
    }

    ghost predicate Valid()
      reads this
    {
      && Invariant(ToState())
      && Labelled(pending, browserOf)
    }

    constructor ()
      ensures Valid() && ToState() == Fresh()
    {
      pending, sockets, timers, next := [], map[], {}, 0;
      issued, settled, browserOf := [], [], map[];
      new;
      OpenedIsBalanced<Outcome>();
    }

    method AttachBridge(id: Str, socket: Socket)
      requires Valid()
      modifies this
      ensures Valid() && ToState() == Step(old(ToState()), Attach(id, socket))
    {
      hide Balanced;
      sockets := sockets[id := socket];
    }

    /** Takes the commands of one browser out of the map and settles them, in order. */
    method RejectBridgeCalls(id: Str, o: Outcome)
      requires Valid()
      modifies this
      ensures Valid() && ToState() == Reject(old(ToState()), id, o)
    {
      hide Balanced, Rest, Outcomes, Invariant, CallsTo, Commands, Labelled, Taken;
      ghost var before := ToState();
      ghost var ks, all := CallsTo(before, id), pending;
      ghost var n := 0;
      var i := 0;
      RejectStart(all, ks, o);
      while i < |pending|
        invariant n <= |all| && i <= |pending| && pending[i..] == all[n..]
        invariant Commands(pending[..i]) == Rest(Commands(all[..n]), ks)
        invariant Labelled(pending, browserOf)
        invariant settled == before.ledger.settled + Outcomes(Commands(all[..n]), ks, o)
        invariant timers == before.timers - Taken(Commands(all[..n]), ks)
        invariant issued == before.ledger.issued && browserOf == before.browserOf && sockets == before.sockets && next == before.next
        decreases |all| - n
      {
        var entry := pending[i];
        assert entry == all[n];
        RejectNext(all, n, ks, o);
        InCalls(before, all, n, id);
        Shift(pending, all, i, n);
        DropKeepsLabels(pending, browserOf, i);
        if entry.browser != id {
          i := i + 1;
        } else {
          timers := timers - {entry.command};
          settled := settled + [(entry.command, o)];
          pending := pending[..i] + pending[i + 1..];
        }
        n := n + 1;
      }
      assert pending[..i] == pending && all[..n] == all;
      TakenAll(before, id);
      SettleAllKeepsInvariant(before, ks, o);
    }

    method BridgeCall(id: Str, open: bool, sent: bool)
      requires Valid()
      modifies this
      ensures Valid() && ToState() == Step(old(ToState()), CallBridge(id, open, sent))
    {
      hide Balanced, Rest, Outcomes;
      if id !in sockets || !open {
        return;
      }
      ghost var before := ToState();
      IssueKeepsInvariant(before, id);
      var request := next;
      next := next + 1;
      timers := timers + {request};
      pending := pending + [Entry(request, id)];
      issued, browserOf := issued + [request], browserOf[request := id];
      assert Commands(pending) == before.ledger.pending + [request];
      if !sent {
        SettleOne(request, SendFailed);
      }
    }

    /** Takes one command out of the map, disarms its timeout and settles it. */
    method SettleOne(command: Command, o: Outcome)
      requires Valid()
      modifies this
      ensures Valid() && ToState() == SettleAll(old(ToState()), {command}, o)
    {
      hide Balanced, Rest, Outcomes;
      ghost var before := ToState();
      SettleAllKeepsInvariant(before, {command}, o);
      var found := FindEntry(pending, command);
      if found.Some? {
        PendingIsDistinct(before.ledger);
        SettleAt(Commands(pending), found.value, o);
        assert Commands(pending[..found.value] + pending[found.value + 1..]) ==
               Commands(pending)[..found.value] + Commands(pending)[found.value + 1..];
        pending := pending[..found.value] + pending[found.value + 1..];
        settled := settled + [(command, o)];
        timers := timers - {command};
      } else {
        SettleNothing(Commands(pending), {command}, o);
        assert timers - {command} == timers;
      }
    }

    /** An answer within the size limit; `request` is the id that it names. */
    method HandleMessage(id: Str, request: Option<Command>, ok: bool)
      requires Valid()
      modifies this
      ensures Valid() && ToState() == Step(old(ToState()), Message(id, request, ok))
    {
      hide Balanced, Rest, Outcomes;
      if request.None? {
        return;
      }
      var found := FindEntry(pending, request.value);
      if found.None? || pending[found.value].browser != id {
        return;
      }
      SettleOne(request.value, Answered(ok));
    }

    method HandleTimeout(command: Command)
      requires Valid() && command in timers
      modifies this
      ensures Valid() && ToState() == Step(old(ToState()), TimerFires(command))
    {
      SettleOne(command, TimedOut);
    }

    method HandleBridgeClose(id: Str, socket: Socket)
      requires Valid()
      modifies this
      ensures Valid() && ToState() == Step(old(ToState()), Closed(id, socket))
    {
      hide Balanced, Rest, Outcomes;
      if id !in sockets || sockets[id] != socket {
        return;
      }
      sockets := sockets - {id};
      RejectBridgeCalls(id, Disconnected);
    }

    method Stop(id: Str)
      requires Valid()
      modifies this
      ensures Valid() && ToState() == Step(old(ToState()), StopBrowser(id))
    {
      hide Balanced, Rest, Outcomes;
      sockets := sockets - {id};
      RejectBridgeCalls(id, Stopped);
    }
  }

  function FindEntry(entries: seq<Entry>, command: Command): (r: Option<nat>)
    ensures r.Some? ==> r.value < |entries| && entries[r.value].command == command
    ensures r.None? ==> forall i :: 0 <= i < |entries| ==> entries[i].command != command
  {
    if entries == [] then None
    else if entries[0].command == command then Some(0)
    else
      assert forall i :: 1 <= i < |entries| ==> entries[1..][i - 1] == entries[i];
      match FindEntry(entries[1..], command)
      case None => None
      case Some(i) => Some(i + 1)
  }

  function Taken(done: seq<Command>, ks: set<Command>): set<Command> { set k | k in ks && k in done }

  lemma TakenAll(s: State, id: Str)
    ensures Taken(s.ledger.pending, CallsTo(s, id)) == CallsTo(s, id)
  {
  }

  lemma InCalls(s: State, all: seq<Entry>, n: nat, id: Str)
    requires n < |all| && s.ledger.pending == Commands(all)
    requires Labelled(all, s.browserOf)
    ensures all[n].command in CallsTo(s, id) <==> all[n].browser == id
  {
    assert Commands(all)[n] in Commands(all);
  }

  lemma DropKeepsLabels(entries: seq<Entry>, browserOf: map<Command, Str>, i: nat)
    requires i < |entries| && Labelled(entries, browserOf)
    ensures Labelled(entries[..i] + entries[i + 1..], browserOf)
  {
  }

  lemma Shift(pending: seq<Entry>, all: seq<Entry>, i: nat, n: nat)
    requires i < |pending| && n < |all| && pending[i..] == all[n..]
    ensures pending[i + 1..] == all[n + 1..]
    ensures Commands(pending[..i + 1]) == Commands(pending[..i]) + [pending[i].command]
    ensures (pending[..i] + pending[i + 1..])[..i] == pending[..i] && (pending[..i] + pending[i + 1..])[i..] == pending[i + 1..]
  {
    assert pending[i..][1..] == pending[i + 1..] && all[n..][1..] == all[n + 1..];
    assert Commands(pending[..i + 1]) == Commands(pending[..i]) + [pending[i].command];
  }

  lemma RejectStart(all: seq<Entry>, ks: set<Command>, o: Outcome)
    ensures Commands(all[..0]) == [] && Rest([], ks) == [] && Outcomes([], ks, o) == [] && Taken([], ks) == {}
  {
  }

  lemma RejectNext(all: seq<Entry>, n: nat, ks: set<Command>, o: Outcome)
    requires n < |all|
    ensures var done, k := Commands(all[..n]), all[n].command;
            && Commands(all[..n + 1]) == done + [k]
            && Taken(done + [k], ks) == Taken(done, ks) + (if k in ks then {k} else {})
            && Rest(done + [k], ks) == Rest(done, ks) + (if k in ks then [] else [k])
            && Outcomes(done + [k], ks, o) == Outcomes(done, ks, o) + (if k in ks then [(k, o)] else [])
  {
    RestAppend(Commands(all[..n]), ks, all[n].command);
    OutcomesAppend(Commands(all[..n]), ks, o, all[n].command);
    assert Commands(all[..n + 1]) == Commands(all[..n]) + [all[n].command];
  }

  lemma PendingIsDistinct(l: Ledger<Outcome>)
    requires Balanced(l)
    ensures Distinct(l.pending)
  {
  }

  lemma SettleAt(pending: seq<Command>, i: nat, o: Outcome)
    requires i < |pending| && Distinct(pending)
    ensures Rest(pending, {pending[i]}) == pending[..i] + pending[i + 1..]
    ensures Outcomes(pending, {pending[i]}, o) == [(pending[i], o)]
  {
    var k := pending[i];
    assert pending == pending[..i] + ([k] + pending[i + 1..]);
    SettleAround(pending[..i], k, pending[i + 1..], o);
  }
}
