/** Commands that are issued once and settled once: what the pending maps of the bridge pool
and of a CDP connection keep. */
module Correlation {
  type Command = nat

  datatype Ledger<O> = Ledger(issued: seq<Command>, pending: seq<Command>, settled: seq<(Command, O)>)

  function Opened<O>(): Ledger<O> { Ledger([], [], []) }

  function Issue<O>(l: Ledger<O>, k: Command): Ledger<O> {
    l.(issued := l.issued + [k], pending := l.pending + [k])
  }

  /** The pending commands outside `ks`, in order. */
  function Rest(pending: seq<Command>, ks: set<Command>): (r: seq<Command>)
    ensures forall k :: k in r <==> k in pending && k !in ks
  {
    if pending == [] then [] else (if pending[0] in ks then [] else [pending[0]]) + Rest(pending[1..], ks)
  }

  /** The pending commands inside `ks`, each with the outcome, in order. */
  function Outcomes<O>(pending: seq<Command>, ks: set<Command>, o: O): (r: seq<(Command, O)>)
    ensures forall i :: 0 <= i < |r| ==> r[i].0 in pending && r[i].0 in ks && r[i].1 == o
  {
    if pending == [] then [] else (if pending[0] in ks then [(pending[0], o)] else []) + Outcomes(pending[1..], ks, o)
  }

  /** Gives the outcome to the commands in `ks` that are pending. */
  function Settle<O>(l: Ledger<O>, ks: set<Command>, o: O): Ledger<O> {
    l.(pending := Rest(l.pending, ks), settled := l.settled + Outcomes(l.pending, ks, o))
  }

  predicate Distinct(s: seq<Command>) {
    forall i, j :: 0 <= i < j < |s| ==> s[i] != s[j]
  }

  predicate SettledOnce<O>(settled: seq<(Command, O)>) {
    forall i, j :: 0 <= i < j < |settled| ==> settled[i].0 != settled[j].0
  }

  predicate IsSettled<O>(l: Ledger<O>, k: Command) {
    exists i :: 0 <= i < |l.settled| && l.settled[i].0 == k
  }

  /** No command is issued or settled twice, and the pending commands are exactly those that
  are issued and not settled. */
  ghost predicate Balanced<O>(l: Ledger<O>) {
    && Distinct(l.issued) && Distinct(l.pending) && SettledOnce(l.settled)
    && (forall k :: k in l.pending <==> k in l.issued && !IsSettled(l, k))
    && (forall k :: IsSettled(l, k) ==> k in l.issued)
  }

  lemma OpenedIsBalanced<O>()
    ensures Balanced(Opened<O>())
  {
  }

  lemma IssueKeepsBalanced<O>(l: Ledger<O>, k: Command)
    requires Balanced(l) && k !in l.issued
    ensures Balanced(Issue(l, k))
  {
    var t := Issue(l, k);
    assert forall x :: IsSettled(t, x) <==> IsSettled(l, x);
    assert k !in l.pending;
  }

  lemma {:induction false} RestIsDistinct(pending: seq<Command>, ks: set<Command>)
    requires Distinct(pending)
    ensures Distinct(Rest(pending, ks))
  {
    if pending != [] {
      var rest := Rest(pending[1..], ks);
      RestIsDistinct(pending[1..], ks);
      assert forall i :: 0 <= i < |rest| ==> rest[i] in pending[1..];
    }
  }

  lemma {:induction false} OutcomesAreDistinct<O>(pending: seq<Command>, ks: set<Command>, o: O)
    requires Distinct(pending)
    ensures SettledOnce(Outcomes(pending, ks, o))
  {
    if pending != [] {
      var rest := Outcomes(pending[1..], ks, o);
      OutcomesAreDistinct(pending[1..], ks, o);
      assert forall i :: 0 <= i < |rest| ==> rest[i].0 in pending[1..];
    }
  }

  lemma {:induction false} OutcomeOf<O>(pending: seq<Command>, ks: set<Command>, o: O, k: Command) returns (i: nat)
    requires k in pending && k in ks
    ensures i < |Outcomes(pending, ks, o)| && Outcomes(pending, ks, o)[i].0 == k
  {
    if pending[0] == k {
      i := 0;
    } else {
      i := OutcomeOf(pending[1..], ks, o, k);
      i := if pending[0] in ks then i + 1 else i;
    }
  }

  lemma SettledAfter<O>(l: Ledger<O>, ks: set<Command>, o: O, k: Command)
    requires Distinct(l.pending)
    ensures IsSettled(Settle(l, ks, o), k) <==> IsSettled(l, k) || (k in l.pending && k in ks)
  {
    var t := Settle(l, ks, o);
    var added := Outcomes(l.pending, ks, o);
    assert forall i :: 0 <= i < |l.settled| ==> t.settled[i] == l.settled[i];
    assert forall i :: 0 <= i < |added| ==> t.settled[|l.settled| + i] == added[i];
    if k in l.pending && k in ks {
      var i := OutcomeOf(l.pending, ks, o, k);
      assert t.settled[|l.settled| + i].0 == k;
    }
    if IsSettled(l, k) {
      var i :| 0 <= i < |l.settled| && l.settled[i].0 == k;
      assert t.settled[i].0 == k;
    }
  }

  lemma SettleKeepsBalanced<O>(l: Ledger<O>, ks: set<Command>, o: O)
    requires Balanced(l)
    ensures Balanced(Settle(l, ks, o))
  {
    hide IsSettled;
    var t := Settle(l, ks, o);
    RestIsDistinct(l.pending, ks);
    forall k
      ensures IsSettled(t, k) <==> IsSettled(l, k) || (k in l.pending && k in ks)
    {
      SettledAfter(l, ks, o, k);
    }
    SettleKeepsOnce(l, ks, o);
  }

  lemma SettleKeepsOnce<O>(l: Ledger<O>, ks: set<Command>, o: O)
    requires Balanced(l)
    ensures SettledOnce(Settle(l, ks, o).settled)
  {
    var added := Outcomes(l.pending, ks, o);
    OutcomesAreDistinct(l.pending, ks, o);
    forall i, j | 0 <= i < |l.settled| && 0 <= j < |added|
      ensures l.settled[i].0 != added[j].0
    {
      assert IsSettled(l, l.settled[i].0);
    }
  }

  /** Does command k have the outcome o? */
  predicate HasOutcome<O(==)>(l: Ledger<O>, k: Command, o: O) {
    exists i :: 0 <= i < |l.settled| && l.settled[i] == (k, o)
  }

  /** Settling gives the outcome to the pending commands in the set, and nothing else to
  anyone. */
  lemma SettleGives<O>(l: Ledger<O>, ks: set<Command>, o: O, k: Command, p: O)
    ensures HasOutcome(Settle(l, ks, o), k, p) <==> HasOutcome(l, k, p) || (k in l.pending && k in ks && p == o)
  {
    hide Outcomes;
    var t, added := Settle(l, ks, o), Outcomes(l.pending, ks, o);
    assert forall i :: 0 <= i < |l.settled| ==> t.settled[i] == l.settled[i];
    assert forall i :: 0 <= i < |added| ==> t.settled[|l.settled| + i] == added[i];
    if k in l.pending && k in ks {
      var i := OutcomeOf(l.pending, ks, o, k);
      assert t.settled[|l.settled| + i] == (k, o);
    }
    if HasOutcome(l, k, p) {
      var i :| 0 <= i < |l.settled| && l.settled[i] == (k, p);
      assert t.settled[i] == (k, p);
    }
  }

  /** Settling nothing that is pending changes nothing. */
  lemma {:induction false} SettleNothing<O>(pending: seq<Command>, ks: set<Command>, o: O)
    requires forall k :: k in ks ==> k !in pending
    ensures Rest(pending, ks) == pending && Outcomes(pending, ks, o) == []
  {
    if pending != [] {
      SettleNothing(pending[1..], ks, o);
    }
  }

  // ----- one pending command at a time -----

  lemma {:induction false} RestAppend(pending: seq<Command>, ks: set<Command>, k: Command)
    ensures Rest(pending + [k], ks) == Rest(pending, ks) + (if k in ks then [] else [k])
  {
    if pending == [] {
      assert [] + [k] == [k];
    } else {
      assert (pending + [k])[1..] == pending[1..] + [k];
      RestAppend(pending[1..], ks, k);
    }
  }

  lemma {:induction false} OutcomesAppend<O>(pending: seq<Command>, ks: set<Command>, o: O, k: Command)
    ensures Outcomes(pending + [k], ks, o) == Outcomes(pending, ks, o) + (if k in ks then [(k, o)] else [])
  {
    if pending == [] {
      assert [] + [k] == [k];
    } else {
      assert (pending + [k])[1..] == pending[1..] + [k];
      OutcomesAppend(pending[1..], ks, o, k);
    }
  }

  lemma {:induction false} SettleAround<O>(a: seq<Command>, k: Command, b: seq<Command>, o: O)
    requires k !in a && k !in b
    ensures Rest(a + ([k] + b), {k}) == a + b
    ensures Outcomes(a + ([k] + b), {k}, o) == [(k, o)]
  {
    if a == [] {
      assert a + ([k] + b) == [k] + b && ([k] + b)[1..] == b && a + b == b;
      SettleNothing(b, {k}, o);
    } else {
      assert (a + ([k] + b))[1..] == a[1..] + ([k] + b);
      SettleAround(a[1..], k, b, o);
    }
  }

  lemma {:induction false} RestOfAll(pending: seq<Command>, ks: set<Command>)
    requires forall k :: k in pending ==> k in ks
    ensures Rest(pending, ks) == []
  {
    if pending != [] {
      RestOfAll(pending[1..], ks);
    }
  }

  lemma {:induction false} RestTwice(pending: seq<Command>, a: set<Command>, b: set<Command>)
    ensures Rest(Rest(pending, a), b) == Rest(pending, a + b)
  {
    if pending != [] {
      var first, rest := pending[0], Rest(pending[1..], a);
      RestTwice(pending[1..], a, b);
      if first in a {
        assert [] + rest == rest && [] + Rest(rest, b) == Rest(rest, b);
      } else {
        assert ([first] + rest)[1..] == rest;
      }
    }
  }
}
