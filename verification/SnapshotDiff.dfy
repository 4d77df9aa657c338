/** The greedy two-key diff of two snapshots (src/browser/snapshot-history.ts, makeDiff):
a node is matched by its ref first and by its semantic key second, each old node at most
once. The result is a complete edit script. */
module SnapshotDiff {
  import opened Common
  import opened Text
  import opened SnapshotText
  import opened SnapshotNodes
  import Json

  datatype Keyed = Keyed(stored: StoredNode, key: Str)

  datatype Update = Update(key: Str, before: Node, after: Node, changed: seq<Field>)

  datatype Diff = Diff(added: seq<Node>, removed: seq<Node>, updated: seq<Update>, changed: bool)

  // ----- candidates -----

  /** The positions at which x stands in `names`, in increasing order. */
  function Positions(names: seq<Str>, x: Str): (r: seq<nat>)
    ensures forall p :: p in r <==> 0 <= p < |names| && names[p] == x
    ensures forall i, j :: 0 <= i < j < |r| ==> r[i] < r[j]
  {
    if names == [] then []
    else
      var n := |names| - 1;
      var rest := Positions(names[..n], x);
      assert forall i :: 0 <= i < |rest| ==> rest[i] in rest;
      rest + (if names[n] == x then [n] else [])
  }

  function FirstUnused(candidates: seq<nat>, used: set<nat>): Option<nat> {
    if candidates == [] then None
    else if candidates[0] !in used then Some(candidates[0])
    else FirstUnused(candidates[1..], used)
  }

  function Refs(nodes: seq<Keyed>): (r: seq<Str>)
    ensures |r| == |nodes| && forall i :: 0 <= i < |nodes| ==> r[i] == nodes[i].stored.node.ref
  {
    seq(|nodes|, i requires 0 <= i < |nodes| => nodes[i].stored.node.ref)
  }

  function Keys(nodes: seq<Keyed>): (r: seq<Str>)
    ensures |r| == |nodes| && forall i :: 0 <= i < |nodes| ==> r[i] == nodes[i].key
  {
    seq(|nodes|, i requires 0 <= i < |nodes| => nodes[i].key)
  }

  function Pick(base: seq<Keyed>, c: Keyed, used: set<nat>): Option<nat> {
    FirstUnused(Positions(Refs(base), c.stored.node.ref) + Positions(Keys(base), c.key), used)
  }

  // ----- the matching -----

  function UsedBy(m: seq<Option<nat>>): (r: set<nat>)
    ensures forall j :: j in r <==> Some(j) in m
  {
    if m == [] then {}
    else
      var n := |m| - 1;
      UsedBy(m[..n]) + (if m[n].Some? then {m[n].value} else {})
  }

  /** For every current node, in order, the old node that it is matched with. */
  function Matching(base: seq<Keyed>, current: seq<Keyed>): (m: seq<Option<nat>>)
    ensures |m| == |current|
  {
    if current == [] then []
    else
      var n := |current| - 1;
      var m := Matching(base, current[..n]);
      m + [Pick(base, current[n], UsedBy(m))]
  }

  /** What the two-key rule asks of a match: an unused old node, the lowest one with the
  same ref, or the lowest one with the same key when no unused one has the ref. */
  predicate Chosen(base: seq<Keyed>, c: Keyed, used: set<nat>, r: Option<nat>) {
    var refs, keys := Refs(base), Keys(base);
    match r
    case Some(j) =>
      && j < |base| && j !in used
      && (if refs[j] == c.stored.node.ref
          then forall i :: 0 <= i < j && refs[i] == c.stored.node.ref ==> i in used
          else
            && keys[j] == c.key
            && (forall i :: 0 <= i < |base| && refs[i] == c.stored.node.ref ==> i in used)
            && (forall i :: 0 <= i < j && keys[i] == c.key ==> i in used))
    case None =>
      forall i :: 0 <= i < |base| && (refs[i] == c.stored.node.ref || keys[i] == c.key) ==> i in used
  }

  lemma {:induction false} FirstUnusedConcat(a: seq<nat>, b: seq<nat>, used: set<nat>)
    ensures FirstUnused(a + b, used) ==
            match FirstUnused(a, used) { case Some(j) => Some(j) case None => FirstUnused(b, used) }
  {
    if a == [] {
      assert a + b == b;
    } else {
      assert (a + b)[1..] == a[1..] + b;
      FirstUnusedConcat(a[1..], b, used);
    }
  }

  lemma {:induction false} FirstUnusedIsFirst(candidates: seq<nat>, used: set<nat>)
    requires forall i, j :: 0 <= i < j < |candidates| ==> candidates[i] < candidates[j]
    ensures match FirstUnused(candidates, used)
            case Some(j) => j in candidates && j !in used && forall i :: i in candidates && i < j ==> i in used
            case None => forall i :: i in candidates ==> i in used
  {
    if candidates != [] {
      var rest := candidates[1..];
      assert forall i :: 0 <= i < |rest| ==> rest[i] == candidates[i + 1];
      assert forall i :: i in candidates <==> i == candidates[0] || i in rest;
      FirstUnusedIsFirst(rest, used);
    }
  }

  /** The old node that the source finds is the one that the rule asks for. */
  lemma PickIsChosen(base: seq<Keyed>, c: Keyed, used: set<nat>)
    ensures Chosen(base, c, used, Pick(base, c, used))
  {
    hide Positions, FirstUnused;
    var byRef, byKey := Positions(Refs(base), c.stored.node.ref), Positions(Keys(base), c.key);
    FirstUnusedConcat(byRef, byKey, used);
    FirstUnusedIsFirst(byRef, used);
    FirstUnusedIsFirst(byKey, used);
  }

  // ----- the matching is injective and greedy -----

  /** No old node is matched twice. */
  predicate Injective(m: seq<Option<nat>>, n: nat) {
    && (forall i :: 0 <= i < |m| && m[i].Some? ==> m[i].value < n)
    && (forall i, j :: 0 <= i < j < |m| && m[i].Some? ==> m[i] != m[j])
  }

  /** Every match follows the two-key rule, given the matches before it. */
  predicate Greedy(base: seq<Keyed>, current: seq<Keyed>, m: seq<Option<nat>>) {
    |m| == |current| && forall i :: 0 <= i < |m| ==> Chosen(base, current[i], UsedBy(m[..i]), m[i])
  }

  lemma GreedyAppend(base: seq<Keyed>, current: seq<Keyed>, m: seq<Option<nat>>, r: Option<nat>)
    requires current != [] && Greedy(base, current[..|current| - 1], m)
    requires Chosen(base, current[|current| - 1], UsedBy(m), r)
    ensures Greedy(base, current, m + [r])
  {
    hide Chosen, UsedBy;
    var all := m + [r];
    assert all[..|m|] == m;
    assert forall i :: 0 <= i < |m| ==> all[..i] == m[..i];
  }

  lemma InjectiveAppend(m: seq<Option<nat>>, n: nat, r: Option<nat>)
    requires Injective(m, n) && (r.Some? ==> r.value < n && r.value !in UsedBy(m))
    ensures Injective(m + [r], n)
  {
    hide UsedBy;
    assert forall i :: 0 <= i < |m| ==> m[i] in m;
  }

  lemma {:induction false} MatchingIsGreedy(base: seq<Keyed>, current: seq<Keyed>)
    ensures Injective(Matching(base, current), |base|)
    ensures Greedy(base, current, Matching(base, current))
  {
    hide Pick, Chosen, Injective, Greedy;
    if current == [] {
      NothingMatched(base);
    } else {
      var n := |current| - 1;
      var before := Matching(base, current[..n]);
      var r := Pick(base, current[n], UsedBy(before));
      MatchingIsGreedy(base, current[..n]);
      PickIsChosen(base, current[n], UsedBy(before));
      ChosenIsFree(base, current[n], UsedBy(before), r);
      GreedyAppend(base, current, before, r);
      InjectiveAppend(before, |base|, r);
    }
  }

  lemma NothingMatched(base: seq<Keyed>)
    ensures Injective([], |base|) && Greedy(base, [], [])
  {
  }

  lemma ChosenIsFree(base: seq<Keyed>, c: Keyed, used: set<nat>, r: Option<nat>)
    requires Chosen(base, c, used, r)
    ensures r.Some? ==> r.value < |base| && r.value !in used
  {
  }

  lemma GreedyPrefix(base: seq<Keyed>, current: seq<Keyed>, m: seq<Option<nat>>)
    requires Greedy(base, current, m) && current != []
    ensures var n := |current| - 1;
            && |m| == n + 1 && m == m[..n] + [m[n]]
            && Greedy(base, current[..n], m[..n]) && Chosen(base, current[n], UsedBy(m[..n]), m[n])
  {
    hide Chosen, UsedBy;
    var n := |current| - 1;
    assert forall i :: 0 <= i < n ==> m[..n][..i] == m[..i];
  }

  /** The rule leaves no choice: at most one matching follows it. */
  lemma {:induction false} GreedyIsUnique(base: seq<Keyed>, current: seq<Keyed>, m: seq<Option<nat>>)
    requires Greedy(base, current, m)
    ensures m == Matching(base, current)
  {
    hide Pick, Chosen, UsedBy;
    if current == [] {
      assert m == [];
    } else {
      hide Greedy;
      var n := |current| - 1;
      var c, before := current[n], m[..n];
      GreedyPrefix(base, current, m);
      GreedyIsUnique(base, current[..n], before);
      PickIsChosen(base, c, UsedBy(before));
      ChosenOnce(base, c, UsedBy(before), m[n], Pick(base, c, UsedBy(before)));
    }
  }

  lemma ChosenOnce(base: seq<Keyed>, c: Keyed, used: set<nat>, r: Option<nat>, s: Option<nat>)
    requires Chosen(base, c, used, r) && Chosen(base, c, used, s)
    ensures r == s
  {
  }

  // ----- the edit script -----

  /** The pairs matched without and with a change, and the unmatched current nodes. */
  datatype Script = Script(kept: seq<(Keyed, Keyed)>, updated: seq<(Keyed, Keyed)>, added: seq<Keyed>)

  function Extend(s: Script, base: seq<Keyed>, c: Keyed, r: Option<nat>): Script
    requires r.Some? ==> r.value < |base|
  {
    match r
    case None => s.(added := s.added + [c])
    case Some(j) =>
      if ChangedFields(base[j].stored, c.stored) == []
      then s.(kept := s.kept + [(base[j], c)])
      else s.(updated := s.updated + [(base[j], c)])
  }

  function ScriptOf(base: seq<Keyed>, current: seq<Keyed>, m: seq<Option<nat>>): Script
    requires |m| == |current| && forall i :: 0 <= i < |m| && m[i].Some? ==> m[i].value < |base|
  {
    if current == [] then Script([], [], [])
    else
      var n := |current| - 1;
      Extend(ScriptOf(base, current[..n], m[..n]), base, current[n], m[n])
  }

  /** The old nodes outside `used`, in order. */
  function Unmatched(base: seq<Keyed>, used: set<nat>): seq<Keyed> {
    if base == [] then []
    else
      var n := |base| - 1;
      Unmatched(base[..n], used) + (if n in used then [] else [base[n]])
  }

  function Befores(pairs: seq<(Keyed, Keyed)>): seq<Keyed> {
    seq(|pairs|, i requires 0 <= i < |pairs| => pairs[i].0)
  }

  function Afters(pairs: seq<(Keyed, Keyed)>): seq<Keyed> {
    seq(|pairs|, i requires 0 <= i < |pairs| => pairs[i].1)
  }

  function NodesOf(nodes: seq<Keyed>): seq<Node> {
    seq(|nodes|, i requires 0 <= i < |nodes| => nodes[i].stored.node)
  }

  function UpdateOf(pair: (Keyed, Keyed)): Update {
    Update(pair.1.key, pair.0.stored.node, pair.1.stored.node, ChangedFields(pair.0.stored, pair.1.stored))
  }

  function UpdatesOf(pairs: seq<(Keyed, Keyed)>): seq<Update> {
    seq(|pairs|, i requires 0 <= i < |pairs| => UpdateOf(pairs[i]))
  }

  /** How often each combination of compared fields occurs. */
  function Bag(nodes: seq<Keyed>): multiset<Compared> {
    if nodes == [] then multiset{}
    else Bag(nodes[..|nodes| - 1]) + multiset{Fields(nodes[|nodes| - 1].stored)}
  }

  lemma BagAppend(nodes: seq<Keyed>, c: Keyed)
    ensures Bag(nodes + [c]) == Bag(nodes) + multiset{Fields(c.stored)}
  {
    assert (nodes + [c])[..|nodes|] == nodes;
  }

  lemma PairsAppend(pairs: seq<(Keyed, Keyed)>, b: Keyed, c: Keyed)
    ensures Bag(Befores(pairs + [(b, c)])) == Bag(Befores(pairs)) + multiset{Fields(b.stored)}
    ensures Bag(Afters(pairs + [(b, c)])) == Bag(Afters(pairs)) + multiset{Fields(c.stored)}
  {
    hide Bag, Fields;
    assert Befores(pairs + [(b, c)]) == Befores(pairs) + [b];
    assert Afters(pairs + [(b, c)]) == Afters(pairs) + [c];
    BagAppend(Befores(pairs), b);
    BagAppend(Afters(pairs), c);
  }

  lemma {:induction false} UnmatchedOutside(base: seq<Keyed>, used: set<nat>, j: nat)
    requires j >= |base|
    ensures Unmatched(base, used + {j}) == Unmatched(base, used)
  {
    if base != [] {
      UnmatchedOutside(base[..|base| - 1], used, j);
    }
  }

  lemma {:induction false} UnmatchedLosesOne(base: seq<Keyed>, used: set<nat>, j: nat)
    requires j < |base| && j !in used
    ensures Bag(Unmatched(base, used)) == Bag(Unmatched(base, used + {j})) + multiset{Fields(base[j].stored)}
  {
    hide Bag, Fields;
    var n := |base| - 1;
    var front := base[..n];
    if j == n {
      UnmatchedOutside(front, used, j);
      BagAppend(Unmatched(front, used), base[n]);
      assert Unmatched(base, used + {j}) == Unmatched(front, used + {j});
    } else {
      UnmatchedLosesOne(front, used, j);
      assert front[j] == base[j];
      var a, b := Unmatched(front, used), Unmatched(front, used + {j});
      if n in used {
        assert Unmatched(base, used) == a && Unmatched(base, used + {j}) == b;
      } else {
        BagAppend(a, base[n]);
        BagAppend(b, base[n]);
        assert Unmatched(base, used) == a + [base[n]] && Unmatched(base, used + {j}) == b + [base[n]];
      }
    }
  }

  lemma {:induction false} UnmatchedByNothing(base: seq<Keyed>)
    ensures Unmatched(base, {}) == base
  {
    if base != [] {
      UnmatchedByNothing(base[..|base| - 1]);
    }
  }

  /** Both sides of the script, counted: what is kept, changed and removed makes up the
  old nodes; what is kept, changed and added makes up the current ones. */
  predicate Balanced(base: seq<Keyed>, current: seq<Keyed>, s: Script, used: set<nat>) {
    && Bag(Befores(s.kept)) == Bag(Afters(s.kept))
    && Bag(base) == Bag(Befores(s.kept)) + Bag(Befores(s.updated)) + Bag(Unmatched(base, used))
    && Bag(current) == Bag(Afters(s.kept)) + Bag(Afters(s.updated)) + Bag(s.added)
  }

  lemma BalancedStep(base: seq<Keyed>, current: seq<Keyed>, s: Script, used: set<nat>, c: Keyed, r: Option<nat>)
    requires Balanced(base, current, s, used)
    requires r.Some? ==> r.value < |base| && r.value !in used
    ensures Balanced(base, current + [c], Extend(s, base, c, r), if r.Some? then used + {r.value} else used)
  {
    hide Bag, Befores, Afters, Unmatched, ChangedFields, Fields;
    BagAppend(current, c);
    match r
    case None => BagAppend(s.added, c);
    case Some(j) =>
      UnmatchedLosesOne(base, used, j);
      UnchangedMeansEqual(base[j].stored, c.stored);
      PairsAppend(s.kept, base[j], c);
      PairsAppend(s.updated, base[j], c);
  }

  lemma UsedByAppend(m: seq<Option<nat>>, r: Option<nat>)
    ensures UsedBy(m + [r]) == if r.Some? then UsedBy(m) + {r.value} else UsedBy(m)
  {
    assert (m + [r])[..|m|] == m;
  }

  lemma {:induction false} ScriptIsBalanced(base: seq<Keyed>, current: seq<Keyed>, m: seq<Option<nat>>)
    requires |m| == |current| && Injective(m, |base|)
    ensures Balanced(base, current, ScriptOf(base, current, m), UsedBy(m))
  {
    if current == [] {
      UnmatchedByNothing(base);
    } else {
      hide Balanced, UsedBy, Extend;
      var n := |current| - 1;
      assert m == m[..n] + [m[n]] && current == current[..n] + [current[n]];
      ScriptIsBalanced(base, current[..n], m[..n]);
      UsedByAppend(m[..n], m[n]);
      if m[n].Some? {
        FreshMatch(m, n);
      }
      BalancedStep(base, current[..n], ScriptOf(base, current[..n], m[..n]), UsedBy(m[..n]), current[n], m[n]);
    }
  }

  lemma FreshMatch(m: seq<Option<nat>>, n: nat)
    requires n < |m| && m[n].Some? && forall i :: 0 <= i < n && m[i].Some? ==> m[i] != m[n]
    ensures m[n].value !in UsedBy(m[..n])
  {
  }

  // ----- the diff -----

  function ScriptFor(base: seq<Keyed>, current: seq<Keyed>): Script {
    MatchingIsGreedy(base, current);
    ScriptOf(base, current, Matching(base, current))
  }

  function Removed(base: seq<Keyed>, current: seq<Keyed>): seq<Keyed> {
    Unmatched(base, UsedBy(Matching(base, current)))
  }

  function DiffOf(base: seq<Keyed>, current: seq<Keyed>): Diff {
    var s, removed := ScriptFor(base, current), Removed(base, current);
    Diff(NodesOf(s.added), NodesOf(removed), UpdatesOf(s.updated), |s.added| > 0 || |removed| > 0 || |s.updated| > 0)
  }

  /** The diff is a complete edit script over the compared fields: taking away the removed
  nodes and the before-images and putting in the after-images and the added nodes turns
  the old nodes into the current ones. What it lists as added, removed, before and after are
  those nodes, and it claims a change exactly when it lists one. */
  lemma DiffIsEditScript(base: seq<Keyed>, current: seq<Keyed>)
    ensures var s, removed, d := ScriptFor(base, current), Removed(base, current), DiffOf(base, current);
            && Bag(removed) + Bag(Befores(s.updated)) <= Bag(base)
            && Bag(base) - Bag(removed) - Bag(Befores(s.updated)) + Bag(Afters(s.updated)) + Bag(s.added) == Bag(current)
            && Lists(d.added, s.added) && Lists(d.removed, removed)
            && |d.updated| == |s.updated|
            && (forall i :: 0 <= i < |d.updated| ==>
                  && d.updated[i].before == s.updated[i].0.stored.node && d.updated[i].after == s.updated[i].1.stored.node
                  && d.updated[i].key == s.updated[i].1.key)
            && (d.changed <==> d.added != [] || d.removed != [] || d.updated != [])
  {
    hide Bag, Befores, Afters, Unmatched, ScriptOf, Matching;
    MatchingIsGreedy(base, current);
    ScriptIsBalanced(base, current, Matching(base, current));
  }

  predicate Lists(nodes: seq<Node>, of: seq<Keyed>) {
    |nodes| == |of| && forall i :: 0 <= i < |nodes| ==> nodes[i] == of[i].stored.node
  }

  /** An update is reported for exactly the pairs that differ, with exactly the fields
  that differ. */
  lemma {:induction false} UpdatesAreChanges(base: seq<Keyed>, current: seq<Keyed>, m: seq<Option<nat>>)
    requires |m| == |current| && Injective(m, |base|)
    ensures var s := ScriptOf(base, current, m);
            && (forall p :: p in s.kept ==> Fields(p.0.stored) == Fields(p.1.stored))
            && (forall p :: p in s.updated ==> Fields(p.0.stored) != Fields(p.1.stored))
            && (forall i, f :: 0 <= i < |s.updated| ==>
                  (f in UpdatesOf(s.updated)[i].changed <==> Differs(f, s.updated[i].0.stored, s.updated[i].1.stored)))
  {
    hide ChangedFields, Fields;
    PairsDiffer(base, current, m);
    forall b, a, f
      ensures f in ChangedFields(b, a) <==> Differs(f, b, a)
    {
      ChangedMeansDiffers(b, a, f);
    }
  }

  lemma ChangedMeansDiffers(b: StoredNode, a: StoredNode, f: Field)
    ensures f in ChangedFields(b, a) <==> Differs(f, b, a)
  {
    AllFieldsListed(f);
  }

  lemma {:induction false} PairsDiffer(base: seq<Keyed>, current: seq<Keyed>, m: seq<Option<nat>>)
    requires |m| == |current| && Injective(m, |base|)
    ensures var s := ScriptOf(base, current, m);
            && (forall p :: p in s.kept ==> Fields(p.0.stored) == Fields(p.1.stored))
            && (forall p :: p in s.updated ==> Fields(p.0.stored) != Fields(p.1.stored))
  {
    hide ChangedFields, Fields;
    if current != [] {
      var n := |current| - 1;
      PairsDiffer(base, current[..n], m[..n]);
      if m[n].Some? {
        UnchangedMeansEqual(base[m[n].value].stored, current[n].stored);
      }
    }
  }

  // ----- the source's loops -----

  function Lookup(index: map<Str, seq<nat>>, x: Str): seq<nat> {
    if x in index then index[x] else []
  }

  function AddMapValue(index: map<Str, seq<nat>>, x: Str, value: nat): map<Str, seq<nat>> {
    index[x := Lookup(index, x) + [value]]
  }

  /** Every name leads to its positions. */
  ghost predicate Indexed(index: map<Str, seq<nat>>, names: seq<Str>) {
    forall x :: Lookup(index, x) == Positions(names, x)
  }

  lemma IndexedNext(index: map<Str, seq<nat>>, names: seq<Str>, x: Str)
    requires Indexed(index, names)
    ensures Indexed(AddMapValue(index, x, |names|), names + [x])
  {
    hide Positions;
    var next := AddMapValue(index, x, |names|);
    forall y
      ensures Lookup(next, y) == Positions(names + [x], y)
    {
      PositionsAppend(names, x, y);
      assert Lookup(index, y) == Positions(names, y);
    }
  }

  lemma PositionsAppend(names: seq<Str>, x: Str, y: Str)
    ensures Positions(names + [x], y) == if x == y then Positions(names, y) + [|names|] else Positions(names, y)
  {
    assert (names + [x])[..|names|] == names;
  }

  method IndexOld(base: seq<Keyed>) returns (byRef: map<Str, seq<nat>>, bySemantic: map<Str, seq<nat>>)
    ensures Indexed(byRef, Refs(base)) && Indexed(bySemantic, Keys(base))
  {
    hide Positions, AddMapValue;
    byRef, bySemantic := map[], map[];
    NothingIndexed();
    for i := 0 to |base|
      invariant Indexed(byRef, Refs(base[..i])) && Indexed(bySemantic, Keys(base[..i]))
    {
      IndexedNext(byRef, Refs(base[..i]), base[i].stored.node.ref);
      IndexedNext(bySemantic, Keys(base[..i]), base[i].key);
      assert Refs(base[..i + 1]) == Refs(base[..i]) + [base[i].stored.node.ref];
      assert Keys(base[..i + 1]) == Keys(base[..i]) + [base[i].key];
      byRef := AddMapValue(byRef, base[i].stored.node.ref, i);
      bySemantic := AddMapValue(bySemantic, base[i].key, i);
    }
    assert base[..|base|] == base;
  }

  lemma NothingIndexed()
    ensures Indexed(map[], [])
  {
  }

  method FindUnused(candidates: seq<nat>, used: set<nat>) returns (r: Option<nat>)
    ensures r == FirstUnused(candidates, used)
  {
    for i := 0 to |candidates|
      invariant FirstUnused(candidates, used) == FirstUnused(candidates[i..], used)
    {
      assert candidates[i..][1..] == candidates[i + 1..];
      if candidates[i] !in used {
        return Some(candidates[i]);
      }
    }
    r := None;
  }

  method Filter(base: seq<Keyed>, used: set<nat>) returns (nodes: seq<Node>)
    ensures nodes == NodesOf(Unmatched(base, used))
  {
    nodes := [];
    for i := 0 to |base|
      invariant nodes == NodesOf(Unmatched(base[..i], used))
    {
      assert base[..i + 1][..i] == base[..i];
      if i !in used {
        nodes := nodes + [base[i].stored.node];
      }
    }
    assert base[..|base|] == base;
  }

  lemma MatchingNext(base: seq<Keyed>, current: seq<Keyed>, i: nat)
    requires i < |current|
    ensures var m := Matching(base, current[..i]);
            Matching(base, current[..i + 1]) == m + [Pick(base, current[i], UsedBy(m))]
  {
    assert current[..i + 1][..i] == current[..i];
  }

  lemma ScriptNext(base: seq<Keyed>, current: seq<Keyed>, i: nat)
    requires i < |current|
    ensures var r := Pick(base, current[i], UsedBy(Matching(base, current[..i])));
            && (r.Some? ==> r.value < |base|)
            && ScriptFor(base, current[..i + 1]) == Extend(ScriptFor(base, current[..i]), base, current[i], r)
            && UsedBy(Matching(base, current[..i + 1])) ==
               (if r.Some? then UsedBy(Matching(base, current[..i])) + {r.value} else UsedBy(Matching(base, current[..i])))
  {
    hide Pick, UsedBy, Extend;
    MatchingNext(base, current, i);
    var m := Matching(base, current[..i]);
    var r := Pick(base, current[i], UsedBy(m));
    MatchingIsGreedy(base, current[..i + 1]);
    assert r == Matching(base, current[..i + 1])[i];
    assert current[..i + 1][..i] == current[..i] && (m + [r])[..i] == m;
    UsedByAppend(m, r);
  }

  /** The comparison loop: fills the two indexes, then matches the current nodes in order. */
  method Compare(base: seq<Keyed>, current: seq<Keyed>) returns (diff: Diff)
    ensures diff == DiffOf(base, current)
  {
    hide Positions, FirstUnused, Matching, ScriptFor, Unmatched, UsedBy, ChangedFields;
    var oldByRef, oldBySemantic := IndexOld(base);
    var used: set<nat>, added: seq<Node>, updated: seq<Update> := {}, [], [];
    NothingYet(base, current);
    for i := 0 to |current|
      invariant used == UsedBy(Matching(base, current[..i]))
      invariant var s := ScriptFor(base, current[..i]); added == NodesOf(s.added) && updated == UpdatesOf(s.updated)
    {
      var c := current[i];
      assert Lookup(oldByRef, c.stored.node.ref) == Positions(Refs(base), c.stored.node.ref);
      assert Lookup(oldBySemantic, c.key) == Positions(Keys(base), c.key);
      var found := FindUnused(Lookup(oldByRef, c.stored.node.ref) + Lookup(oldBySemantic, c.key), used);
      ScriptNext(base, current, i);
      if found.None? {
        added := added + [c.stored.node];
      } else {
        var stored := base[found.value].stored;
        used := used + {found.value};
        var changed := ChangedFields(stored, c.stored);
        if |changed| > 0 {
          updated := updated + [Update(c.key, stored.node, c.stored.node, changed)];
        }
      }
    }
    assert current[..|current|] == current;
    var removed := Filter(base, used);
    diff := Diff(added, removed, updated, |added| > 0 || |removed| > 0 || |updated| > 0);
  }

  lemma NothingYet(base: seq<Keyed>, current: seq<Keyed>)
    ensures UsedBy(Matching(base, current[..0])) == {}
    ensures ScriptFor(base, current[..0]) == Script([], [], [])
  {
    assert current[..0] == [];
  }

  // ----- an observation compared with itself -----

  predicate SameRefs(base: seq<Keyed>, current: seq<Keyed>) {
    |base| == |current| && forall i :: 0 <= i < |base| ==> base[i].stored.node.ref == current[i].stored.node.ref
  }

  function InPlace(n: nat): (m: seq<Option<nat>>)
    ensures |m| == n && forall i :: 0 <= i < n ==> m[i] == Some(i)
  {
    seq(n, i requires 0 <= i < n => Some(i))
  }

  /** Nodes whose refs stand in the same places are matched place by place, whether or not
  the refs are unique. */
  lemma {:induction false} SameRefsMatchInPlace(base: seq<Keyed>, current: seq<Keyed>, n: nat)
    requires SameRefs(base, current) && n <= |current|
    ensures Matching(base, current[..n]) == InPlace(n)
  {
    hide Pick, UsedBy;
    if n > 0 {
      SameRefsMatchInPlace(base, current, n - 1);
      MatchingNext(base, current, n - 1);
      var used := UsedBy(InPlace(n - 1));
      forall j: nat
        ensures j in used <==> j < n - 1
      {
        assert j < n - 1 ==> InPlace(n - 1)[j] == Some(j);
      }
      PickIsChosen(base, current[n - 1], used);
      ChosenInPlace(base, current[n - 1], used, n - 1);
    } else {
      assert current[..0] == [];
    }
  }

  lemma ChosenInPlace(base: seq<Keyed>, c: Keyed, used: set<nat>, n: nat)
    requires n < |base| && base[n].stored.node.ref == c.stored.node.ref
    requires forall j: nat :: j in used <==> j < n
    ensures Pick(base, c, used) == Some(n)
  {
    hide Pick, Positions, FirstUnused;
    PickIsChosen(base, c, used);
    assert Chosen(base, c, used, Some(n));
    ChosenOnce(base, c, used, Some(n), Pick(base, c, used));
  }

  lemma {:induction false} InPlaceScript(base: seq<Keyed>, current: seq<Keyed>, n: nat)
    requires SameRefs(base, current) && n <= |current|
    ensures var s := ScriptOf(base, current[..n], InPlace(n));
            && s.added == []
            && (s.updated == [] <==> forall i :: 0 <= i < n ==> Fields(base[i].stored) == Fields(current[i].stored))
  {
    hide ChangedFields, Fields;
    if n > 0 {
      InPlaceScript(base, current, n - 1);
      assert current[..n][..n - 1] == current[..n - 1] && InPlace(n)[..n - 1] == InPlace(n - 1);
      UnchangedMeansEqual(base[n - 1].stored, current[n - 1].stored);
    }
  }

  lemma {:induction false} AllMatched(base: seq<Keyed>, used: set<nat>)
    requires forall j :: 0 <= j < |base| ==> j in used
    ensures Unmatched(base, used) == []
  {
    if base != [] {
      AllMatched(base[..|base| - 1], used);
    }
  }

  lemma InPlaceUsesAll(n: nat)
    ensures forall j :: 0 <= j < n ==> j in UsedBy(InPlace(n))
  {
    hide UsedBy;
    forall j | 0 <= j < n
      ensures j in UsedBy(InPlace(n))
    {
      assert InPlace(n)[j] == Some(j);
    }
  }

  /** Then nothing is added or removed, and the diff is empty exactly when all compared
  fields agree, place by place. */
  lemma DiffInPlace(base: seq<Keyed>, current: seq<Keyed>)
    requires SameRefs(base, current)
    ensures var d := DiffOf(base, current);
            && d.added == [] && d.removed == []
            && (d.changed <==> exists i :: 0 <= i < |base| && Fields(base[i].stored) != Fields(current[i].stored))
  {
    hide Matching, ScriptOf, Unmatched, UsedBy, ChangedFields, Fields;
    var n := |current|;
    assert current[..n] == current;
    SameRefsMatchInPlace(base, current, n);
    InPlaceScript(base, current, n);
    InPlaceUsesAll(n);
    AllMatched(base, UsedBy(InPlace(n)));
  }

  // ----- stored nodes -----

  function KeyAll(nodes: seq<StoredNode>): (r: Option<seq<Keyed>>)
    ensures r.Some? <==> forall i :: 0 <= i < |nodes| ==> SemanticKey(nodes[i].node).Some?
    ensures r.Some? ==> |r.value| == |nodes|
    ensures r.Some? ==> forall i :: 0 <= i < |nodes| ==> r.value[i].stored == nodes[i]
  {
    if forall i :: 0 <= i < |nodes| ==> SemanticKey(nodes[i].node).Some?
    then Some(seq(|nodes|, i requires 0 <= i < |nodes| => Keyed(nodes[i], SemanticKey(nodes[i].node).GetOr([]))))
    else None
  }

  /** The whole diff, with its errors: the current nodes are normalised once more. */
  function MakeDiff(base: seq<StoredNode>, current: seq<Node>): Result<Diff, Error> {
    match NormalizeAll(current)
    case Err(e) => Err(e)
    case Ok(nodes) =>
      match (KeyAll(base), KeyAll(nodes))
      case (Some(b), Some(c)) => Ok(DiffOf(b, c))
      case (_, _) => Err(UriError)
  }

  method CompareNodes(base: seq<StoredNode>, current: seq<Node>) returns (r: Result<Diff, Error>)
    ensures r == MakeDiff(base, current)
  {
    var nodes := NormalizeAll(current);
    if nodes.Err? {
      return Err(nodes.error);
    }
    var before, after := KeyAll(base), KeyAll(nodes.value);
    if before.None? || after.None? {
      return Err(UriError);
    }
    var diff := Compare(before.value, after.value);
    r := Ok(diff);
  }

  function PublicNodes(nodes: seq<StoredNode>): (r: seq<Node>)
    ensures |r| == |nodes| && forall i :: 0 <= i < |nodes| ==> r[i] == nodes[i].node
  {
    seq(|nodes|, i requires 0 <= i < |nodes| => nodes[i].node)
  }

  function StoredForm(nodes: seq<StoredNode>): (r: seq<StoredNode>)
    ensures |r| == |nodes| && forall i :: 0 <= i < |nodes| ==> r[i] == WithoutText(nodes[i])
  {
    seq(|nodes|, i requires 0 <= i < |nodes| => WithoutText(nodes[i]))
  }

  // ----- which nodes survive being normalised twice -----

  predicate StableText(s: Str, maxLength: nat) { s != [] ==> !CutAfterSpace(s, maxLength) }

  /** An optional string that is neither blank nor cut behind a space. */
  predicate StableOption(s: Option<Str>) {
    s.Some? && s.value != [] ==>
      BoundedText(s.value, MAX_NODE_STRING_LENGTH) != [] && !CutAfterSpace(s.value, MAX_NODE_STRING_LENGTH)
  }

  /** A node that a history compares with itself without finding a change. */
  predicate Stable(n: Node) {
    && StableText(n.role, MAX_NODE_STRING_LENGTH) && StableText(n.tag, MAX_NODE_STRING_LENGTH)
    && StableText(n.name, MAX_NAME_LENGTH)
    && StableOption(n.typ) && StableOption(n.testId) && StableOption(n.frameId)
    && (SensitiveType(BoundedOption(n.typ)) ==> n.hasValue || SensitiveType(n.typ))
    && (n.text.Some? && n.text.value != [] ==> SnapshotText.Settled(n.text.value, MAX_NODE_STRING_LENGTH))
  }

  lemma BoundedTwice(s: Str, maxLength: nat)
    ensures Bounded(Bounded(s, maxLength), maxLength) == Bounded(s, maxLength) <==> StableText(s, maxLength)
  {
    hide BoundedText, CutAfterSpace;
    if s != [] {
      BoundedTextTwice(s, maxLength);
      BoundedEmpty(maxLength);
    }
  }

  lemma BoundedEmpty(maxLength: nat)
    ensures BoundedText([], maxLength) == []
  {
  }

  lemma BoundedOptionTwice(s: Option<Str>)
    ensures BoundedOption(BoundedOption(s)) == BoundedOption(s) <==> StableOption(s)
  {
    hide BoundedText, CutAfterSpace;
    if s.Some? && s.value != [] {
      BoundedTextTwice(s.value, MAX_NODE_STRING_LENGTH);
    }
  }

  lemma DigestTwice(text: Option<Str>)
    ensures TextDigest(BoundedOption(text)) == TextDigest(text) <==>
              (text.Some? && text.value != [] ==> SnapshotText.Settled(text.value, MAX_NODE_STRING_LENGTH))
  {
    hide BoundedText, SnapshotText.Settled;
    if text.Some? && text.value != [] {
      SettledIsFixed(text.value, MAX_NODE_STRING_LENGTH);
    }
  }

  /** What is stored of a node and what a diff makes of its public form have the same
  compared fields exactly when the node is stable. */
  lemma StableFields(n: Node)
    ensures var once := NormalizedNode(n);
            var before, after := WithoutText(StoredNode(once, TextDigest(n.text))), StoredNode(NormalizedNode(once), TextDigest(once.text));
            Fields(before) == Fields(after) <==> Stable(n)
  {
    hide Bounded, BoundedOption, BoundedText, TextDigest, StableText, StableOption, SensitiveType, SnapshotText.Settled;
    BoundedTwice(n.role, MAX_NODE_STRING_LENGTH);
    BoundedTwice(n.tag, MAX_NODE_STRING_LENGTH);
    BoundedTwice(n.name, MAX_NAME_LENGTH);
    BoundedOptionTwice(n.typ);
    BoundedOptionTwice(n.testId);
    BoundedOptionTwice(n.frameId);
    DigestTwice(n.text);
  }

  lemma RefIsStable(ref: Str)
    requires |ref| <= MAX_REF_LENGTH
    ensures BoundedText(BoundedText(ref, MAX_REF_LENGTH), MAX_REF_LENGTH) == BoundedText(ref, MAX_REF_LENGTH)
  {
    ShortIsNotCut(ref, MAX_REF_LENGTH);
    BoundedTextTwice(ref, MAX_REF_LENGTH);
  }

  // ----- nodes without a key -----

  /** A node without a test id raises when a part of its key has half a surrogate pair. */
  predicate KeyRaises(n: Node) {
    !HasTestId(n) && !(WellFormed(Frame(n)) && WellFormed(n.role) && WellFormed(n.tag) && WellFormed(n.name)
                       && WellFormed(n.typ.GetOr([])))
  }

  lemma SemanticIsWellFormed()
    ensures WellFormed(Json.Ascii("semantic")) && WellFormed(Json.Ascii("main"))
  {
    AsciiIsWellFormed("semantic");
    AsciiIsWellFormed("main");
  }

  lemma AsciiIsWellFormed(s: string)
    ensures WellFormed(Json.Ascii(s))
  {
    var t := Json.Ascii(s);
    assert forall i :: 0 <= i < |t| ==> !High(t[i]) && !Low(t[i]);
    PlainIsWellFormed(t);
  }

  lemma {:induction false} PlainIsWellFormed(s: Str)
    requires forall i :: 0 <= i < |s| ==> !High(s[i]) && !Low(s[i])
    ensures WellFormed(s)
  {
    if s != [] {
      PlainIsWellFormed(s[1..]);
    }
  }

  lemma KeyExists(n: Node)
    ensures SemanticKey(n).Some? <==> !KeyRaises(n)
  {
    hide WellFormed, Json.Ascii, Frame;
    SemanticIsWellFormed();
    var parts := KeyParts(n);
    assert parts[0] == Json.Ascii("semantic") && parts[1] == Frame(n) && parts[2] == n.role && parts[3] == n.tag
           && parts[4] == n.name && parts[5] == n.typ.GetOr([]);
  }

  lemma SpaceDropped(r: Str)
    requires r != [] && r[|r| - 1] == SPACE && StartsClean(r)
    ensures WellFormed(r[..|r| - 1]) <==> WellFormed(r)
    ensures r[..|r| - 1] != []
  {
    hide WellFormed;
    assert r == r[..|r| - 1] + [SPACE];
    PlainEnd(r[..|r| - 1], SPACE);
  }

  /** Bounding again drops at most a space at the end. */
  lemma BoundedAgain(s: Str, maxLength: nat)
    ensures WellFormed(BoundedText(BoundedText(s, maxLength), maxLength)) <==> WellFormed(BoundedText(s, maxLength))
    ensures BoundedText(BoundedText(s, maxLength), maxLength) == [] <==> BoundedText(s, maxLength) == []
  {
    BoundedTextTwice(s, maxLength);
    if CutAfterSpace(s, maxLength) {
      hide WellFormed, Tidy, Line;
      BoundedTextIsTidy(s, maxLength);
      SpaceDropped(BoundedText(s, maxLength));
    }
  }

  lemma BoundedOptionAgain(s: Option<Str>)
    ensures var once := BoundedOption(s);
            var twice := BoundedOption(once);
            && (WellFormed(twice.GetOr([])) <==> WellFormed(once.GetOr([])))
            && (twice.GetOr([]) == [] <==> once.GetOr([]) == [])
            && (once.None? ==> twice.None?)
            && (twice.None? ==> once.GetOr([]) == [])
  {
    hide BoundedText;
    if s.Some? && s.value != [] {
      BoundedAgain(s.value, MAX_NODE_STRING_LENGTH);
    }
  }

  lemma BoundedStringAgain(s: Str, maxLength: nat)
    ensures WellFormed(Bounded(Bounded(s, maxLength), maxLength)) <==> WellFormed(Bounded(s, maxLength))
  {
    hide BoundedText;
    if s != [] {
      BoundedAgain(s, maxLength);
      BoundedEmpty(maxLength);
    }
  }

  lemma RaisesAgain(n: Node)
    ensures KeyRaises(NormalizedNode(NormalizedNode(n))) <==> KeyRaises(NormalizedNode(n))
  {
    hide Bounded, BoundedOption, BoundedText, WellFormed, SensitiveType, Json.Ascii;
    SemanticIsWellFormed();
    EmptyIsWellFormed();
    BoundedStringAgain(n.role, MAX_NODE_STRING_LENGTH);
    BoundedStringAgain(n.tag, MAX_NODE_STRING_LENGTH);
    BoundedStringAgain(n.name, MAX_NAME_LENGTH);
    BoundedOptionAgain(n.typ);
    BoundedOptionAgain(n.testId);
    BoundedOptionAgain(n.frameId);
  }

  lemma EmptyIsWellFormed()
    ensures WellFormed([])
  {
  }

  /** A base with such a node refuses every later diff. */
  lemma RaisingBaseRefusesAll(base: seq<StoredNode>, current: seq<Node>, i: nat)
    requires i < |base| && KeyRaises(base[i].node)
    ensures MakeDiff(base, current) == Err(if NormalizeAll(current).Err? then InvalidSnapshot else UriError)
  {
    hide SemanticKey, KeyRaises;
    KeyExists(base[i].node);
  }

  /** What a diff of an observation with its own record works on. */
  lemma OwnNodes(raw: seq<Node>)
    requires NormalizeAll(raw).Ok?
    ensures var stored := NormalizeAll(raw).value;
            forall i :: 0 <= i < |raw| ==>
              var base, public := StoredForm(stored)[i], PublicNodes(stored)[i];
              && public == NormalizedNode(raw[i])
              && (Acceptable(public) <==> BoundedText(raw[i].ref, MAX_REF_LENGTH) != [])
              && NormalizedNode(public).ref == base.node.ref
              && (Stable(raw[i]) <==> Fields(base) == Fields(StoredNode(NormalizedNode(public), TextDigest(public.text))))
              && (KeyRaises(base.node) <==> KeyRaises(NormalizedNode(raw[i])))
              && (KeyRaises(NormalizedNode(public)) <==> KeyRaises(NormalizedNode(raw[i])))
  {
    hide NormalizedNode, BoundedText, Stable, Fields;
    var stored := NormalizeAll(raw).value;
    forall i | 0 <= i < |raw|
      ensures var base, public := StoredForm(stored)[i], PublicNodes(stored)[i];
              && public == NormalizedNode(raw[i])
              && (Acceptable(public) <==> BoundedText(raw[i].ref, MAX_REF_LENGTH) != [])
              && NormalizedNode(public).ref == base.node.ref
              && (Stable(raw[i]) <==> Fields(base) == Fields(StoredNode(NormalizedNode(public), TextDigest(public.text))))
              && (KeyRaises(base.node) <==> KeyRaises(NormalizedNode(raw[i])))
              && (KeyRaises(NormalizedNode(public)) <==> KeyRaises(NormalizedNode(raw[i])))
    {
      assert Ok(stored[i]) == NormalizeStoredNode(raw[i]);
      OwnNode(raw[i]);
      StableFields(raw[i]);
      RaisesAgain(raw[i]);
    }
  }

  predicate SomeBlankRef(raw: seq<Node>) {
    exists i :: 0 <= i < |raw| && BoundedText(raw[i].ref, MAX_REF_LENGTH) == []
  }

  predicate SomeRaises(raw: seq<Node>) { exists i :: 0 <= i < |raw| && KeyRaises(NormalizedNode(raw[i])) }

  /** Diffing an observation with its own record: refused exactly when a ref is blank, raising
  a URIError exactly when none is and the key of some recorded node raises, and otherwise
  empty exactly when every node is stable. */
  lemma OwnRecordIsUnchanged(raw: seq<Node>)
    requires NormalizeAll(raw).Ok?
    ensures var stored := NormalizeAll(raw).value;
            var d := MakeDiff(StoredForm(stored), PublicNodes(stored));
            && (d == Err(InvalidSnapshot) <==> SomeBlankRef(raw))
            && (d == Err(UriError) <==> !SomeBlankRef(raw) && SomeRaises(raw))
            && (d.Ok? <==> !SomeBlankRef(raw) && !SomeRaises(raw))
            && (d.Ok? ==> d.value.added == [] && d.value.removed == []
                          && (d.value.changed <==> exists i :: 0 <= i < |raw| && !Stable(raw[i])))
  {
    hide NormalizedNode, WithoutText, BoundedText, Stable, Fields, DiffOf, SemanticKey, KeyRaises, Acceptable;
    var stored := NormalizeAll(raw).value;
    var base, public := StoredForm(stored), PublicNodes(stored);
    OwnNodes(raw);
    var current := NormalizeAll(public);
    if current.Ok? {
      assert forall i :: 0 <= i < |raw| ==> Ok(current.value[i]) == NormalizeStoredNode(public[i]);
      forall i | 0 <= i < |raw|
        ensures SemanticKey(base[i].node).Some? <==> !KeyRaises(NormalizedNode(raw[i]))
        ensures SemanticKey(current.value[i].node).Some? <==> !KeyRaises(NormalizedNode(raw[i]))
      {
        KeyExists(base[i].node);
        KeyExists(current.value[i].node);
      }
      if KeyAll(base).Some? && KeyAll(current.value).Some? {
        var b, c := KeyAll(base).value, KeyAll(current.value).value;
        DiffInPlace(b, c);
        assert forall i :: 0 <= i < |raw| ==>
          (Fields(b[i].stored) == Fields(c[i].stored) <==> Stable(raw[i]));
      }
    }
  }

  // ----- a name that is cut inside a character -----

  function LongName(): (r: Str)
    ensures |r| == 201 && r[199] == 0xD83D && r[200] == 0xDE00 && forall i :: 0 <= i < 199 ==> r[i] == 0x61
  {
    seq(199, _ => 0x61) + [0xD83D, 0xDE00]
  }

  lemma {:induction false} PlainFront(s: Str, t: Str)
    requires forall i :: 0 <= i < |s| ==> !High(s[i]) && !Low(s[i])
    ensures WellFormed(s + t) <==> WellFormed(t)
  {
    if s == [] {
      assert s + t == t;
    } else {
      PlainFront(s[1..], t);
      assert (s + t)[1..] == s[1..] + t;
    }
  }

  lemma LongNameIsWellFormed()
    ensures WellFormed(LongName())
  {
    PlainFront(seq(199, _ => 0x61), [0xD83D, 0xDE00]);
    assert [0xD83D, 0xDE00][2..] == [];
  }

  lemma LongNameIsSplit()
    ensures SplitsPair(LongName(), MAX_NAME_LENGTH)
  {
    hide LongName;
    var s := LongName();
    forall i | 0 <= i < |s|
      ensures !Control(s[i]) && !White(s[i])
    {
      assert s[i] == 0x61 || s[i] == 0xD83D || s[i] == 0xDE00;
    }
    assert Tidy(s);
    hide Tidy, Line;
    LineOfTidy(s, MAX_NAME_LENGTH);
  }

  /** 199 letters and a character of two units: a well-formed name, whose record refuses to be
  compared with itself. */
  lemma CutNameRefusesDiff(n: Node)
    requires n.ref == [0x65] && SafeRevision(n.generation) && n.name == LongName() && !HasTestId(n)
    ensures WellFormed(n.name) && NormalizeAll([n]).Ok?
    ensures var stored := NormalizeAll([n]).value; MakeDiff(StoredForm(stored), PublicNodes(stored)) == Err(UriError)
  {
    hide MakeDiff, WellFormed, BoundedText, SplitsPair, LongName;
    LongNameIsWellFormed();
    LongNameIsSplit();
    BoundedTextWellFormed(n.name, MAX_NAME_LENGTH);
    NameIsKept(n);
    assert KeyRaises(NormalizedNode([n][0]));
    ShortRefIsNotBlank();
    OwnRecordIsUnchanged([n]);
  }

  lemma NameIsKept(n: Node)
    requires n.name == LongName() && !HasTestId(n)
    ensures NormalizedNode(n).name == BoundedText(n.name, MAX_NAME_LENGTH) && !HasTestId(NormalizedNode(n))
  {
    hide BoundedText;
  }

  lemma ShortRefIsNotBlank()
    ensures BoundedText([0x65], MAX_REF_LENGTH) == [0x65]
  {
    var s := [0x65];
    assert Tidy(s);
    BoundedTextOfTidy(s, MAX_REF_LENGTH);
  }

  lemma OwnNode(n: Node)
    requires Acceptable(n)
    ensures var once := NormalizedNode(n);
            && (Acceptable(once) <==> BoundedText(n.ref, MAX_REF_LENGTH) != [])
            && NormalizedNode(once).ref == once.ref && WithoutText(StoredNode(once, TextDigest(n.text))).node.ref == once.ref
  {
    hide Bounded, BoundedOption, BoundedText, TextDigest, SensitiveType;
    RefIsStable(n.ref);
  }
}