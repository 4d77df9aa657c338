/** The edit-distance table (src/browser/adaptive-locator.ts) computes the least cost of an
edit script, and that cost is a metric. */
module EditDistance {
  import opened Common
  import opened Text

  // ----- scripts -----

  datatype Op = Keep(c: CodeUnit) | Substitute(gone: CodeUnit, put: CodeUnit) | Insert(put: CodeUnit) | Delete(gone: CodeUnit)

  type Script = seq<Op>

  function Consumed(op: Op): Str {
    match op
    case Keep(c) => [c]
    case Substitute(x, _) => [x]
    case Insert(_) => []
    case Delete(x) => [x]
  }

  function Produced(op: Op): Str {
    match op
    case Keep(c) => [c]
    case Substitute(_, y) => [y]
    case Insert(y) => [y]
    case Delete(_) => []
  }

  function Source(s: Script): Str {
    if s == [] then [] else Source(s[..|s| - 1]) + Consumed(s[|s| - 1])
  }

  function Target(s: Script): Str {
    if s == [] then [] else Target(s[..|s| - 1]) + Produced(s[|s| - 1])
  }

  function OpCost(op: Op): nat { if op.Keep? then 0 else 1 }

  function Cost(s: Script): nat {
    if s == [] then 0 else Cost(s[..|s| - 1]) + OpCost(s[|s| - 1])
  }

  lemma Append(s: Script, op: Op)
    ensures Source(s + [op]) == Source(s) + Consumed(op)
    ensures Target(s + [op]) == Target(s) + Produced(op)
    ensures Cost(s + [op]) == Cost(s) + OpCost(op)
  {
    assert (s + [op])[..|s|] == s;
  }

  // ----- the distance -----

  function Min3(a: nat, b: nat, c: nat): nat {
    if a <= b && a <= c then a else if b <= c then b else c
  }

  function Front(s: Str): Str
    requires s != []
  {
    s[..|s| - 1]
  }

  function Last(s: Str): CodeUnit
    requires s != []
  {
    s[|s| - 1]
  }

  /** The recurrence that the table follows. */
  function Distance(a: Str, b: Str): nat
    decreases |a| + |b|
  {
    if a == [] then |b|
    else if b == [] then |a|
    else Min3(Distance(Front(a), b) + 1,
              Distance(a, Front(b)) + 1,
              Distance(Front(a), Front(b)) + (if Last(a) == Last(b) then 0 else 1))
  }

  /** No script from a to b costs less than the distance. */
  lemma {:induction false} DistanceIsLeast(s: Script)
    ensures Distance(Source(s), Target(s)) <= Cost(s)
  {
    if s != [] {
      var front, op := s[..|s| - 1], s[|s| - 1];
      var a, b := Source(front), Target(front);
      DistanceIsLeast(front);
      ExtendedDistance(a, b, op);
    }
  }

  lemma ExtendedDistance(a: Str, b: Str, op: Op)
    ensures Distance(a + Consumed(op), b + Produced(op)) <= Distance(a, b) + OpCost(op)
  {
    var x, y := a + Consumed(op), b + Produced(op);
    match op
    case Insert(_) =>
      assert x == a && Front(y) == b;
    case Delete(_) =>
      assert y == b && Front(x) == a;
    case _ =>
      assert Front(x) == a && Front(y) == b;
  }

  /** The last step of a cheapest script. */
  lemma LastStep(a: Str, b: Str) returns (x: Str, y: Str, op: Op)
    requires a != [] || b != []
    ensures a == x + Consumed(op) && b == y + Produced(op)
    ensures Distance(a, b) == Distance(x, y) + OpCost(op)
    ensures |x| + |y| < |a| + |b|
  {
    if a == [] || (b != [] && Distance(a, b) == Distance(a, Front(b)) + 1) {
      x, y, op := a, Front(b), Insert(Last(b));
    } else if b == [] || Distance(a, b) == Distance(Front(a), b) + 1 {
      x, y, op := Front(a), b, Delete(Last(a));
    } else {
      x, y, op := Front(a), Front(b), if Last(a) == Last(b) then Keep(Last(a)) else Substitute(Last(a), Last(b));
    }
  }

  /** Some script from a to b costs exactly the distance. */
  lemma {:induction false} DistanceIsAttained(a: Str, b: Str) returns (s: Script)
    ensures Source(s) == a && Target(s) == b && Cost(s) == Distance(a, b)
    decreases |a| + |b|
  {
    if a == [] && b == [] {
      s := [];
    } else {
      hide Distance;
      var x, y, op := LastStep(a, b);
      var t := DistanceIsAttained(x, y);
      Append(t, op);
      s := t + [op];
    }
  }

  // ----- a metric -----

  function Inverse(op: Op): Op {
    match op
    case Keep(c) => Keep(c)
    case Substitute(x, y) => Substitute(y, x)
    case Insert(y) => Delete(y)
    case Delete(x) => Insert(x)
  }

  function Undo(s: Script): Script {
    if s == [] then [] else Undo(s[..|s| - 1]) + [Inverse(s[|s| - 1])]
  }

  lemma {:induction false} UndoSwaps(s: Script)
    ensures Source(Undo(s)) == Target(s) && Target(Undo(s)) == Source(s) && Cost(Undo(s)) == Cost(s)
  {
    if s != [] {
      UndoSwaps(s[..|s| - 1]);
      Append(Undo(s[..|s| - 1]), Inverse(s[|s| - 1]));
    }
  }

  lemma NoFartherBack(a: Str, b: Str)
    ensures Distance(b, a) <= Distance(a, b)
  {
    hide Distance;
    var s := DistanceIsAttained(a, b);
    UndoSwaps(s);
    DistanceIsLeast(Undo(s));
  }

  lemma DistanceIsSymmetric(a: Str, b: Str)
    ensures Distance(a, b) == Distance(b, a)
  {
    hide Distance;
    NoFartherBack(a, b);
    NoFartherBack(b, a);
  }

  lemma {:induction false} FreeScriptKeeps(s: Script)
    requires Cost(s) == 0
    ensures Source(s) == Target(s)
  {
    if s != [] {
      FreeScriptKeeps(s[..|s| - 1]);
    }
  }

  lemma {:induction false} NoDistanceToItself(a: Str)
    ensures Distance(a, a) == 0
  {
    if a != [] {
      NoDistanceToItself(Front(a));
    }
  }

  lemma DistanceIsZero(a: Str, b: Str)
    ensures Distance(a, b) == 0 <==> a == b
  {
    hide Distance;
    NoDistanceToItself(a);
    var s := DistanceIsAttained(a, b);
    if Distance(a, b) == 0 {
      FreeScriptKeeps(s);
    }
  }

  /** What two operations on the same character do together; nothing when an insertion is
  deleted again. */
  function Fuse(op: Op, next: Op): Option<Op>
    requires !op.Delete? && !next.Insert? && Produced(op) == Consumed(next)
  {
    match op
    case Insert(_) => if next.Delete? then None else Some(Insert(Produced(next)[0]))
    case Keep(c) => Some(next)
    case Substitute(x, _) =>
      if next.Delete? then Some(Delete(x))
      else if Produced(next)[0] == x then Some(Keep(x)) else Some(Substitute(x, Produced(next)[0]))
  }

  lemma FuseEffect(op: Op, next: Op)
    requires !op.Delete? && !next.Insert? && Produced(op) == Consumed(next)
    ensures match Fuse(op, next)
            case None => Consumed(op) == [] && Produced(next) == []
            case Some(f) => Consumed(f) == Consumed(op) && Produced(f) == Produced(next) && OpCost(f) <= OpCost(op) + OpCost(next)
  {
  }

  /** A script from a to b and one from b to c make one from a to c that costs no more
  than both. */
  lemma {:induction false} Compose(s: Script, t: Script) returns (u: Script)
    requires Target(s) == Source(t)
    ensures Source(u) == Source(s) && Target(u) == Target(t) && Cost(u) <= Cost(s) + Cost(t)
    decreases |s| + |t|
  {
    if s != [] && s[|s| - 1].Delete? {
      var v := Compose(s[..|s| - 1], t);
      Append(v, s[|s| - 1]);
      u := v + [s[|s| - 1]];
    } else if t != [] && t[|t| - 1].Insert? {
      var v := Compose(s, t[..|t| - 1]);
      Append(v, t[|t| - 1]);
      u := v + [t[|t| - 1]];
    } else if s == [] || t == [] {
      BothEmpty(s, t);
      u := [];
    } else {
      u := ComposeFused(s, t);
    }
  }

  lemma BothEmpty(s: Script, t: Script)
    requires Target(s) == Source(t) && (s == [] || t == [])
    requires s != [] ==> !s[|s| - 1].Delete?
    requires t != [] ==> !t[|t| - 1].Insert?
    ensures s == [] && t == []
  {
  }

  lemma SameEnd(s: Script, t: Script)
    requires s != [] && t != [] && Target(s) == Source(t) && !s[|s| - 1].Delete? && !t[|t| - 1].Insert?
    ensures Produced(s[|s| - 1]) == Consumed(t[|t| - 1])
    ensures Target(s[..|s| - 1]) == Source(t[..|t| - 1])
  {
    var x, y := Target(s[..|s| - 1]), Source(t[..|t| - 1]);
    var op, next := s[|s| - 1], t[|t| - 1];
    var p, c := Produced(op), Consumed(next);
    assert x + p == y + c && |p| == 1 && |c| == 1;
    assert (x + p)[|x|] == p[0] && (y + c)[|y|] == c[0];
    assert (x + p)[..|x|] == x && (y + c)[..|y|] == y;
  }

  lemma {:induction false} ComposeFused(s: Script, t: Script) returns (u: Script)
    requires s != [] && t != [] && Target(s) == Source(t) && !s[|s| - 1].Delete? && !t[|t| - 1].Insert?
    ensures Source(u) == Source(s) && Target(u) == Target(t) && Cost(u) <= Cost(s) + Cost(t)
    decreases |s| + |t|, 0
  {
    hide Fuse;
    var op, next := s[|s| - 1], t[|t| - 1];
    SameEnd(s, t);
    FuseEffect(op, next);
    u := Compose(s[..|s| - 1], t[..|t| - 1]);
    match Fuse(op, next)
    case None =>
    case Some(f) =>
      Append(u, f);
      u := u + [f];
  }

  lemma TriangleInequality(a: Str, b: Str, c: Str)
    ensures Distance(a, c) <= Distance(a, b) + Distance(b, c)
  {
    hide Distance;
    var s := DistanceIsAttained(a, b);
    var t := DistanceIsAttained(b, c);
    var u := Compose(s, t);
    DistanceIsLeast(u);
  }

  /** The distance is at most the longer length and at least the difference of the lengths. */
  lemma {:induction false} DistanceIsBounded(a: Str, b: Str)
    ensures Distance(a, b) <= Max(|a|, |b|)
    ensures Distance(a, b) >= |a| - |b| && Distance(a, b) >= |b| - |a|
    decreases |a| + |b|
  {
    if a != [] && b != [] {
      DistanceIsBounded(Front(a), b);
      DistanceIsBounded(a, Front(b));
      DistanceIsBounded(Front(a), Front(b));
    }
  }
}
