/** Text that a snapshot keeps of a page: one line, single spaces, bounded length
(src/browser/snapshot-history.ts, boundedText). */
module SnapshotText {
  import opened Text

  const SPACE: CodeUnit := 0x20

  predicate Control(u: CodeUnit) { u < 0x20 || u == 0x7F }

  /** The white space of a regular expression's \s and of trim(). */
  predicate White(u: CodeUnit) {
    || 0x09 <= u <= 0x0D || u == 0x20 || u == 0xA0 || u == 0x1680 || 0x2000 <= u <= 0x200A
    || u == 0x2028 || u == 0x2029 || u == 0x202F || u == 0x205F || u == 0x3000 || u == 0xFEFF
  }

  function Take(s: Str, n: nat): (r: Str)
    ensures |r| <= n && r <= s
    ensures |s| <= n ==> r == s
  {
    if |s| <= n then s else s[..n]
  }

  /** Control characters become spaces. */
  function Blank(s: Str): (r: Str)
    ensures |r| == |s|
    ensures forall i :: 0 <= i < |s| ==> r[i] == if Control(s[i]) then SPACE else s[i]
  {
    if s == [] then [] else [if Control(s[0]) then SPACE else s[0]] + Blank(s[1..])
  }

  /** Every run of white space becomes one space. */
  function Collapse(s: Str): (r: Str)
    ensures |r| <= |s|
    ensures s != [] ==> r != [] && (White(s[0]) ==> r[0] == SPACE) && (!White(s[0]) ==> r[0] == s[0])
  {
    if s == [] then []
    else if !White(s[0]) then [s[0]] + Collapse(s[1..])
    else if |s| > 1 && White(s[1]) then Collapse(s[1..])
    else [SPACE] + Collapse(s[1..])
  }

  function TrimStart(s: Str): Str {
    if s != [] && White(s[0]) then TrimStart(s[1..]) else s
  }

  function TrimEnd(s: Str): Str {
    if s != [] && White(s[|s| - 1]) then TrimEnd(s[..|s| - 1]) else s
  }

  function Trim(s: Str): Str { TrimEnd(TrimStart(s)) }

  /** The whole line before its last cut. */
  function Line(value: Str, maxLength: nat): Str {
    Trim(Collapse(Blank(Take(value, maxLength * 4))))
  }

  function BoundedText(value: Str, maxLength: nat): (r: Str)
    ensures |r| <= maxLength
  {
    Take(Line(value, maxLength), maxLength)
  }

  // ----- what the result looks like -----

  /** No control character, no white space but single spaces. */
  predicate Tidy(s: Str) {
    && (forall i :: 0 <= i < |s| ==> !Control(s[i]) && (White(s[i]) ==> s[i] == SPACE))
    && (forall i :: 0 < i < |s| && s[i] == SPACE ==> s[i - 1] != SPACE)
  }

  predicate StartsClean(s: Str) { s != [] ==> s[0] != SPACE }

  predicate EndsClean(s: Str) { s != [] ==> s[|s| - 1] != SPACE }

  lemma TidyCons(u: CodeUnit, s: Str)
    requires Tidy(s) && !Control(u) && (White(u) ==> u == SPACE && StartsClean(s))
    ensures Tidy([u] + s)
  {
    var t := [u] + s;
    assert forall i :: 0 < i < |t| ==> t[i] == s[i - 1];
  }

  lemma {:induction false} CollapsedIsTidy(s: Str)
    requires forall i :: 0 <= i < |s| ==> !Control(s[i])
    ensures Tidy(Collapse(s))
  {
    if s != [] {
      CollapsedIsTidy(s[1..]);
      if !White(s[0]) {
        TidyCons(s[0], Collapse(s[1..]));
      } else if !(|s| > 1 && White(s[1])) {
        TidyCons(SPACE, Collapse(s[1..]));
      }
    }
  }

  lemma {:induction false} TrimStartOfTidy(s: Str)
    requires Tidy(s)
    ensures TrimStart(s) == if StartsClean(s) then s else s[1..]
    ensures Tidy(TrimStart(s)) && StartsClean(TrimStart(s))
  {
    if !StartsClean(s) {
      assert forall i :: 0 <= i < |s| - 1 ==> s[1..][i] == s[i + 1];
      assert TrimStart(s[1..]) == s[1..];
    }
  }

  lemma {:induction false} TrimEndOfTidy(s: Str)
    requires Tidy(s)
    ensures TrimEnd(s) == if EndsClean(s) then s else s[..|s| - 1]
    ensures Tidy(TrimEnd(s)) && EndsClean(TrimEnd(s))
    ensures StartsClean(s) ==> StartsClean(TrimEnd(s))
  {
    if !EndsClean(s) {
      assert TrimEnd(s[..|s| - 1]) == s[..|s| - 1];
    }
  }

  lemma LineIsClean(value: Str, maxLength: nat)
    ensures var t := Line(value, maxLength); Tidy(t) && StartsClean(t) && EndsClean(t)
  {
    var collapsed := Collapse(Blank(Take(value, maxLength * 4)));
    CollapsedIsTidy(Blank(Take(value, maxLength * 4)));
    TrimStartOfTidy(collapsed);
    TrimEndOfTidy(TrimStart(collapsed));
  }

  lemma BoundedTextIsTidy(value: Str, maxLength: nat)
    ensures var r := BoundedText(value, maxLength); Tidy(r) && StartsClean(r)
  {
    LineIsClean(value, maxLength);
  }

  lemma {:induction false} TidyIsCollapsed(s: Str)
    requires Tidy(s)
    ensures Collapse(s) == s
  {
    if s != [] {
      assert forall i :: 0 <= i < |s| - 1 ==> s[1..][i] == s[i + 1];
      TidyIsCollapsed(s[1..]);
    }
  }

  /** On a string of the shape that it returns, bounding only drops a trailing space. */
  lemma BoundedTextOfTidy(s: Str, maxLength: nat)
    requires Tidy(s) && StartsClean(s) && |s| <= maxLength
    ensures BoundedText(s, maxLength) == if EndsClean(s) then s else s[..|s| - 1]
  {
    assert Blank(s) == s;
    TidyIsCollapsed(s);
    TrimStartOfTidy(s);
    TrimEndOfTidy(s);
  }

  /** The strings that bounding leaves alone. */
  predicate Settled(s: Str, maxLength: nat) {
    Tidy(s) && StartsClean(s) && EndsClean(s) && |s| <= maxLength
  }

  lemma SettledIsFixed(s: Str, maxLength: nat)
    ensures BoundedText(s, maxLength) == s <==> Settled(s, maxLength)
  {
    BoundedTextIsTidy(s, maxLength);
    if Tidy(s) && StartsClean(s) && |s| <= maxLength {
      BoundedTextOfTidy(s, maxLength);
    }
  }

  // ----- bounding twice -----

  /** Does the last cut of `value` fall just behind a space? */
  predicate CutAfterSpace(value: Str, maxLength: nat) {
    var line := Line(value, maxLength);
    0 < maxLength < |line| && line[maxLength - 1] == SPACE
  }

  lemma {:induction false} TrimStartShortens(s: Str)
    ensures |TrimStart(s)| <= |s|
  {
    if s != [] && White(s[0]) {
      TrimStartShortens(s[1..]);
    }
  }

  lemma {:induction false} TrimEndShortens(s: Str)
    ensures |TrimEnd(s)| <= |s|
  {
    if s != [] && White(s[|s| - 1]) {
      TrimEndShortens(s[..|s| - 1]);
    }
  }

  /** Bounding is idempotent exactly unless the last cut falls just behind a space; then
  the second time drops that space, and the third time nothing more. */
  lemma BoundedTextTwice(value: Str, maxLength: nat)
    ensures var r := BoundedText(value, maxLength);
            var twice := BoundedText(r, maxLength);
            && (twice == r <==> !CutAfterSpace(value, maxLength))
            && twice == (if CutAfterSpace(value, maxLength) then r[..|r| - 1] else r)
            && BoundedText(twice, maxLength) == twice
  {
    hide Tidy;
    var r := BoundedText(value, maxLength);
    LineIsClean(value, maxLength);
    BoundedTextIsTidy(value, maxLength);
    BoundedTextOfTidy(r, maxLength);
    var twice := BoundedText(r, maxLength);
    TrimEndOfTidy(r);
    BoundedTextIsTidy(r, maxLength);
    BoundedTextOfTidy(twice, maxLength);
  }

  /** No string within the limit is cut. */
  lemma ShortIsNotCut(value: Str, maxLength: nat)
    requires |value| <= maxLength
    ensures !CutAfterSpace(value, maxLength)
  {
    var collapsed := Collapse(Blank(value));
    TrimStartShortens(collapsed);
    TrimEndShortens(TrimStart(collapsed));
  }

  lemma CutCanFallAfterSpace()
    ensures CutAfterSpace([0x61, 0x20, 0x62], 2)
    ensures BoundedText([0x61, 0x20, 0x62], 2) == [0x61, 0x20]
  {
    var s := [0x61, 0x20, 0x62];
    assert Tidy(s);
    assert Blank(s) == s;
    TidyIsCollapsed(s);
    TrimStartOfTidy(s);
    TrimEndOfTidy(s);
  }

  // ----- cutting surrogate pairs -----

  /** Would a cut at n separate a surrogate pair? */
  predicate CutsPair(s: Str, n: nat) { 0 < n < |s| && High(s[n - 1]) && Low(s[n]) }

  lemma {:induction false} TakeWellFormed(s: Str, n: nat)
    requires WellFormed(s)
    ensures WellFormed(Take(s, n)) <==> !CutsPair(s, n)
  {
    if 0 < n < |s| {
      var k := if PairFirst(s) then 2 else 1;
      if n >= k {
        TakeWellFormed(s[k..], n - k);
        assert Take(s, n)[k..] == Take(s[k..], n - k);
      }
    }
  }

  /** A unit that is no surrogate can be added or dropped at the end. */
  lemma {:induction false} PlainEnd(s: Str, u: CodeUnit)
    requires !High(u) && !Low(u)
    ensures WellFormed(s + [u]) <==> WellFormed(s)
  {
    var t := s + [u];
    if s == [] {
      assert t[1..] == [];
    } else {
      var k := if PairFirst(s) then 2 else 1;
      PlainEnd(s[k..], u);
      assert t[k..] == s[k..] + [u];
    }
  }

  lemma {:induction false} BlankWellFormed(s: Str)
    ensures WellFormed(Blank(s)) <==> WellFormed(s)
  {
    if s != [] {
      var k := if PairFirst(s) then 2 else 1;
      BlankWellFormed(s[k..]);
      assert Blank(s)[k..] == Blank(s[k..]);
    }
  }

  lemma {:induction false} CollapseWellFormed(s: Str)
    ensures WellFormed(Collapse(s)) <==> WellFormed(s)
  {
    if s != [] {
      if PairFirst(s) {
        CollapseWellFormed(s[2..]);
        assert s[1..][1..] == s[2..];
        assert Collapse(s) == [s[0]] + ([s[1]] + Collapse(s[2..]));
        assert Collapse(s)[2..] == Collapse(s[2..]);
      } else {
        CollapseWellFormed(s[1..]);
        if !White(s[0]) || !(|s| > 1 && White(s[1])) {
          assert Collapse(s)[1..] == Collapse(s[1..]);
        }
      }
    }
  }

  lemma {:induction false} TrimStartWellFormed(s: Str)
    ensures WellFormed(TrimStart(s)) <==> WellFormed(s)
  {
    if s != [] && White(s[0]) {
      TrimStartWellFormed(s[1..]);
    }
  }

  lemma {:induction false} TrimEndWellFormed(s: Str)
    ensures WellFormed(TrimEnd(s)) <==> WellFormed(s)
  {
    if s != [] && White(s[|s| - 1]) {
      TrimEndWellFormed(s[..|s| - 1]);
      PlainEnd(s[..|s| - 1], s[|s| - 1]);
      assert s[..|s| - 1] + [s[|s| - 1]] == s;
    }
  }

  lemma LineWellFormed(value: Str, maxLength: nat)
    ensures WellFormed(Line(value, maxLength)) <==> WellFormed(Take(value, maxLength * 4))
  {
    var taken := Take(value, maxLength * 4);
    BlankWellFormed(taken);
    CollapseWellFormed(Blank(taken));
    TrimStartWellFormed(Collapse(Blank(taken)));
    TrimEndWellFormed(TrimStart(Collapse(Blank(taken))));
  }

  /** Tidying leaves a last unit that is neither a control character nor white where it is. */
  lemma {:induction false} BlankAppend(s: Str, u: CodeUnit)
    requires !Control(u)
    ensures Blank(s + [u]) == Blank(s) + [u]
  {
  }

  lemma {:induction false} CollapseAppend(s: Str, u: CodeUnit)
    requires !White(u)
    ensures Collapse(s + [u]) == Collapse(s) + [u]
  {
    if s == [] {
      assert ([] + [u])[1..] == [];
    } else {
      CollapseAppend(s[1..], u);
      assert (s + [u])[1..] == s[1..] + [u];
    }
  }

  lemma {:induction false} TrimStartAppend(s: Str, u: CodeUnit)
    requires !White(u)
    ensures TrimStart(s + [u]) == TrimStart(s) + [u]
  {
    if s != [] && White(s[0]) {
      TrimStartAppend(s[1..], u);
      assert (s + [u])[1..] == s[1..] + [u];
    }
  }

  /** Does one of the two cuts leave half a surrogate pair at the end of the result? */
  predicate SplitsPair(value: Str, maxLength: nat) {
    var line := Line(value, maxLength);
    if |line| <= maxLength then CutsPair(value, maxLength * 4) else CutsPair(line, maxLength)
  }

  lemma TrimEndOfHalf(s: Str, u: CodeUnit)
    requires !White(u)
    ensures TrimEnd(s + [u]) == s + [u]
  {
  }

  lemma HighIsPlain(u: CodeUnit)
    requires High(u)
    ensures !White(u) && !Control(u) && !Low(u)
  {
  }

  /** Tidying a text and one more unit. */
  lemma LineAppend(p: Str, h: CodeUnit)
    requires !White(h) && !Control(h)
    ensures Trim(Collapse(Blank(p + [h]))) == TrimStart(Collapse(Blank(p))) + [h]
  {
    hide Blank, Collapse, TrimStart, TrimEnd, White, Control;
    BlankAppend(p, h);
    CollapseAppend(Blank(p), h);
    TrimStartAppend(Collapse(Blank(p)), h);
    TrimEndOfHalf(TrimStart(Collapse(Blank(p))), h);
  }

  lemma FrontWellFormed(value: Str, n: nat)
    requires WellFormed(value) && CutsPair(value, n)
    ensures WellFormed(TrimStart(Collapse(Blank(value[..n - 1]))))
  {
    hide Blank, Collapse, TrimStart, WellFormed;
    var p := value[..n - 1];
    TakeWellFormed(value, n - 1);
    assert Take(value, n - 1) == p;
    BlankWellFormed(p);
    CollapseWellFormed(Blank(p));
    TrimStartWellFormed(Collapse(Blank(p)));
  }

  /** The first cut left half a pair: it is the last unit of the line. */
  lemma HalfPairLine(value: Str, maxLength: nat) returns (front: Str)
    requires WellFormed(value) && CutsPair(value, maxLength * 4)
    ensures WellFormed(front) && High(value[maxLength * 4 - 1])
    ensures Line(value, maxLength) == front + [value[maxLength * 4 - 1]]
  {
    hide Blank, Collapse, TrimStart, WellFormed, Trim;
    var n := maxLength * 4;
    var p, h := value[..n - 1], value[n - 1];
    assert Take(value, n) == p + [h];
    HighIsPlain(h);
    LineAppend(p, h);
    FrontWellFormed(value, n);
    front := TrimStart(Collapse(Blank(p)));
  }

  /** Bounding a well-formed text gives a well-formed text exactly unless a cut splits a
  surrogate pair. */
  lemma BoundedTextWellFormed(value: Str, maxLength: nat)
    requires WellFormed(value)
    ensures WellFormed(BoundedText(value, maxLength)) <==> !SplitsPair(value, maxLength)
  {
    hide Line;
    var line := Line(value, maxLength);
    LineWellFormed(value, maxLength);
    TakeWellFormed(value, maxLength * 4);
    if WellFormed(line) {
      TakeWellFormed(line, maxLength);
    } else if |line| > maxLength {
      var front := HalfPairLine(value, maxLength);
      TakeWellFormed(front, maxLength);
      assert Take(line, maxLength) == Take(front, maxLength);
    }
  }

  lemma LineOfTidy(s: Str, maxLength: nat)
    requires Tidy(s) && StartsClean(s) && EndsClean(s) && |s| <= maxLength * 4
    ensures Line(s, maxLength) == s
  {
    assert Blank(s) == s;
    TidyIsCollapsed(s);
    TrimStartOfTidy(s);
    TrimEndOfTidy(s);
  }
}
