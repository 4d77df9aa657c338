/** Text similarity and the choice of an adaptive target (src/browser/adaptive-locator.ts).
Scores are exact rationals; case folding is a function of the caller's choice. */
module AdaptiveLocator {
  import opened Common
  import opened Text
  import opened EditDistance
  import SnapshotText

  // ----- the table -----

  lemma PrefixStep(a: Str, b: Str, i: nat, j: nat)
    requires 1 <= i <= |a| && 1 <= j <= |b|
    ensures Distance(a[..i], b[..j]) ==
            Min3(Distance(a[..i - 1], b[..j]) + 1, Distance(a[..i], b[..j - 1]) + 1,
                 Distance(a[..i - 1], b[..j - 1]) + (if a[i - 1] == b[j - 1] then 0 else 1))
  {
    assert Front(a[..i]) == a[..i - 1] && Front(b[..j]) == b[..j - 1];
    assert Last(a[..i]) == a[i - 1] && Last(b[..j]) == b[j - 1];
  }

  /** Fills the table row by row; the last cell is the edit distance. */
  method TableDistance(a: Str, b: Str) returns (distance: nat)
    ensures distance == Distance(a, b)
  {
    hide Distance;
    var m, n := |a|, |b|;
    var dp := new nat[m + 1, n + 1]((i, j) => 0);
    EmptyPrefixes(a, b);
    for i := 0 to m + 1
      invariant forall k :: 0 <= k < i ==> dp[k, 0] == k
    {
      dp[i, 0] := i;
    }
    for j := 0 to n + 1
      invariant forall k :: 0 <= k <= m ==> dp[k, 0] == k
      invariant forall k :: 0 <= k < j ==> dp[0, k] == k
    {
      dp[0, j] := j;
    }
    for i := 1 to m + 1
      invariant forall k :: i <= k <= m ==> dp[k, 0] == k
      invariant forall k, l :: 0 <= k < i && 0 <= l <= n ==> dp[k, l] == Distance(a[..k], b[..l])
    {
      for j := 1 to n + 1
        invariant forall k :: i < k <= m ==> dp[k, 0] == k
        invariant forall k, l :: 0 <= k < i && 0 <= l <= n ==> dp[k, l] == Distance(a[..k], b[..l])
        invariant forall l :: 0 <= l < j ==> dp[i, l] == Distance(a[..i], b[..l])
      {
        PrefixStep(a, b, i, j);
        var cost := if a[i - 1] == b[j - 1] then 0 else 1;
        dp[i, j] := Min3(dp[i - 1, j] + 1, dp[i, j - 1] + 1, dp[i - 1, j - 1] + cost);
      }
    }
    assert a[..m] == a && b[..n] == b;
    distance := dp[m, n];
  }

  lemma EmptyPrefixes(a: Str, b: Str)
    ensures forall i :: 0 <= i <= |a| ==> Distance(a[..i], b[..0]) == i
    ensures forall j :: 0 <= j <= |b| ==> Distance(a[..0], b[..j]) == j
  {
  }

  // ----- similarity -----

  predicate OccursAt(a: Str, b: Str, k: int) {
    0 <= k <= |a| - |b| && a[k..k + |b|] == b
  }

  predicate Includes(a: Str, b: Str) {
    exists k :: 0 <= k <= |a| - |b| && OccursAt(a, b, k)
  }

  /** The similarity of two trimmed and folded strings. */
  function SimilarityOf(x: Str, y: Str): real {
    if x == y then 1.0
    else if x == [] || y == [] then 0.0
    else
      var shorter, longer := Min(|x|, |y|) as real, Max(|x|, |y|) as real;
      if Includes(x, y) || Includes(y, x) then
        var raised := 0.8 + 0.2 * (shorter / longer);
        if raised < 1.0 then raised else 1.0
      else
        var rest := 1.0 - Distance(x, y) as real / longer;
        if rest > 0.0 then rest else 0.0
  }

  function Folded(s: Str, lower: Str -> Str): Str { lower(SnapshotText.Trim(s)) }

  function Similarity(a: Str, b: Str, lower: Str -> Str): real {
    SimilarityOf(Folded(a, lower), Folded(b, lower))
  }

  method CalculateTextSimilarity(a: Str, b: Str, lower: Str -> Str) returns (r: real)
    ensures r == Similarity(a, b, lower)
  {
    var x, y := Folded(a, lower), Folded(b, lower);
    if x == y {
      return 1.0;
    }
    if x == [] || y == [] {
      return 0.0;
    }
    var shorter, longer := Min(|x|, |y|) as real, Max(|x|, |y|) as real;
    if Includes(x, y) || Includes(y, x) {
      var raised := 0.8 + 0.2 * (shorter / longer);
      return if raised < 1.0 then raised else 1.0;
    }
    var distance := TableDistance(x, y);
    var rest := 1.0 - distance as real / longer;
    r := if rest > 0.0 then rest else 0.0;
  }

  lemma QuotientBounds(p: real, q: real)
    requires q > 0.0 && 0.0 <= p
    ensures p / q >= 0.0 && (p < q ==> p / q < 1.0) && (p <= q ==> p / q <= 1.0) && (p > 0.0 ==> p / q > 0.0)
  {
    QuotientOf(p / q, p, q);
  }

  lemma QuotientOf(r: real, p: real, q: real)
    requires q > 0.0 && 0.0 <= p && r * q == p
    ensures r >= 0.0 && (p < q ==> r < 1.0) && (p <= q ==> r <= 1.0) && (p > 0.0 ==> r > 0.0)
  {
    Ordered(0.0, r, q);
    Ordered(r, 0.0, q);
    Ordered(1.0, r, q);
    Ordered(r, 1.0, q);
  }

  lemma Ordered(r: real, s: real, q: real)
    requires q > 0.0
    ensures r < s ==> r * q < s * q
  {
    if r < s {
      var gap := s - r;
      assert gap * q > 0.0;
      assert s * q == r * q + gap * q;
    }
  }

  /** Symmetric, between 0 and 1, and 1 exactly for equal strings. */
  lemma SimilarityIsNormal(x: Str, y: Str)
    ensures 0.0 <= SimilarityOf(x, y) <= 1.0
    ensures SimilarityOf(x, y) == SimilarityOf(y, x)
    ensures SimilarityOf(x, y) == 1.0 <==> x == y
  {
    hide Distance;
    DistanceIsSymmetric(x, y);
    DistanceIsZero(x, y);
    DistanceIsBounded(x, y);
    if x != y && x != [] && y != [] {
      var shorter, longer := Min(|x|, |y|) as real, Max(|x|, |y|) as real;
      QuotientBounds(shorter, longer);
      QuotientBounds(Distance(x, y) as real, longer);
      if Includes(x, y) || Includes(y, x) {
        assert |x| != |y|;
      }
    }
  }

  lemma TextSimilarityIsNormal(a: Str, b: Str, lower: Str -> Str)
    ensures 0.0 <= Similarity(a, b, lower) <= 1.0
    ensures Similarity(a, b, lower) == Similarity(b, a, lower)
    ensures Similarity(a, b, lower) == 1.0 <==> Folded(a, lower) == Folded(b, lower)
  {
    SimilarityIsNormal(Folded(a, lower), Folded(b, lower));
  }

  // ----- the raise for containment -----

  lemma {:induction false} DropTail(a: Str, b: Str, q: Str)
    ensures Distance(a + q, b) <= Distance(a, b) + |q|
  {
    hide Distance;
    if q == [] {
      assert a + q == a;
    } else {
      DropTail(a, b, Front(q));
      ExtendedDistance(a + Front(q), b, Delete(Last(q)));
      assert a + Front(q) + [Last(q)] == a + q && b + [] == b;
    }
  }

  lemma {:induction false} SameTail(a: Str, b: Str, q: Str)
    ensures Distance(a + q, b + q) <= Distance(a, b)
  {
    hide Distance;
    if q == [] {
      assert a + q == a && b + q == b;
    } else {
      SameTail(a, b, Front(q));
      ExtendedDistance(a + Front(q), b + Front(q), Keep(Last(q)));
      assert a + Front(q) + [Last(q)] == a + q && b + Front(q) + [Last(q)] == b + q;
    }
  }

  lemma ContainedDistance(x: Str, y: Str)
    requires Includes(x, y)
    ensures Distance(x, y) == |x| - |y|
  {
    hide Distance;
    var k :| 0 <= k <= |x| - |y| && OccursAt(x, y, k);
    var p, q := x[..k], x[k + |y|..];
    assert x == p + y + q && [] + y == y;
    DistanceIsBounded(p, []);
    SameTail(p, [], y);
    DropTail(p + y, y, q);
    DistanceIsBounded(x, y);
  }

  lemma Complement(p: real, q: real)
    requires q > 0.0
    ensures (q - p) / q == 1.0 - p / q
  {
    QuotientTimes(q - p, q);
    QuotientTimes(p, q);
    Sum((q - p) / q, q - p, p / q, p, q);
  }

  lemma QuotientTimes(p: real, q: real)
    requires q > 0.0
    ensures p / q * q == p
  {
  }

  lemma Sum(r: real, a: real, s: real, b: real, q: real)
    requires q > 0.0 && r * q == a && s * q == b && a + b == q
    ensures r + s == 1.0
  {
    assert (r + s) * q == r * q + s * q;
    Ordered(r + s, 1.0, q);
    Ordered(1.0, r + s, q);
  }

  function ByDistance(x: Str, y: Str): real
    requires x != [] || y != []
  {
    1.0 - Distance(x, y) as real / Max(|x|, |y|) as real
  }

  lemma ByDistanceOfContained(x: Str, y: Str)
    requires y != [] && Includes(x, y)
    ensures ByDistance(x, y) == |y| as real / |x| as real
    ensures ByDistance(y, x) == |y| as real / |x| as real
  {
    hide Distance;
    ContainedDistance(x, y);
    DistanceIsSymmetric(x, y);
    Complement(|y| as real, |x| as real);
  }

  lemma ContainedIsRaised(x: Str, y: Str)
    requires y != [] && Includes(x, y)
    ensures SimilarityOf(x, y) >= ByDistance(x, y) && SimilarityOf(y, x) >= ByDistance(y, x)
  {
    hide Distance, ByDistance;
    ByDistanceOfContained(x, y);
    QuotientBounds(|y| as real, |x| as real);
  }

  /** When one string contains the other, what the edit distance finds missing counts a
  fifth. */
  lemma ContainedCountsAFifth(x: Str, y: Str)
    requires y != [] && Includes(x, y)
    ensures SimilarityOf(x, y) == SimilarityOf(y, x) == 1.0 - 0.2 * (1.0 - ByDistance(x, y))
  {
    hide Distance;
    ByDistanceOfContained(x, y);
    QuotientBounds(|y| as real, |x| as real);
    SimilarityIsNormal(x, y);
    if x == y {
      assert |y| as real / |x| as real == 1.0;
    }
  }

  lemma EqualOrEmpty(x: Str, y: Str)
    requires x != [] || y != []
    requires x == y || x == [] || y == []
    ensures SimilarityOf(x, y) >= ByDistance(x, y)
    ensures Includes(x, y) || Includes(y, x)
  {
    DistanceIsBounded(x, y);
    QuotientBounds(Distance(x, y) as real, Max(|x|, |y|) as real);
    if y == [] || x == y {
      assert OccursAt(x, y, 0);
    } else {
      assert OccursAt(y, x, 0);
    }
    if x != y {
      OneIsEmpty(x, y);
    }
  }

  lemma OneIsEmpty(x: Str, y: Str)
    requires (x == [] || y == []) && x != y
    ensures Distance(x, y) as real / Max(|x|, |y|) as real == 1.0
  {
  }

  /** Containment only ever raises the similarity above what the edit distance gives. */
  lemma NeverBelowDistance(x: Str, y: Str)
    requires x != [] || y != []
    ensures SimilarityOf(x, y) >= ByDistance(x, y)
    ensures !Includes(x, y) && !Includes(y, x) ==> SimilarityOf(x, y) == ByDistance(x, y)
  {
    if x == y || x == [] || y == [] {
      hide Includes, Distance, SimilarityOf, ByDistance;
      EqualOrEmpty(x, y);
    } else if Includes(x, y) {
      hide Includes, Distance, SimilarityOf, ByDistance;
      ContainedIsRaised(x, y);
    } else if Includes(y, x) {
      hide Includes, Distance, SimilarityOf, ByDistance;
      ContainedIsRaised(y, x);
    } else {
      hide Includes, Distance;
      DistanceIsBounded(x, y);
      QuotientBounds(Distance(x, y) as real, Max(|x|, |y|) as real);
    }
  }

  // ----- scoring -----

  datatype Wanted = Wanted(role: Option<Str>, name: Option<Str>, caption: Option<Str>, testId: Option<Str>)

  datatype Candidate = Candidate(role: Str, tag: Str, name: Option<Str>, text: Option<Str>, testId: Option<Str>)

  /** What a missing or an empty string has in common. */
  predicate Given(s: Option<Str>) { s.Some? && s.value != [] }

  function ExpectedName(t: Wanted): Option<Str> { if t.name.Some? then t.name else t.caption }

  function CandidateName(c: Candidate): Str { c.name.GetOr(c.text.GetOr([])) }

  predicate RoleMatches(t: Wanted, c: Candidate, lower: Str -> Str) {
    Given(t.role) && c.role != [] && lower(c.role) == lower(t.role.value)
  }

  predicate TagMatches(t: Wanted, c: Candidate, lower: Str -> Str) {
    Given(t.role) && c.tag != [] && lower(c.tag) == lower(t.role.value)
  }

  function RoleScore(t: Wanted, c: Candidate, lower: Str -> Str): real {
    if RoleMatches(t, c, lower) then 0.4 else if TagMatches(t, c, lower) then 0.3 else 0.0
  }

  function NameScore(t: Wanted, c: Candidate, lower: Str -> Str): real {
    if !Given(ExpectedName(t)) || CandidateName(c) == [] then 0.0
    else if CandidateName(c) == ExpectedName(t).value then 0.5
    else
      var similarity := Similarity(ExpectedName(t).value, CandidateName(c), lower);
      if similarity >= 0.5 then 0.5 * similarity else 0.0
  }

  function TestIdScore(t: Wanted, c: Candidate): real {
    if !Given(t.testId) || !Given(c.testId) then 0.0
    else if c.testId == t.testId then 0.1
    else if Includes(c.testId.value, t.testId.value) then 0.05
    else 0.0
  }

  /** Rounding to thousandths, halves up. */
  function Rounded(x: real): real { (x * 1000.0 + 0.5).Floor as real / 1000.0 }

  function ScoreOf(t: Wanted, c: Candidate, lower: Str -> Str): real {
    Rounded(RoleScore(t, c, lower) + NameScore(t, c, lower) + TestIdScore(t, c))
  }

  method ScoreCandidate(t: Wanted, c: Candidate, lower: Str -> Str) returns (score: real)
    ensures score == ScoreOf(t, c, lower)
  {
    hide Includes, Rounded;
    score := 0.0;
    if Given(t.role) {
      if c.role != [] && lower(c.role) == lower(t.role.value) {
        score := score + 0.4;
      } else if c.tag != [] && lower(c.tag) == lower(t.role.value) {
        score := score + 0.3;
      }
    }
    var expected, name := ExpectedName(t), CandidateName(c);
    if Given(expected) && name != [] {
      if name == expected.value {
        score := score + 0.5;
      } else {
        var similarity := CalculateTextSimilarity(expected.value, name, lower);
        if similarity >= 0.5 {
          score := score + 0.5 * similarity;
        }
      }
    }
    if Given(t.testId) && Given(c.testId) {
      if c.testId.value == t.testId.value {
        score := score + 0.1;
      } else if Includes(c.testId.value, t.testId.value) {
        score := score + 0.05;
      }
    }
    score := Rounded(score);
  }

  lemma RoundedIsNear(x: real)
    ensures x - 0.0005 < Rounded(x) <= x + 0.0005
  {
  }

  lemma NameScoreBounds(t: Wanted, c: Candidate, lower: Str -> Str)
    ensures 0.0 <= NameScore(t, c, lower) <= 0.5
    ensures NameScore(t, c, lower) > 0.0 ==>
              Given(ExpectedName(t)) && CandidateName(c) != [] &&
              Similarity(ExpectedName(t).value, CandidateName(c), lower) >= 0.5
  {
    hide Similarity;
    if Given(ExpectedName(t)) {
      TextSimilarityIsNormal(ExpectedName(t).value, CandidateName(c), lower);
    }
  }

  /** A score is between 0 and 1, and it reaches the default threshold only when the role
  or tag matches and the names are at least half alike. */
  lemma ScoreMeaning(t: Wanted, c: Candidate, lower: Str -> Str)
    ensures 0.0 <= ScoreOf(t, c, lower) <= 1.0
    ensures ScoreOf(t, c, lower) >= 0.65 ==>
              && (RoleMatches(t, c, lower) || TagMatches(t, c, lower))
              && Given(ExpectedName(t))
              && Similarity(ExpectedName(t).value, CandidateName(c), lower) >= 0.5
  {
    hide Similarity, Includes;
    var raw := RoleScore(t, c, lower) + NameScore(t, c, lower) + TestIdScore(t, c);
    NameScoreBounds(t, c, lower);
    hide NameScore;
    RoundedIsNear(raw);
    RoundedOfUnit(raw);
  }

  /** The default threshold is reached exactly by a named candidate that either has the role
  and a name at least half alike, or has the role only by its tag and then a name that is
  the more alike the less the test id tells: at least half with the same test id, 0.599 with
  one that contains it, and 0.699 otherwise. */
  lemma ReachesThreshold(t: Wanted, c: Candidate, lower: Str -> Str)
    ensures ScoreOf(t, c, lower) >= 0.65 <==>
              && Given(ExpectedName(t)) && CandidateName(c) != []
              && var alike := Similarity(ExpectedName(t).value, CandidateName(c), lower);
                 if RoleMatches(t, c, lower) then alike >= 0.5
                 else
                   && TagMatches(t, c, lower)
                   && (if Given(t.testId) && c.testId == t.testId then alike >= 0.5
                       else if Given(t.testId) && Given(c.testId) && Includes(c.testId.value, t.testId.value) then alike >= 0.599
                       else alike >= 0.699)
  {
    hide Includes;
    RoundsUpTo(RoleScore(t, c, lower) + NameScore(t, c, lower) + TestIdScore(t, c));
    if Given(ExpectedName(t)) {
      TextSimilarityIsNormal(ExpectedName(t).value, CandidateName(c), lower);
    }
    hide Similarity, Rounded;
  }

  lemma RoundsUpTo(x: real)
    ensures Rounded(x) >= 0.65 <==> x >= 0.6495
  {
    var n := (x * 1000.0 + 0.5).Floor;
    assert Rounded(x) >= 0.65 <==> n >= 650;
  }

  lemma RoundedOfUnit(x: real)
    requires 0.0 <= x <= 1.0
    ensures 0.0 <= Rounded(x) <= 1.0
  {
  }

  /** Role, exact name and test id together score exactly one; a near miss in the name scores
  strictly less than that by half the missing similarity. */
  lemma PerfectMatch(t: Wanted, c: Candidate, lower: Str -> Str)
    requires RoleMatches(t, c, lower) && Given(ExpectedName(t)) && Given(t.testId) && c.testId == t.testId
    ensures CandidateName(c) == ExpectedName(t).value ==> ScoreOf(t, c, lower) == 1.0
    ensures CandidateName(c) != [] && CandidateName(c) != ExpectedName(t).value
            && Similarity(ExpectedName(t).value, CandidateName(c), lower) >= 0.5 ==>
              ScoreOf(t, c, lower) == Rounded(1.0 - 0.5 * (1.0 - Similarity(ExpectedName(t).value, CandidateName(c), lower)))
  {
    hide Similarity, Includes;
  }

  // ----- the choice -----

  datatype Confidence = High | Medium | Low

  datatype Match = Match(index: nat, score: real, confidence: Confidence)

  function MatchOf(index: nat, score: real): Match {
    Match(index, score, if score >= 0.8 then High else if score >= 0.7 then Medium else Low)
  }

  function ScoresOf(nodes: seq<Candidate>, t: Wanted, lower: Str -> Str): (r: seq<real>)
    ensures |r| == |nodes| && forall i :: 0 <= i < |nodes| ==> r[i] == ScoreOf(t, nodes[i], lower)
  {
    seq(|nodes|, i requires 0 <= i < |nodes| => ScoreOf(t, nodes[i], lower))
  }

  /** Node i stands out: it reaches the threshold, and every other node that does is at
  least the margin behind it; among equals the earlier one is ahead. */
  predicate Wins(scores: seq<real>, i: nat, threshold: real, margin: real) {
    && i < |scores| && scores[i] >= threshold
    && forall j :: 0 <= j < |scores| && j != i && scores[j] >= threshold ==>
         scores[i] - scores[j] >= margin && (scores[j] < scores[i] || (scores[j] == scores[i] && i < j))
  }

  /** The nodes that reach the threshold, in order. */
  function Qualifying(scores: seq<real>, threshold: real): (r: seq<Match>)
    ensures forall m :: m in r <==> m.index < |scores| && m == MatchOf(m.index, scores[m.index]) && m.score >= threshold
  {
    if scores == [] then []
    else
      var n := |scores| - 1;
      var rest := Qualifying(scores[..n], threshold);
      if scores[n] >= threshold then rest + [MatchOf(n, scores[n])] else rest
  }

  predicate Ahead(a: Match, b: Match) {
    a.score > b.score || (a.score == b.score && a.index < b.index)
  }

  predicate Descending(s: seq<Match>) {
    forall i, j :: 0 <= i < j < |s| ==> Ahead(s[i], s[j])
  }

  /** Puts x behind everything that scores at least as much. */
  function Place(x: Match, s: seq<Match>): (r: seq<Match>)
    ensures forall m :: m in r <==> m == x || m in s
    ensures |r| == |s| + 1
  {
    if s == [] || s[0].score < x.score then [x] + s else [s[0]] + Place(x, s[1..])
  }

  /** The stable sort by descending score. */
  function Sort(s: seq<Match>): (r: seq<Match>)
    ensures |r| == |s| && forall m :: m in r <==> m in s
  {
    if s == [] then []
    else
      assert forall m :: m in s <==> m in s[..|s| - 1] || m == s[|s| - 1];
      Place(s[|s| - 1], Sort(s[..|s| - 1]))
  }

  lemma {:induction false} PlaceKeepsOrder(x: Match, s: seq<Match>)
    requires Descending(s) && forall m :: m in s ==> m.index < x.index
    ensures Descending(Place(x, s))
  {
    if s == [] {
    } else if s[0].score < x.score {
      assert forall i :: 0 <= i < |s| ==> s[i] in s && (i > 0 ==> Ahead(s[0], s[i]));
    } else {
      var rest := Place(x, s[1..]);
      PlaceKeepsOrder(x, s[1..]);
      assert forall i :: 0 <= i < |s| - 1 ==> s[1..][i] == s[i + 1];
      assert forall m :: m in s[1..] ==> Ahead(s[0], m);
      assert forall i :: 0 <= i < |rest| ==> rest[i] in rest;
    }
  }

  lemma {:induction false} SortedDescending(scores: seq<real>, threshold: real)
    ensures Descending(Sort(Qualifying(scores, threshold)))
  {
    if scores != [] {
      var n := |scores| - 1;
      var rest := Qualifying(scores[..n], threshold);
      SortedDescending(scores[..n], threshold);
      if scores[n] >= threshold {
        assert (rest + [MatchOf(n, scores[n])])[..|rest|] == rest;
        PlaceKeepsOrder(MatchOf(n, scores[n]), Sort(rest));
      }
    }
  }

  /** The first of the sorted matches stands out exactly when the second is far enough
  behind; and no other node ever does. */
  lemma FirstWins(scores: seq<real>, threshold: real, margin: real)
    ensures var sorted := Sort(Qualifying(scores, threshold));
            if sorted == [] then forall i :: 0 <= i < |scores| ==> !Wins(scores, i, threshold, margin)
            else
              && (Wins(scores, sorted[0].index, threshold, margin) <==>
                    |sorted| == 1 || sorted[0].score - sorted[1].score >= margin)
              && forall i :: 0 <= i < |scores| && i != sorted[0].index ==> !Wins(scores, i, threshold, margin)
  {
    hide Sort, Qualifying;
    var sorted := Sort(Qualifying(scores, threshold));
    SortedDescending(scores, threshold);
    forall i | 0 <= i < |scores| && scores[i] >= threshold
      ensures MatchOf(i, scores[i]) in sorted
    {
    }
    if sorted != [] {
      var best := sorted[0];
      assert best in sorted;
      forall i | 0 <= i < |scores| && i != best.index && scores[i] >= threshold
        ensures |sorted| > 1 && Ahead(best, MatchOf(i, scores[i])) && scores[i] <= sorted[1].score
      {
        var k :| 0 <= k < |sorted| && sorted[k] == MatchOf(i, scores[i]);
      }
      if |sorted| > 1 {
        assert sorted[1] in sorted && Ahead(best, sorted[1]);
      }
    }
  }

  /** `p` and `q` reorder n places and undo each other. */
  predicate Inverse(p: seq<nat>, q: seq<nat>, n: nat) {
    && |p| == |q| == n && (forall i :: 0 <= i < n ==> p[i] < n && q[i] < n)
    && (forall i :: 0 <= i < n ==> q[p[i]] == i && p[q[i]] == i)
  }

  function Reordered<T>(s: seq<T>, p: seq<nat>): (r: seq<T>)
    requires |p| == |s| && forall i :: 0 <= i < |p| ==> p[i] < |s|
    ensures |r| == |s| && forall i :: 0 <= i < |r| ==> r[i] == s[p[i]]
  {
    seq(|s|, i requires 0 <= i < |s| => s[p[i]])
  }

  /** Node i is the margin ahead of every other one that reaches the threshold. */
  predicate StandsAlone(scores: seq<real>, i: nat, threshold: real, margin: real) {
    && i < |scores| && scores[i] >= threshold
    && forall j :: 0 <= j < |scores| && j != i ==> scores[j] < threshold || scores[j] <= scores[i] - margin
  }

  lemma WinnerStandsAlone(scores: seq<real>, i: nat, threshold: real, margin: real)
    requires margin > 0.0
    ensures Wins(scores, i, threshold, margin) <==> StandsAlone(scores, i, threshold, margin)
  {
  }

  lemma StandsAloneAnywhere(scores: seq<real>, other: seq<real>, p: seq<nat>, q: seq<nat>, i: nat, threshold: real, margin: real)
    requires Inverse(p, q, |scores|) && |other| == |scores| && forall j :: 0 <= j < |other| ==> other[j] == scores[p[j]]
    requires StandsAlone(scores, i, threshold, margin)
    ensures StandsAlone(other, q[i], threshold, margin)
  {
    assert other[q[i]] == scores[i];
    forall j | 0 <= j < |other| && j != q[i]
      ensures other[j] < threshold || other[j] <= other[q[i]] - margin
    {
      assert q[p[j]] == j && p[j] != i;
    }
  }

  /** With a positive margin the order of the nodes does not matter: when they are reordered,
  the same node wins, at its new place. */
  lemma OrderDoesNotMatter(scores: seq<real>, p: seq<nat>, q: seq<nat>, i: nat, threshold: real, margin: real)
    requires Inverse(p, q, |scores|) && margin > 0.0 && i < |scores|
    ensures Wins(scores, i, threshold, margin) <==> Wins(Reordered(scores, p), q[i], threshold, margin)
  {
    hide Wins, StandsAlone;
    var other := Reordered(scores, p);
    WinnerStandsAlone(scores, i, threshold, margin);
    WinnerStandsAlone(other, q[i], threshold, margin);
    if StandsAlone(scores, i, threshold, margin) {
      StandsAloneAnywhere(scores, other, p, q, i, threshold, margin);
    }
    if StandsAlone(other, q[i], threshold, margin) {
      assert forall j :: 0 <= j < |scores| ==> scores[j] == other[q[j]];
      StandsAloneAnywhere(other, scores, q, p, q[i], threshold, margin);
    }
  }

  /** Without one it does: of two equal nodes the earlier wins. */
  lemma TiesGoToTheEarlier(score: real, threshold: real, margin: real)
    requires score >= threshold && margin <= 0.0
    ensures Wins([score, score], 0, threshold, margin) && !Wins([score, score], 1, threshold, margin)
  {
    var scores := [score, score];
    assert scores[0] == scores[1] >= threshold;
  }

  method FindAdaptiveTarget(nodes: seq<Candidate>, t: Wanted, lower: Str -> Str,
                            minScoreThreshold: Option<real>, scoreMargin: Option<real>)
    returns (r: Option<Match>)
    ensures var scores, threshold, margin := ScoresOf(nodes, t, lower), minScoreThreshold.GetOr(0.65), scoreMargin.GetOr(0.12);
            match r
            case Some(m) => Wins(scores, m.index, threshold, margin) && m == MatchOf(m.index, scores[m.index])
            case None => forall i :: 0 <= i < |nodes| ==> !Wins(scores, i, threshold, margin)
  {
    hide ScoreOf, Wins, Sort, Qualifying;
    var threshold, margin := minScoreThreshold.GetOr(0.65), scoreMargin.GetOr(0.12);
    ghost var scores := ScoresOf(nodes, t, lower);
    var scored := [];
    NothingQualifies(threshold);
    for i := 0 to |nodes|
      invariant scored == Qualifying(scores[..i], threshold)
    {
      var score := ScoreCandidate(t, nodes[i], lower);
      QualifyingNext(scores, i, threshold);
      if score >= threshold {
        scored := scored + [MatchOf(i, score)];
      }
    }
    assert scores[..|nodes|] == scores;
    FirstWins(scores, threshold, margin);
    var sorted := Sort(scored);
    if |scored| == 0 {
      return None;
    }
    var best := sorted[0];
    if |sorted| > 1 && best.score - sorted[1].score < margin {
      return None;
    }
    assert best in scored;
    r := Some(best);
  }

  lemma NothingQualifies(threshold: real)
    ensures Qualifying([], threshold) == []
  {
  }

  lemma QualifyingNext(scores: seq<real>, i: nat, threshold: real)
    requires i < |scores|
    ensures Qualifying(scores[..i + 1], threshold) ==
            if scores[i] >= threshold then Qualifying(scores[..i], threshold) + [MatchOf(i, scores[i])]
            else Qualifying(scores[..i], threshold)
  {
    assert scores[..i + 1][..i] == scores[..i];
  }
}
