/** The canonical text of a request (`stableJson`, src/browser/workflow.ts): object
keys sorted by UTF-16 code units, so that equal requests have equal fingerprints.
The main result, `StableJsonIsCanonical`, says that it identifies exactly the
values that are equal up to key order. */
module StableJson {
  import opened Common
  import opened Text
  import opened Json

  // ----- the order of `Array.prototype.sort` on strings -----

  predicate Less(a: Str, b: Str) {
    if a == [] then b != []
    else if b == [] then false
    else if a[0] != b[0] then a[0] < b[0]
    else Less(a[1..], b[1..])
  }

  lemma {:induction false} LessTotal(a: Str, b: Str)
    ensures a == b || Less(a, b) || Less(b, a)
    ensures !(Less(a, b) && Less(b, a))
    ensures !Less(a, a)
  {
    if a != [] {
      LessTotal(a[1..], a[1..]);
      if b != [] && a[0] == b[0] {
        LessTotal(a[1..], b[1..]);
        assert a == [a[0]] + a[1..] && b == [b[0]] + b[1..];
      }
    }
  }

  lemma {:induction false} LessTransitive(a: Str, b: Str, c: Str)
    requires Less(a, b) && Less(b, c)
    ensures Less(a, c)
  {
    if a != [] && a[0] == b[0] == c[0] {
      LessTransitive(a[1..], b[1..], c[1..]);
    }
  }

  predicate SortedByKey<T>(ms: seq<(Str, T)>) {
    forall i, j :: 0 <= i < j < |ms| ==> Less(ms[i].0, ms[j].0)
  }

  function Insert<T>(m: (Str, T), ms: seq<(Str, T)>): (r: seq<(Str, T)>)
    ensures |r| == |ms| + 1
  {
    if ms == [] then [m]
    else if Less(m.0, ms[0].0) then [m] + ms
    else [ms[0]] + Insert(m, ms[1..])
  }

  function SortByKey<T>(ms: seq<(Str, T)>): (r: seq<(Str, T)>)
    ensures |r| == |ms|
  {
    if ms == [] then [] else Insert(ms[0], SortByKey(ms[1..]))
  }

  lemma {:induction false} InsertMembers<T>(m: (Str, T), ms: seq<(Str, T)>, x: (Str, T))
    ensures x in Insert(m, ms) <==> x == m || x in ms
  {
    if ms != [] && !Less(m.0, ms[0].0) {
      InsertMembers(m, ms[1..], x);
    }
  }

  lemma {:induction false} SortMembers<T>(ms: seq<(Str, T)>, x: (Str, T))
    ensures x in SortByKey(ms) <==> x in ms
  {
    if ms != [] {
      InsertMembers(ms[0], SortByKey(ms[1..]), x);
      SortMembers(ms[1..], x);
    }
  }

  lemma {:induction false} InsertSorted<T>(m: (Str, T), ms: seq<(Str, T)>)
    requires SortedByKey(ms)
    requires forall x :: x in ms ==> x.0 != m.0
    ensures SortedByKey(Insert(m, ms))
  {
    if ms == [] {
    } else if Less(m.0, ms[0].0) {
      forall j | 0 <= j < |ms|
        ensures Less(m.0, ms[j].0)
      {
        if j > 0 {
          LessTransitive(m.0, ms[0].0, ms[j].0);
        }
      }
    } else {
      LessTotal(m.0, ms[0].0);
      assert ms[0] in ms;
      InsertSorted(m, ms[1..]);
      var r := Insert(m, ms[1..]);
      forall j | 0 <= j < |r|
        ensures Less(ms[0].0, r[j].0)
      {
        InsertMembers(m, ms[1..], r[j]);
        if r[j] != m {
          var k :| 0 <= k < |ms[1..]| && ms[1..][k] == r[j];
          assert ms[k + 1] == r[j];
        }
      }
    }
  }

  lemma {:induction false} SortSorted<T>(ms: seq<(Str, T)>)
    requires DistinctKeys(ms)
    ensures SortedByKey(SortByKey(ms))
  {
    if ms != [] {
      SortSorted(ms[1..]);
      forall x | x in SortByKey(ms[1..])
        ensures x.0 != ms[0].0
      {
        SortMembers(ms[1..], x);
      }
      InsertSorted(ms[0], SortByKey(ms[1..]));
    }
  }

  ghost predicate SameMembers<T(!new)>(a: seq<(Str, T)>, b: seq<(Str, T)>) {
    forall x :: x in a <==> x in b
  }

  lemma MembersNonempty<T(!new)>(a: seq<(Str, T)>, b: seq<(Str, T)>)
    requires SameMembers(a, b) && b != []
    ensures a != []
  {
    assert b[0] in a;
  }

  /** A sorted list is determined by its members. */
  lemma {:induction false} SortedUnique<T(!new)>(a: seq<(Str, T)>, b: seq<(Str, T)>)
    requires SortedByKey(a) && SortedByKey(b) && SameMembers(a, b)
    ensures a == b
  {
    if b != [] {
      MembersNonempty(a, b);
    }
    if a != [] {
      MembersNonempty(b, a);
      HeadsEqual(a, b);
      forall x
        ensures x in a[1..] <==> x in b[1..]
      {
        TailMembers(a, x);
        TailMembers(b, x);
      }
      SortedUnique(a[1..], b[1..]);
      assert a == [a[0]] + a[1..] && b == [b[0]] + b[1..];
    }
  }

  lemma TailMembers<T>(a: seq<(Str, T)>, x: (Str, T))
    requires a != [] && SortedByKey(a)
    ensures x in a[1..] <==> x in a && x != a[0]
  {
    forall j | 0 < j < |a|
      ensures a[j] != a[0]
    {
      LessTotal(a[0].0, a[j].0);
      LessTotal(a[0].0, a[0].0);
    }
    if x in a && x != a[0] {
      var j :| 0 <= j < |a| && a[j] == x;
      assert a[1..][j - 1] == x;
    }
  }

  lemma HeadsEqual<T(!new)>(a: seq<(Str, T)>, b: seq<(Str, T)>)
    requires a != [] && b != []
    requires SortedByKey(a) && SortedByKey(b) && SameMembers(a, b)
    ensures a[0] == b[0]
  {
    assert a[0] in b && b[0] in a;
    var i :| 0 <= i < |b| && b[i] == a[0];
    var j :| 0 <= j < |a| && a[j] == b[0];
    if i > 0 && j > 0 {
      LessTotal(a[0].0, b[0].0);
    }
  }

  // ----- stableJson -----

  function Colon(key: Str, text: Str): Str {
    Quote(key) + ([COLON] + text)
  }

  function JoinMembers(ms: seq<(Str, Str)>): Str {
    if ms == [] then []
    else if |ms| == 1 then Colon(ms[0].0, ms[0].1)
    else Colon(ms[0].0, ms[0].1) + [COMMA] + JoinMembers(ms[1..])
  }

  function JoinItems(ts: seq<Str>): Str {
    if ts == [] then []
    else if |ts| == 1 then ts[0]
    else ts[0] + [COMMA] + JoinItems(ts[1..])
  }

  function StableJson(v: Value): Str
    decreases v, 1
  {
    match v
    case Array(items) => [OPEN_BRACKET] + JoinItems(ItemTexts(items)) + [CLOSE_BRACKET]
    case Object(ms) => [OPEN_BRACE] + JoinMembers(SortByKey(MemberTexts(ms))) + [CLOSE_BRACE]
    case _ => Print(v)
  }

  function ItemTexts(items: seq<Value>): (r: seq<Str>)
    ensures |r| == |items|
    decreases items, 0
  {
    if items == [] then [] else [StableJson(items[0])] + ItemTexts(items[1..])
  }

  function MemberTexts(ms: seq<(Str, Value)>): (r: seq<(Str, Str)>)
    ensures |r| == |ms|
    ensures forall i :: 0 <= i < |ms| ==> r[i].0 == ms[i].0
    decreases ms, 0
  {
    if ms == [] then []
    else
      assert ms[0].1 < ms[0];
      [(ms[0].0, StableJson(ms[0].1))] + MemberTexts(ms[1..])
  }

  // ----- the canonical value behind the text -----

  /** Keys sorted at every level; `undefined` and non-finite numbers become null. */
  function Canon(v: Value): Value
    decreases v, 1
  {
    match v
    case Undefined => Null
    case NonFinite => Null
    case Array(items) => Array(CanonItems(items))
    case Object(ms) => Object(SortByKey(CanonMembers(ms)))
    case _ => v
  }

  function CanonItems(items: seq<Value>): (r: seq<Value>)
    ensures |r| == |items|
    ensures forall i :: 0 <= i < |items| ==> r[i] == Canon(items[i])
    decreases items, 0
  {
    if items == [] then [] else [Canon(items[0])] + CanonItems(items[1..])
  }

  function CanonMembers(ms: seq<(Str, Value)>): (r: seq<(Str, Value)>)
    ensures |r| == |ms|
    ensures forall i :: 0 <= i < |ms| ==>
              assert ms[i].1 < ms[i]; r[i] == (ms[i].0, Canon(ms[i].1))
    decreases ms, 0
  {
    if ms == [] then []
    else
      assert ms[0].1 < ms[0];
      [(ms[0].0, Canon(ms[0].1))] + CanonMembers(ms[1..])
  }

  function Texts(ms: seq<(Str, Value)>): (r: seq<(Str, Str)>)
    ensures |r| == |ms|
    ensures forall i :: 0 <= i < |ms| ==> r[i] == (ms[i].0, Print(ms[i].1))
  {
    seq(|ms|, i requires 0 <= i < |ms| => (ms[i].0, Print(ms[i].1)))
  }

  lemma {:induction false} InsertTexts(m: (Str, Value), ms: seq<(Str, Value)>)
    ensures Insert((m.0, Print(m.1)), Texts(ms)) == Texts(Insert(m, ms))
  {
    if ms == [] {
    } else if Less(m.0, ms[0].0) {
      assert [(m.0, Print(m.1))] + Texts(ms) == Texts([m] + ms);
    } else {
      InsertTexts(m, ms[1..]);
      assert Texts(ms)[1..] == Texts(ms[1..]);
      assert Texts([ms[0]] + Insert(m, ms[1..])) == [Texts(ms)[0]] + Texts(Insert(m, ms[1..]));
    }
  }

  lemma {:induction false} SortTexts(ms: seq<(Str, Value)>)
    ensures SortByKey(Texts(ms)) == Texts(SortByKey(ms))
  {
    if ms != [] {
      SortTexts(ms[1..]);
      assert Texts(ms)[1..] == Texts(ms[1..]);
      InsertTexts(ms[0], SortByKey(ms[1..]));
    }
  }

  lemma {:induction false} JoinTexts(ms: seq<(Str, Value)>)
    ensures JoinMembers(Texts(ms)) == PrintMembers(ms)
  {
    if |ms| > 1 {
      assert Texts(ms)[1..] == Texts(ms[1..]);
      JoinTexts(ms[1..]);
    }
  }

  /** stableJson prints the canonical value. */
  lemma {:induction false} StableJsonPrintsCanon(v: Value)
    ensures StableJson(v) == Print(Canon(v))
    decreases v, 1
  {
    match v
    case Array(items) => ItemTextsPrintCanon(items);
    case Object(ms) =>
      MemberTextsPrintCanon(ms);
      SortTexts(CanonMembers(ms));
      JoinTexts(SortByKey(CanonMembers(ms)));
    case _ =>
  }

  lemma {:induction false} ItemTextsPrintCanon(items: seq<Value>)
    ensures JoinItems(ItemTexts(items)) == PrintItems(CanonItems(items))
    decreases items, 0
  {
    if items != [] {
      StableJsonPrintsCanon(items[0]);
      ItemTextsPrintCanon(items[1..]);
      assert CanonItems(items)[1..] == CanonItems(items[1..]);
      assert ItemTexts(items)[1..] == ItemTexts(items[1..]);
    }
  }

  lemma {:induction false} MemberTextsPrintCanon(ms: seq<(Str, Value)>)
    ensures MemberTexts(ms) == Texts(CanonMembers(ms))
    decreases ms, 0
  {
    if ms != [] {
      assert ms[0].1 < ms[0];
      StableJsonPrintsCanon(ms[0].1);
      MemberTextsPrintCanon(ms[1..]);
      assert CanonMembers(ms)[1..] == CanonMembers(ms[1..]);
    }
  }

  lemma {:induction false} CanonIsPrintable(v: Value)
    requires WellFormedValue(v)
    ensures Printable(Canon(v))
  {
    match v
    case Array(items) =>
      forall i | 0 <= i < |items|
        ensures Printable(CanonItems(items)[i])
      {
        CanonIsPrintable(items[i]);
      }
    case Object(ms) =>
      var cs := CanonMembers(ms);
      forall i | 0 <= i < |ms|
        ensures Printable(cs[i].1)
      {
        CanonIsPrintable(ms[i].1);
      }
      var sorted := SortByKey(cs);
      forall i | 0 <= i < |sorted|
        ensures Printable(sorted[i].1)
      {
        SortMembers(cs, sorted[i]);
        var k :| 0 <= k < |cs| && cs[k] == sorted[i];
      }
    case _ =>
  }

  // ----- equality up to key order -----

  predicate PrintsNull(v: Value) { v.Undefined? || v.Null? || v.NonFinite? }

  predicate HasKey<T>(ms: seq<(Str, T)>, key: Str) {
    exists i :: 0 <= i < |ms| && ms[i].0 == key
  }

  predicate SameKeys<S, T>(a: seq<(Str, S)>, b: seq<(Str, T)>) {
    && (forall i :: 0 <= i < |a| ==> HasKey(b, a[i].0))
    && (forall j :: 0 <= j < |b| ==> HasKey(a, b[j].0))
  }

  /** Equal up to the order of object keys, with everything that has no JSON text of
  its own counting as null. */
  predicate Equivalent(v: Value, w: Value) {
    if PrintsNull(v) || PrintsNull(w) then PrintsNull(v) && PrintsNull(w)
    else
      match (v, w)
      case (Array(a), Array(b)) =>
        |a| == |b| && forall i :: 0 <= i < |a| ==> Equivalent(a[i], b[i])
      case (Object(a), Object(b)) =>
        && SameKeys(a, b)
        && forall i, j :: 0 <= i < |a| && 0 <= j < |b| && a[i].0 == b[j].0 ==> Equivalent(a[i].1, b[j].1)
      case _ => v == w
  }

  lemma {:induction false} CanonEquivalent(v: Value, w: Value)
    requires WellFormedValue(v) && WellFormedValue(w)
    ensures Canon(v) == Canon(w) <==> Equivalent(v, w)
  {
    if v.Array? && w.Array? {
      var a, b := v.items, w.items;
      forall i | 0 <= i < |a| && i < |b|
        ensures Canon(a[i]) == Canon(b[i]) <==> Equivalent(a[i], b[i])
      {
        CanonEquivalent(a[i], b[i]);
      }
      if Equivalent(v, w) {
        assert CanonItems(a) == CanonItems(b);
      }
      if CanonItems(a) == CanonItems(b) {
        forall i | 0 <= i < |a|
          ensures Equivalent(a[i], b[i])
        {
          assert CanonItems(a)[i] == CanonItems(b)[i];
        }
      }
    } else if v.Object? && w.Object? {
      var a, b := v.members, w.members;
      forall i, j | 0 <= i < |a| && 0 <= j < |b|
        ensures Canon(a[i].1) == Canon(b[j].1) <==> Equivalent(a[i].1, b[j].1)
      {
        CanonEquivalent(a[i].1, b[j].1);
      }
      EquivalentObjects(a, b);
    }
  }

  lemma EquivalentObjects(a: seq<(Str, Value)>, b: seq<(Str, Value)>)
    requires DistinctKeys(a) && DistinctKeys(b)
    requires forall i, j :: 0 <= i < |a| && 0 <= j < |b| ==> (Canon(a[i].1) == Canon(b[j].1) <==> Equivalent(a[i].1, b[j].1))
    ensures Canon(Object(a)) == Canon(Object(b)) <==> Equivalent(Object(a), Object(b))
  {
    AgreeCanon(a, b);
    CanonObjects(a, b);
  }

  lemma CanonObjects(a: seq<(Str, Value)>, b: seq<(Str, Value)>)
    requires DistinctKeys(a) && DistinctKeys(b)
    ensures Canon(Object(a)) == Canon(Object(b)) <==> SameKeys(a, b) && Agree(CanonMembers(a), CanonMembers(b))
  {
    hide SortByKey, SameKeys, Agree, DistinctKeys;
    CanonMembersDistinct(a);
    CanonMembersDistinct(b);
    SortedEqual(CanonMembers(a), CanonMembers(b));
    SameKeysCanon(a, b);
  }

  lemma CanonMembersDistinct(a: seq<(Str, Value)>)
    requires DistinctKeys(a)
    ensures DistinctKeys(CanonMembers(a))
  {
  }

  lemma AgreeCanon(a: seq<(Str, Value)>, b: seq<(Str, Value)>)
    requires forall i, j :: 0 <= i < |a| && 0 <= j < |b| ==> (Canon(a[i].1) == Canon(b[j].1) <==> Equivalent(a[i].1, b[j].1))
    ensures Agree(CanonMembers(a), CanonMembers(b)) <==>
      forall i, j :: 0 <= i < |a| && 0 <= j < |b| && a[i].0 == b[j].0 ==> Equivalent(a[i].1, b[j].1)
  {
    var ca, cb := CanonMembers(a), CanonMembers(b);
    if Agree(ca, cb) {
      forall i, j | 0 <= i < |a| && 0 <= j < |b| && a[i].0 == b[j].0
        ensures Equivalent(a[i].1, b[j].1)
      {
        assert ca[i].0 == cb[j].0;
      }
    }
  }

  lemma HasKeyCanon(a: seq<(Str, Value)>, key: Str)
    ensures HasKey(CanonMembers(a), key) <==> HasKey(a, key)
  {
    if HasKey(CanonMembers(a), key) {
      var i :| 0 <= i < |a| && CanonMembers(a)[i].0 == key;
      assert a[i].0 == key;
    }
    if HasKey(a, key) {
      var i :| 0 <= i < |a| && a[i].0 == key;
      assert CanonMembers(a)[i].0 == key;
    }
  }

  lemma SameKeysCanon(a: seq<(Str, Value)>, b: seq<(Str, Value)>)
    ensures SameKeys(CanonMembers(a), CanonMembers(b)) <==> SameKeys(a, b)
  {
    forall key
      ensures HasKey(CanonMembers(a), key) <==> HasKey(a, key)
      ensures HasKey(CanonMembers(b), key) <==> HasKey(b, key)
    {
      HasKeyCanon(a, key);
      HasKeyCanon(b, key);
    }
    var ca, cb := CanonMembers(a), CanonMembers(b);
    if SameKeys(ca, cb) {
      assert forall i :: 0 <= i < |a| ==> HasKey(cb, ca[i].0);
      assert forall j :: 0 <= j < |b| ==> HasKey(ca, cb[j].0);
    }
  }

  /** Under equal keys, equal values. */
  ghost predicate Agree<T>(a: seq<(Str, T)>, b: seq<(Str, T)>) {
    forall i, j :: 0 <= i < |a| && 0 <= j < |b| && a[i].0 == b[j].0 ==> a[i].1 == b[j].1
  }

  /** Sorting two lists of members gives the same list exactly when the keys are the
  same and equal keys have equal values. */
  lemma SortedEqual<T(!new)>(a: seq<(Str, T)>, b: seq<(Str, T)>)
    requires DistinctKeys(a) && DistinctKeys(b)
    ensures SortByKey(a) == SortByKey(b) <==> SameKeys(a, b) && Agree(a, b)
  {
    if SameKeys(a, b) && Agree(a, b) {
      AgreeingMembers(a, b);
      AgreeingMembers(b, a);
      SortSorted(a);
      SortSorted(b);
      forall x
        ensures x in SortByKey(a) <==> x in SortByKey(b)
      {
        SortMembers(a, x);
        SortMembers(b, x);
      }
      SortedUnique(SortByKey(a), SortByKey(b));
    }
    if SortByKey(a) == SortByKey(b) {
      forall x
        ensures x in a <==> x in b
      {
        SortMembers(a, x);
        SortMembers(b, x);
      }
      MembersAgree(a, b);
      MembersAgree(b, a);
    }
  }

  lemma AgreeingMembers<T>(a: seq<(Str, T)>, b: seq<(Str, T)>)
    requires forall i :: 0 <= i < |a| ==> HasKey(b, a[i].0)
    requires Agree(a, b)
    ensures forall x :: x in a ==> x in b
  {
    forall i | 0 <= i < |a|
      ensures a[i] in b
    {
      assert HasKey(b, a[i].0);
      var j :| 0 <= j < |b| && b[j].0 == a[i].0;
      assert b[j] == a[i];
    }
  }

  lemma MembersAgree<T(!new)>(a: seq<(Str, T)>, b: seq<(Str, T)>)
    requires DistinctKeys(b) && SameMembers(a, b)
    ensures forall i :: 0 <= i < |a| ==> HasKey(b, a[i].0)
    ensures Agree(a, b)
  {
    forall i | 0 <= i < |a|
      ensures HasKey(b, a[i].0)
      ensures forall j :: 0 <= j < |b| && a[i].0 == b[j].0 ==> a[i].1 == b[j].1
    {
      assert a[i] in b;
      var k :| 0 <= k < |b| && b[k] == a[i];
      assert b[k].0 == a[i].0;
    }
  }

  /** Two values have the same canonical text exactly when they are equal up to the
  order of object keys. */
  lemma StableJsonIsCanonical(v: Value, w: Value)
    requires WellFormedValue(v) && WellFormedValue(w)
    ensures StableJson(v) == StableJson(w) <==> Equivalent(v, w)
  {
    StableJsonPrintsCanon(v);
    StableJsonPrintsCanon(w);
    ParseStableJson(v);
    ParseStableJson(w);
    CanonEquivalent(v, w);
  }

  /** The text can be read back: parsing it gives the value with sorted keys. */
  lemma ParseStableJson(v: Value)
    requires WellFormedValue(v)
    ensures ParseValue(StableJson(v)) == Some((Canon(v), []))
  {
    StableJsonPrintsCanon(v);
    CanonIsPrintable(v);
    ParsePrint(Canon(v), []);
    assert Print(Canon(v)) + [] == Print(Canon(v));
  }

  /** The printing of `undefined` as null, which `JSON.stringify` would omit, makes an
  absent field and an explicit null different, but a field set to `undefined` and an
  explicit null the same. */
  lemma UndefinedFieldPrintsNull(key: Str)
    ensures StableJson(Object([(key, Undefined)])) == StableJson(Object([(key, Null)]))
    ensures StableJson(Object([(key, Undefined)])) != StableJson(Object([]))
    ensures Stringify(Object([(key, Undefined)])) == Stringify(Object([]))
  {
    var v, w, empty := Object([(key, Undefined)]), Object([(key, Null)]), Object([]);
    StableJsonIsCanonical(v, w);
    StableJsonIsCanonical(v, empty);
    assert HasKey(v.members, v.members[0].0) && HasKey(w.members, w.members[0].0);
    assert v.members[0].0 == w.members[0].0;
    assert forall i :: 0 <= i < |v.members| ==> HasKey(w.members, v.members[i].0);
    assert !HasKey(empty.members, v.members[0].0);
    assert PruneMembers(v.members) == PruneMembers(v.members[1..]);
  }
}
