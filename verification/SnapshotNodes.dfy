/** The nodes of a semantic snapshot as the history stores and compares them
(src/browser/snapshot-history.ts). */
module SnapshotNodes {
  import opened Common
  import opened Text
  import opened SnapshotText
  import opened UriComponent
  import opened Json

  const MAX_REF_LENGTH := 200
  const MAX_NAME_LENGTH := 200
  const MAX_NODE_STRING_LENGTH := 256

  datatype Node = Node(
    ref: Str, generation: int,
    role: Str, name: Str, tag: Str,
    typ: Option<Str>, testId: Option<Str>, frameId: Option<Str>, text: Option<Str>,
    visible: Option<bool>, enabled: Option<bool>, editable: Option<bool>, checked: Option<bool>, required: Option<bool>,
    hasValue: bool)

  /** SHA-256, as an injective function of its input. */
  datatype Digest = Digest(of: Str)

  datatype StoredNode = StoredNode(node: Node, textDigest: Option<Digest>)

  datatype Error = NotFound | Expired | IdConflict | RevisionMismatch | InvalidSnapshot | ResourceExhausted | UriError

  predicate SafeRevision(value: int) { 0 <= value <= MAX_SAFE_INTEGER }

  // ----- normalising -----

  function Bounded(s: Str, maxLength: nat): Str {
    if s == [] then [] else BoundedText(s, maxLength)
  }

  function BoundedOption(s: Option<Str>): Option<Str> {
    match s
    case Some(v) => if v == [] then None else Some(BoundedText(v, MAX_NODE_STRING_LENGTH))
    case None => None
  }

  /** One letter of a case-insensitive pattern; U+017F folds to s. */
  predicate FoldsTo(u: CodeUnit, lower: char) {
    u == lower as int || u == lower as int - 0x20 || (lower == 's' && u == 0x17F)
  }

  predicate Matches(s: Str, word: string)
    requires forall i :: 0 <= i < |word| ==> 'a' <= word[i] <= 'z'
  {
    |s| == |word| && forall i :: 0 <= i < |word| ==> FoldsTo(s[i], word[i])
  }

  predicate SensitiveType(typ: Option<Str>) {
    typ.Some? && (Matches(typ.value, "password") || Matches(typ.value, "hidden") || Matches(typ.value, "secret"))
  }

  predicate Acceptable(n: Node) {
    0 < |n.ref| <= MAX_REF_LENGTH && SafeRevision(n.generation)
  }

  function NormalizedNode(n: Node): Node {
    n.(ref := BoundedText(n.ref, MAX_REF_LENGTH),
       role := Bounded(n.role, MAX_NODE_STRING_LENGTH),
       name := Bounded(n.name, MAX_NAME_LENGTH),
       tag := Bounded(n.tag, MAX_NODE_STRING_LENGTH),
       typ := BoundedOption(n.typ), testId := BoundedOption(n.testId),
       frameId := BoundedOption(n.frameId), text := BoundedOption(n.text),
       hasValue := n.hasValue || SensitiveType(n.typ))
  }

  function TextDigest(text: Option<Str>): Option<Digest> {
    match text
    case Some(v) => if v == [] then None else Some(Digest(v))
    case None => None
  }

  /** The normalised node and the digest of the text as it came in. */
  function NormalizeStoredNode(n: Node): Result<StoredNode, Error> {
    if Acceptable(n) then Ok(StoredNode(NormalizedNode(n), TextDigest(n.text))) else Err(InvalidSnapshot)
  }

  function NormalizeAll(nodes: seq<Node>): (r: Result<seq<StoredNode>, Error>)
    ensures r.Ok? <==> forall i :: 0 <= i < |nodes| ==> Acceptable(nodes[i])
    ensures r.Ok? ==> |r.value| == |nodes|
    ensures r.Ok? ==> forall i :: 0 <= i < |nodes| ==> Ok(r.value[i]) == NormalizeStoredNode(nodes[i])
    ensures r.Err? ==> r.error == InvalidSnapshot
  {
    if forall i :: 0 <= i < |nodes| ==> Acceptable(nodes[i])
    then Ok(seq(|nodes|, i requires 0 <= i < |nodes| => StoredNode(NormalizedNode(nodes[i]), TextDigest(nodes[i].text))))
    else Err(InvalidSnapshot)
  }

  /** What an entry keeps of a node: everything but its text. */
  function WithoutText(s: StoredNode): StoredNode { s.(node := s.node.(text := None)) }

  // ----- the semantic key -----

  function Frame(n: Node): Str { n.frameId.GetOr(Ascii("main")) }

  predicate HasTestId(n: Node) { n.testId.Some? && n.testId.value != [] }

  function KeyParts(n: Node): (r: seq<Str>)
    ensures |r| == 6
  {
    [Ascii("semantic"), Frame(n), n.role, n.tag, n.name, n.typ.GetOr([])]
  }

  function EncodeParts(parts: seq<Str>): (r: Option<seq<Str>>)
    ensures r.Some? <==> forall i :: 0 <= i < |parts| ==> WellFormed(parts[i])
    ensures r.Some? ==> |r.value| == |parts| && NoColons(r.value)
    ensures r.Some? ==> forall i :: 0 <= i < |parts| ==> EncodeComponent(parts[i]) == Some(r.value[i])
  {
    if parts == [] then Some([])
    else
      var rest := EncodeParts(parts[1..]);
      assert forall i :: 0 < i < |parts| ==> parts[i] == parts[1..][i - 1];
      assert forall i :: 0 <= i < |parts| - 1 ==> parts[1..][i] == parts[i + 1];
      if WellFormed(parts[0]) && rest.Some? then Some([EncodeComponent(parts[0]).value] + rest.value) else None
  }

  /** None where the source raises a URIError. */
  function SemanticKey(n: Node): Option<Str> {
    if HasTestId(n) then Some(Ascii("test:") + Frame(n) + [UriComponent.COLON] + n.testId.value)
    else
      match EncodeParts(KeyParts(n))
      case Some(parts) => Some(Join(parts))
      case None => None
  }

  /** Nodes without a test id share a key exactly when they agree in frame, role, tag,
  name and type. */
  lemma KeyIsIdentity(a: Node, b: Node)
    requires !HasTestId(a) && !HasTestId(b) && SemanticKey(a).Some? && SemanticKey(b).Some?
    ensures SemanticKey(a) == SemanticKey(b) <==>
              && Frame(a) == Frame(b) && a.role == b.role && a.tag == b.tag && a.name == b.name
              && a.typ.GetOr([]) == b.typ.GetOr([])
  {
    hide EncodeComponent, EncodeParts, Join, WellFormed, Ascii;
    var pa, pb := KeyParts(a), KeyParts(b);
    var ea, eb := EncodeParts(pa).value, EncodeParts(pb).value;
    if SemanticKey(a) == SemanticKey(b) {
      JoinIsInjective(ea, eb);
      forall i | 0 <= i < 6
        ensures pa[i] == pb[i]
      {
        EncodeComponentIsInjective(pa[i], pb[i]);
      }
      assert pa[1] == pb[1] && pa[2] == pb[2] && pa[3] == pb[3] && pa[4] == pb[4] && pa[5] == pb[5];
    }
  }

  /** A test key never equals a key without a test id. */
  lemma TestKeysAreApart(a: Node, b: Node)
    requires HasTestId(a) && !HasTestId(b)
    ensures SemanticKey(a) != SemanticKey(b)
  {
    hide EncodeComponent, EncodeParts, WellFormed;
    if SemanticKey(b).Some? {
      var eb := EncodeParts(KeyParts(b)).value;
      SemanticStarts();
      assert KeyParts(b)[0] == Ascii("semantic");
      assert Join(eb)[0] == eb[0][0];
      assert SemanticKey(a).value[0] == 't' as int;
    }
  }

  /** Is `g` the frame id `f`, a colon, and something more? */
  predicate Extends(f: Str, g: Str) { f + [UriComponent.COLON] <= g }

  lemma TestKeyOf(n: Node)
    requires HasTestId(n)
    ensures SemanticKey(n) == Some(Ascii("test:") + (Frame(n) + [UriComponent.COLON] + n.testId.value))
  {
    hide Ascii, Frame;
    Associate(Ascii("test:"), Frame(n), [UriComponent.COLON], n.testId.value);
  }

  /** Two readings of one text as a frame and a test id: the same, or one frame extends the
  other. */
  lemma FrameCut(f: Str, x: Str, g: Str, y: Str)
    requires f + [UriComponent.COLON] + x == g + [UriComponent.COLON] + y
    ensures (f == g && x == y) || Extends(f, g) || Extends(g, f)
  {
    var l, r := f + [UriComponent.COLON] + x, g + [UriComponent.COLON] + y;
    assert l[..|f|] == f && r[..|g|] == g && l[|f| + 1..] == x && r[|g| + 1..] == y;
    if |f| < |g| {
      assert l[..|f| + 1] == f + [UriComponent.COLON] && r[..|g|][..|f| + 1] == r[..|f| + 1];
    } else if |g| < |f| {
      assert r[..|g| + 1] == g + [UriComponent.COLON] && l[..|f|][..|g| + 1] == l[..|g| + 1];
    }
  }

  /** Nodes with a test id share a key exactly when they agree in frame and test id, unless
  one frame id extends the other: these two parts are not encoded. */
  lemma TestKeyIsIdentity(a: Node, b: Node)
    requires HasTestId(a) && HasTestId(b) && !Extends(Frame(a), Frame(b)) && !Extends(Frame(b), Frame(a))
    ensures SemanticKey(a) == SemanticKey(b) <==> Frame(a) == Frame(b) && a.testId == b.testId
  {
    hide Ascii, Frame, Extends, SemanticKey;
    var x, y := Frame(a) + [UriComponent.COLON] + a.testId.value, Frame(b) + [UriComponent.COLON] + b.testId.value;
    TestKeyOf(a);
    TestKeyOf(b);
    if SemanticKey(a) == SemanticKey(b) {
      assert x == (Ascii("test:") + x)[5..] && y == (Ascii("test:") + y)[5..];
      FrameCut(Frame(a), a.testId.value, Frame(b), b.testId.value);
    }
  }

  function TestNode(n: Node, frame: Str, testId: Str): Node { n.(frameId := Some(frame), testId := Some(testId)) }

  /** Two different frames have test ids that share a key exactly when one frame id extends
  the other. */
  lemma FramesCollide(n: Node, f: Str, g: Str)
    requires f != g
    ensures (exists x, y :: x != [] && y != [] && SemanticKey(TestNode(n, f, x)) == SemanticKey(TestNode(n, g, y))) <==>
              Extends(f, g) || Extends(g, f)
  {
    hide SemanticKey, Extends;
    if Extends(f, g) {
      var x := Collision(n, f, g);
    } else if Extends(g, f) {
      var x := Collision(n, g, f);
    } else {
      forall x, y | x != [] && y != []
        ensures SemanticKey(TestNode(n, f, x)) != SemanticKey(TestNode(n, g, y))
      {
        TestKeyIsIdentity(TestNode(n, f, x), TestNode(n, g, y));
      }
    }
  }

  lemma Collision(n: Node, f: Str, g: Str) returns (x: Str)
    requires Extends(f, g)
    ensures x != [] && SemanticKey(TestNode(n, f, x)) == SemanticKey(TestNode(n, g, [0x61]))
  {
    hide SemanticKey;
    var colon := UriComponent.COLON;
    var rest := g[|f| + 1..];
    x := rest + [colon] + [0x61];
    assert g == f + [colon] + rest;
    assert f + [colon] + x == g + [colon] + [0x61];
    TestKeyOf(TestNode(n, f, x));
    TestKeyOf(TestNode(n, g, [0x61]));
  }

  lemma Associate(a: Str, b: Str, c: Str, d: Str)
    ensures a + b + c + d == a + (b + c + d)
  {
  }

  /** With a colon in a frame id two different nodes can share a test key. */
  lemma TestKeysCanCollide(n: Node)
    ensures var colon := UriComponent.COLON;
            var a := n.(frameId := Some([0x61]), testId := Some([0x62, colon, 0x63]));
            var b := n.(frameId := Some([0x61, colon, 0x62]), testId := Some([0x63]));
            SemanticKey(a) == SemanticKey(b) && a.testId != b.testId
  {
    var colon := UriComponent.COLON;
    assert [0x61] + [colon] + [0x62, colon, 0x63] == [0x61, colon, 0x62] + [colon] + [0x63];
    Associate(Ascii("test:"), [0x61], [colon], [0x62, colon, 0x63]);
    Associate(Ascii("test:"), [0x61, colon, 0x62], [colon], [0x63]);
  }

  lemma SemanticStarts()
    ensures var e := EncodeComponent(Ascii("semantic")); e.Some? ==> e.value != [] && e.value[0] == 's' as int
  {
    var s := Ascii("semantic");
    assert ScalarsOf(s)[0] == 's' as int;
    assert Encode(ScalarsOf(s))[0] == 's' as int;
  }

  // ----- the compared fields -----

  datatype Field = Role | Name | Tag | Type | TestId | FrameId | Visible | Enabled | Editable | Checked | Required | Value | TextField

  datatype Compared = Compared(
    role: Str, name: Str, tag: Str, typ: Option<Str>, testId: Option<Str>, frameId: Option<Str>,
    visible: Option<bool>, enabled: Option<bool>, editable: Option<bool>, checked: Option<bool>, required: Option<bool>,
    hasValue: bool, textDigest: Option<Digest>)

  /** Everything of a node that a diff compares: not its ref, not its generation. */
  function Fields(s: StoredNode): Compared {
    var n := s.node;
    Compared(n.role, n.name, n.tag, n.typ, n.testId, n.frameId,
             n.visible, n.enabled, n.editable, n.checked, n.required, n.hasValue, s.textDigest)
  }

  predicate Differs(f: Field, before: StoredNode, after: StoredNode) {
    var b, a := before.node, after.node;
    match f
    case Role => b.role != a.role
    case Name => b.name != a.name
    case Tag => b.tag != a.tag
    case Type => b.typ != a.typ
    case TestId => b.testId != a.testId
    case FrameId => b.frameId != a.frameId
    case Visible => b.visible != a.visible
    case Enabled => b.enabled != a.enabled
    case Editable => b.editable != a.editable
    case Checked => b.checked != a.checked
    case Required => b.required != a.required
    case Value => b.hasValue != a.hasValue
    case TextField => before.textDigest != after.textDigest
  }

  const NODE_FIELDS: seq<Field> := [Role, Name, Tag, Type, TestId, FrameId, Visible, Enabled, Editable, Checked, Required, Value, TextField]

  function ChangedAmong(fields: seq<Field>, before: StoredNode, after: StoredNode): (r: seq<Field>)
    ensures forall f :: f in r <==> f in fields && Differs(f, before, after)
  {
    if fields == [] then []
    else (if Differs(fields[0], before, after) then [fields[0]] else []) + ChangedAmong(fields[1..], before, after)
  }

  function ChangedFields(before: StoredNode, after: StoredNode): seq<Field> {
    ChangedAmong(NODE_FIELDS, before, after)
  }

  lemma AllFieldsListed(f: Field)
    ensures f in NODE_FIELDS
  {
    assert NODE_FIELDS[0] == Role && NODE_FIELDS[1] == Name && NODE_FIELDS[2] == Tag && NODE_FIELDS[3] == Type;
    assert NODE_FIELDS[4] == TestId && NODE_FIELDS[5] == FrameId && NODE_FIELDS[6] == Visible;
    assert NODE_FIELDS[7] == Enabled && NODE_FIELDS[8] == Editable && NODE_FIELDS[9] == Checked;
    assert NODE_FIELDS[10] == Required && NODE_FIELDS[11] == Value && NODE_FIELDS[12] == TextField;
  }

  /** No field is listed as changed exactly when all the compared fields agree. */
  lemma UnchangedMeansEqual(before: StoredNode, after: StoredNode)
    ensures ChangedFields(before, after) == [] <==> Fields(before) == Fields(after)
  {
    hide ChangedAmong, Differs;
    var changed := ChangedFields(before, after);
    FieldsAgree(before, after);
    forall f
      ensures f in changed <==> Differs(f, before, after)
    {
      AllFieldsListed(f);
    }
    if changed != [] {
      assert changed[0] in changed;
    }
  }

  lemma FieldsAgree(before: StoredNode, after: StoredNode)
    ensures Fields(before) == Fields(after) <==> forall f :: !Differs(f, before, after)
  {
    if forall f :: !Differs(f, before, after) {
      assert !Differs(Role, before, after) && !Differs(Name, before, after) && !Differs(Tag, before, after);
      assert !Differs(Type, before, after) && !Differs(TestId, before, after) && !Differs(FrameId, before, after);
      assert !Differs(Visible, before, after) && !Differs(Enabled, before, after) && !Differs(Editable, before, after);
      assert !Differs(Checked, before, after) && !Differs(Required, before, after) && !Differs(Value, before, after);
      assert !Differs(TextField, before, after);
    }
  }

  predicate SameStoredNode(a: StoredNode, b: StoredNode) {
    Fields(a) == Fields(b) && a.node.ref == b.node.ref && a.node.generation == b.node.generation
  }

  predicate SameStoredNodes(left: seq<StoredNode>, right: seq<StoredNode>) {
    |left| == |right| && forall i :: 0 <= i < |left| ==> SameStoredNode(left[i], right[i])
  }
}
