/** JavaScript strings as sequences of UTF-16 code units, and their UTF-8 bytes.

Follows how Node's `Buffer.byteLength`, `Buffer.from` and `Buffer.toString`
behave: an unpaired surrogate is encoded as U+FFFD, and decoding replaces each
maximal ill-formed part by one U+FFFD (section 3 of RFC 3629 gives the byte
ranges). */
module Text {
  type CodeUnit = u: int | 0 <= u < 0x1_0000
  type Str = seq<CodeUnit>
  type Byte = b: int | 0 <= b < 0x100
  /** A Unicode scalar value: every code point but the surrogates. */
  type Scalar = c: int | 0 <= c < 0xD800 || 0xE000 <= c < 0x11_0000

  const REPLACEMENT: Scalar := 0xFFFD

  predicate High(u: CodeUnit) { 0xD800 <= u < 0xDC00 }

  predicate Low(u: CodeUnit) { 0xDC00 <= u < 0xE000 }

  // ----- UTF-16 -----

  /** Is there a surrogate pair at the front of s? */
  predicate PairFirst(s: Str) {
    |s| > 1 && High(s[0]) && Low(s[1])
  }

  /** The scalars of a string; an unpaired surrogate counts as U+FFFD. */
  function ScalarsOf(s: Str): seq<Scalar> {
    if s == [] then []
    else if PairFirst(s) then
      [0x1_0000 + (s[0] - 0xD800) * 0x400 + (s[1] - 0xDC00)] + ScalarsOf(s[2..])
    else if High(s[0]) || Low(s[0]) then [REPLACEMENT] + ScalarsOf(s[1..])
    else [s[0]] + ScalarsOf(s[1..])
  }

  /** No unpaired surrogate anywhere. */
  predicate WellFormed(s: Str) {
    if s == [] then true
    else if PairFirst(s) then WellFormed(s[2..])
    else !High(s[0]) && !Low(s[0]) && WellFormed(s[1..])
  }

  function UnitsOfScalar(c: Scalar): (s: Str) {
    if c < 0x1_0000 then [c]
    else [0xD800 + (c - 0x1_0000) / 0x400, 0xDC00 + (c - 0x1_0000) % 0x400]
  }

  function UnitsOf(cs: seq<Scalar>): Str {
    if cs == [] then [] else UnitsOfScalar(cs[0]) + UnitsOf(cs[1..])
  }

  lemma SurrogateArithmetic(c: int)
    requires 0x1_0000 <= c < 0x11_0000
    ensures var hi, lo := 0xD800 + (c - 0x1_0000) / 0x400, 0xDC00 + (c - 0x1_0000) % 0x400;
            && 0xD800 <= hi < 0xDC00 && 0xDC00 <= lo < 0xE000
            && 0x1_0000 + (hi - 0xD800) * 0x400 + (lo - 0xDC00) == c
  {
  }

  lemma ScalarsOfOne(c: Scalar, rest: Str)
    ensures ScalarsOf(UnitsOfScalar(c) + rest) == [c] + ScalarsOf(rest)
  {
    var u := UnitsOfScalar(c);
    assert (u + rest)[|u|..] == rest;
    if c >= 0x1_0000 {
      SurrogateArithmetic(c);
      assert PairFirst(u + rest);
    }
  }

  /** Printing scalars and reading them back changes nothing, whatever follows. */
  lemma {:induction false} ScalarsOfUnits(cs: seq<Scalar>, rest: Str)
    ensures ScalarsOf(UnitsOf(cs) + rest) == cs + ScalarsOf(rest)
  {
    hide UnitsOfScalar, PairFirst;
    if cs == [] {
      assert UnitsOf(cs) + rest == rest;
    } else {
      calc {
        ScalarsOf(UnitsOf(cs) + rest);
        { assert UnitsOf(cs) + rest == UnitsOfScalar(cs[0]) + (UnitsOf(cs[1..]) + rest); }
        ScalarsOf(UnitsOfScalar(cs[0]) + (UnitsOf(cs[1..]) + rest));
        { ScalarsOfOne(cs[0], UnitsOf(cs[1..]) + rest); }
        [cs[0]] + ScalarsOf(UnitsOf(cs[1..]) + rest);
        { ScalarsOfUnits(cs[1..], rest); }
        [cs[0]] + (cs[1..] + ScalarsOf(rest));
        { Associate(cs[0], cs[1..], ScalarsOf(rest)); assert cs == [cs[0]] + cs[1..]; }
        cs + ScalarsOf(rest);
      }
    }
  }

  /** On well-formed strings the scalars determine the string. */
  lemma {:induction false} UnitsOfScalars(s: Str)
    requires WellFormed(s)
    ensures UnitsOf(ScalarsOf(s)) == s
  {
    if s == [] {
    } else if PairFirst(s) {
      UnitsOfScalars(s[2..]);
      assert s == s[..2] + s[2..];
    } else {
      UnitsOfScalars(s[1..]);
    }
  }

  /** A cut between two units that do not form a pair splits the scalars. */
  lemma {:induction false} ScalarsOfConcat(a: Str, b: Str)
    requires a == [] || b == [] || !High(a[|a| - 1]) || !Low(b[0])
    ensures ScalarsOf(a + b) == ScalarsOf(a) + ScalarsOf(b)
  {
    if a == [] {
      assert a + b == b;
    } else if PairFirst(a) {
      assert (a + b)[2..] == a[2..] + b;
      ScalarsOfConcat(a[2..], b);
      Associate(ScalarsOf(a)[0], ScalarsOf(a[2..]), ScalarsOf(b));
    } else {
      assert (a + b)[1..] == a[1..] + b;
      ScalarsOfConcat(a[1..], b);
      Associate(ScalarsOf(a)[0], ScalarsOf(a[1..]), ScalarsOf(b));
    }
  }

  // ----- UTF-8 -----

  function EncodeScalar(c: Scalar): (bytes: seq<Byte>)
    ensures 1 <= |bytes| <= 4
  {
    if c < 0x80 then [c]
    else if c < 0x800 then [0xC0 + c / 0x40, 0x80 + c % 0x40]
    else if c < 0x1_0000 then [0xE0 + c / 0x1000, 0x80 + c / 0x40 % 0x40, 0x80 + c % 0x40]
    else [0xF0 + c / 0x4_0000, 0x80 + c / 0x1000 % 0x40, 0x80 + c / 0x40 % 0x40, 0x80 + c % 0x40]
  }

  function Encode(cs: seq<Scalar>): (bytes: seq<Byte>)
    ensures |cs| <= |bytes|
  {
    if cs == [] then [] else EncodeScalar(cs[0]) + Encode(cs[1..])
  }

  function ByteLength(s: Str): nat {
    |Encode(ScalarsOf(s))|
  }

  /** How many continuation bytes a lead byte announces; 0 for a byte that cannot lead. */
  function Needed(lead: Byte): nat {
    if 0xC2 <= lead < 0xE0 then 1
    else if 0xE0 <= lead < 0xF0 then 2
    else if 0xF0 <= lead < 0xF5 then 3
    else 0
  }

  /** May `b` be the k-th continuation byte (from 1) after `lead`? */
  predicate Continues(lead: Byte, k: nat, b: Byte) {
    if k == 1 && lead == 0xE0 then 0xA0 <= b < 0xC0
    else if k == 1 && lead == 0xED then 0x80 <= b < 0xA0
    else if k == 1 && lead == 0xF0 then 0x90 <= b < 0xC0
    else if k == 1 && lead == 0xF4 then 0x80 <= b < 0x90
    else 0x80 <= b < 0xC0
  }

  /** The number of bytes in the first well-formed sequence or maximal ill-formed part. */
  function Extent(bytes: seq<Byte>, k: nat): (n: nat)
    requires 1 <= k <= |bytes| && k <= 1 + Needed(bytes[0])
    ensures k <= n <= |bytes| && n <= 1 + Needed(bytes[0])
    ensures forall j :: k <= j < n ==> Continues(bytes[0], j, bytes[j])
    ensures n < 1 + Needed(bytes[0]) && n < |bytes| ==> !Continues(bytes[0], n, bytes[n])
    decreases |bytes| - k
  {
    if k < 1 + Needed(bytes[0]) && k < |bytes| && Continues(bytes[0], k, bytes[k])
    then Extent(bytes, k + 1)
    else k
  }

  /** The value of a complete well-formed sequence. */
  function Assemble(b: seq<Byte>): (c: Scalar)
    requires |b| > 0 && |b| == 1 + Needed(b[0]) && (|b| == 1 ==> b[0] < 0x80)
    requires forall j :: 1 <= j < |b| ==> Continues(b[0], j, b[j])
  {
    assert |b| > 1 ==> Continues(b[0], 1, b[1]);
    assert |b| > 2 ==> Continues(b[0], 2, b[2]);
    assert |b| > 3 ==> Continues(b[0], 3, b[3]);
    var lead: int := b[0];
    if |b| == 1 then lead
    else
      var low: int := b[|b| - 1] as int - 0x80;
      if |b| == 2 then (lead - 0xC0) * 0x40 + low
      else
        var mid: int := b[|b| - 2] as int - 0x80;
        if |b| == 3 then (lead - 0xE0) * 0x1000 + mid * 0x40 + low
        else (lead - 0xF0) * 0x4_0000 + (b[1] as int - 0x80) * 0x1000 + mid * 0x40 + low
  }

  function DecodeFirst(bytes: seq<Byte>): (r: (Scalar, nat))
    requires bytes != []
    ensures 1 <= r.1 <= |bytes|
  {
    var n := Extent(bytes, 1);
    if n == 1 + Needed(bytes[0]) && (n > 1 || bytes[0] < 0x80)
    then (Assemble(bytes[..n]), n)
    else (REPLACEMENT, n)
  }

  /** `Buffer.toString('utf8')`. */
  function Decode(bytes: seq<Byte>): seq<Scalar> {
    if bytes == [] then []
    else
      var (c, n) := DecodeFirst(bytes);
      [c] + Decode(bytes[n..])
  }

  lemma EncodedScalar(c: Scalar)
    ensures var e := EncodeScalar(c);
            && |e| == 1 + Needed(e[0])
            && (|e| == 1 ==> e[0] < 0x80)
            && (forall j :: 1 <= j < |e| ==> Continues(e[0], j, e[j]))
  {
  }

  lemma AssembleEncoded(c: Scalar)
    ensures var e := EncodeScalar(c);
            && |e| == 1 + Needed(e[0])
            && (|e| == 1 ==> e[0] < 0x80)
            && (forall j :: 1 <= j < |e| ==> Continues(e[0], j, e[j]))
            && Assemble(e) == c
  {
    EncodedScalar(c);
    if c < 0x80 {
    } else if c < 0x800 {
    } else if c < 0x1_0000 {
      assert c / 0x40 / 0x40 == c / 0x1000;
    } else {
      assert c / 0x40 / 0x40 == c / 0x1000;
      assert c / 0x1000 / 0x40 == c / 0x4_0000;
    }
  }

  lemma DecodeFirstEncoded(c: Scalar, rest: seq<Byte>)
    ensures DecodeFirst(EncodeScalar(c) + rest) == (c, |EncodeScalar(c)|)
  {
    var e := EncodeScalar(c);
    var all := e + rest;
    AssembleEncoded(c);
    assert forall j :: 0 <= j < |e| ==> all[j] == e[j];
    assert forall j :: 1 <= j < |e| ==> Continues(all[0], j, all[j]);
    var n := Extent(all, 1);
    assert n == |e|;
    assert all[..n] == e;
  }

  lemma DecodeOne(c: Scalar, rest: seq<Byte>)
    ensures Decode(EncodeScalar(c) + rest) == [c] + Decode(rest)
  {
    var e := EncodeScalar(c);
    DecodeFirstEncoded(c, rest);
    assert (e + rest)[|e|..] == rest;
  }

  lemma Associate<T>(x: T, a: seq<T>, b: seq<T>)
    ensures [x] + (a + b) == ([x] + a) + b
  {
  }

  /** Decoding undoes encoding, whatever bytes follow. */
  lemma {:induction false} DecodeEncode(cs: seq<Scalar>, rest: seq<Byte>)
    ensures Decode(Encode(cs) + rest) == cs + Decode(rest)
  {
    hide EncodeScalar, DecodeFirst, Extent;
    if cs == [] {
      assert Encode(cs) + rest == rest;
    } else {
      calc {
        Decode(Encode(cs) + rest);
        { assert Encode(cs) + rest == EncodeScalar(cs[0]) + (Encode(cs[1..]) + rest); }
        Decode(EncodeScalar(cs[0]) + (Encode(cs[1..]) + rest));
        { DecodeOne(cs[0], Encode(cs[1..]) + rest); }
        [cs[0]] + Decode(Encode(cs[1..]) + rest);
        { DecodeEncode(cs[1..], rest); }
        [cs[0]] + (cs[1..] + Decode(rest));
        { Associate(cs[0], cs[1..], Decode(rest)); assert cs == [cs[0]] + cs[1..]; }
        cs + Decode(rest);
      }
    }
  }

  /** A cut inside one character decodes to a single U+FFFD. */
  lemma DecodePartial(c: Scalar, k: nat)
    requires 0 < k < |EncodeScalar(c)|
    ensures Decode(EncodeScalar(c)[..k]) == [REPLACEMENT]
  {
    var e := EncodeScalar(c);
    var p := e[..k];
    EncodedScalar(c);
    assert forall j :: 1 <= j < k ==> Continues(p[0], j, p[j]);
    assert Extent(p, 1) == k;
    assert p[k..] == [];
  }

  lemma {:induction false} EncodeConcat(a: seq<Scalar>, b: seq<Scalar>)
    ensures Encode(a + b) == Encode(a) + Encode(b)
  {
    if a == [] {
      assert a + b == b;
    } else {
      assert (a + b)[1..] == a[1..] + b;
      EncodeConcat(a[1..], b);
    }
  }

  lemma ByteLengthConcat(a: Str, b: Str)
    requires a == [] || b == [] || !High(a[|a| - 1]) || !Low(b[0])
    ensures ByteLength(a + b) == ByteLength(a) + ByteLength(b)
  {
    ScalarsOfConcat(a, b);
    EncodeConcat(ScalarsOf(a), ScalarsOf(b));
  }

  // ----- truncation -----

  /** The number of whole characters in the first `n` bytes of the encoding. */
  function WholeChars(cs: seq<Scalar>, n: nat): (k: nat)
    ensures k <= |cs|
  {
    if cs == [] || n < |EncodeScalar(cs[0])| then 0
    else 1 + WholeChars(cs[1..], n - |EncodeScalar(cs[0])|)
  }

  /** `WholeChars` is the largest count whose encoding fits. */
  lemma {:induction false} WholeCharsIsLargest(cs: seq<Scalar>, n: nat)
    ensures var k := WholeChars(cs, n);
            && |Encode(cs[..k])| <= n
            && (k < |cs| ==> |Encode(cs[..k + 1])| > n)
  {
    if cs == [] || n < |EncodeScalar(cs[0])| {
      if cs != [] {
        assert cs[..1] == [cs[0]];
        assert Encode([cs[0]]) == EncodeScalar(cs[0]) + Encode([]);
      }
    } else {
      var m := n - |EncodeScalar(cs[0])|;
      var k := WholeChars(cs[1..], m);
      WholeCharsIsLargest(cs[1..], m);
      assert cs[..k + 1][1..] == cs[1..][..k];
      if k + 1 < |cs| {
        assert cs[..k + 2][1..] == cs[1..][..k + 1];
      }
    }
  }

  predicate AtMostOneMore(cut: seq<Scalar>, whole: seq<Scalar>) {
    cut == whole || cut == whole + [REPLACEMENT]
  }

  lemma AtMostOneMoreBase(cut: seq<Scalar>)
    requires cut == [] || cut == [REPLACEMENT]
    ensures AtMostOneMore(cut, [])
  {
    assert [] + [REPLACEMENT] == [REPLACEMENT];
  }

  lemma AtMostOneMoreCons(c: Scalar, cut: seq<Scalar>, whole: seq<Scalar>)
    requires AtMostOneMore(cut, whole)
    ensures AtMostOneMore([c] + cut, [c] + whole)
  {
    Associate(c, whole, [REPLACEMENT]);
  }

  /** Decoding a cut encoding gives the whole characters and at most one U+FFFD. */
  lemma {:induction false} DecodeCut(cs: seq<Scalar>, n: nat)
    requires n <= |Encode(cs)|
    ensures AtMostOneMore(Decode(Encode(cs)[..n]), cs[..WholeChars(cs, n)])
  {
    hide EncodeScalar, DecodeFirst, Extent, AtMostOneMore;
    if cs == [] {
      AtMostOneMoreBase([]);
    } else {
      var e := EncodeScalar(cs[0]);
      if n < |e| {
        assert Encode(cs)[..n] == e[..n];
        if n > 0 {
          DecodePartial(cs[0], n);
        }
        AtMostOneMoreBase(Decode(e[..n]));
      } else {
        var m := n - |e|;
        var tail := Encode(cs[1..])[..m];
        assert Encode(cs)[..n] == e + tail;
        DecodeOne(cs[0], tail);
        DecodeCut(cs[1..], m);
        var whole := cs[1..][..WholeChars(cs[1..], m)];
        AtMostOneMoreCons(cs[0], Decode(tail), whole);
        assert cs[..WholeChars(cs, n)] == [cs[0]] + whole;
      }
    }
  }

  /** Removes every U+FFFD at the end. */
  function StripReplacement(cs: seq<Scalar>): (r: seq<Scalar>)
    ensures |r| <= |cs| && r == cs[..|r|]
    ensures r != [] ==> r[|r| - 1] != REPLACEMENT
    ensures forall j :: |r| <= j < |cs| ==> cs[j] == REPLACEMENT
  {
    if cs != [] && cs[|cs| - 1] == REPLACEMENT then StripReplacement(cs[..|cs| - 1]) else cs
  }

  datatype Truncated = Truncated(value: Str, bytes: nat, truncated: bool)

  /** `maxBytes` after flooring, which is the identity on integers here. */
  function TruncateUtf8(value: Str, maxBytes: int): Truncated {
    var safeMax := if maxBytes < 0 then 0 else maxBytes;
    var encoded := Encode(ScalarsOf(value));
    if |encoded| <= safeMax then Truncated(value, |encoded|, false)
    else if safeMax == 0 then Truncated([], 0, true)
    else
      var bounded := UnitsOf(StripReplacement(Decode(encoded[..safeMax])));
      Truncated(bounded, ByteLength(bounded), true)
  }

  lemma ScalarsOfPrinted(cs: seq<Scalar>)
    ensures ScalarsOf(UnitsOf(cs)) == cs
  {
    ScalarsOfUnits(cs, []);
    assert UnitsOf(cs) + [] == UnitsOf(cs);
    assert cs + ScalarsOf([]) == cs;
  }

  lemma {:induction false} StripAppended(cs: seq<Scalar>)
    ensures StripReplacement(cs + [REPLACEMENT]) == StripReplacement(cs)
  {
    assert (cs + [REPLACEMENT])[..|cs|] == cs;
  }

  /** The exact result when the string does not fit: the whole characters that
  fit, without the U+FFFD at their end. */
  lemma TruncatedScalars(value: Str, maxBytes: int)
    requires ByteLength(value) > maxBytes && ByteLength(value) > 0
    ensures var n := if maxBytes < 0 then 0 else maxBytes;
            var cs := ScalarsOf(value);
            var r := TruncateUtf8(value, maxBytes);
            && r.truncated
            && ScalarsOf(r.value) == StripReplacement(cs[..WholeChars(cs, n)])
            && WellFormed(r.value)
  {
    var n := if maxBytes < 0 then 0 else maxBytes;
    var cs := ScalarsOf(value);
    var whole := cs[..WholeChars(cs, n)];
    if n == 0 {
      assert whole == [];
    } else {
      DecodeCut(cs, n);
      StripAppended(whole);
      ScalarsOfPrinted(StripReplacement(whole));
      UnitsAreWellFormed(StripReplacement(whole));
    }
  }

  lemma {:induction false} UnitsAreWellFormed(cs: seq<Scalar>)
    ensures WellFormed(UnitsOf(cs))
  {
    if cs != [] {
      UnitsAreWellFormed(cs[1..]);
      var u := UnitsOfScalar(cs[0]);
      assert (u + UnitsOf(cs[1..]))[|u|..] == UnitsOf(cs[1..]);
    }
  }

  lemma {:induction false} EncodePrefix(cs: seq<Scalar>, k: nat)
    requires k <= |cs|
    ensures |Encode(cs[..k])| <= |Encode(cs)|
    ensures k < |cs| ==> |Encode(cs[..k])| < |Encode(cs)|
  {
    EncodeConcat(cs[..k], cs[k..]);
    assert cs[..k] + cs[k..] == cs;
  }

  lemma FittingPrefix(cs: seq<Scalar>, p: seq<Scalar>, n: nat)
    requires p <= cs && |Encode(p)| <= n
    ensures |p| <= WholeChars(cs, n)
  {
    WholeCharsIsLargest(cs, n);
    var k := WholeChars(cs, n);
    assert forall m :: 0 <= m <= |p| ==> p[..m] == cs[..m];
    if k < |p| {
      EncodePrefix(p, k + 1);
    }
  }

  /** Are all characters of `p` from position `k` on U+FFFD? */
  predicate OnlyReplacementFrom(p: seq<Scalar>, k: nat) {
    forall j :: k <= j < |p| ==> p[j] == REPLACEMENT
  }

  /** The whole contract of truncation, for every string and every limit: the byte
  count is exact and within the limit; the string comes back unchanged exactly when
  it fits; the result is a prefix in whole characters; and every prefix that fits is
  no longer than the result, up to U+FFFD dropped at the end. */
  lemma TruncateUtf8Correct(value: Str, maxBytes: int)
    ensures var n := if maxBytes < 0 then 0 else maxBytes;
            var r := TruncateUtf8(value, maxBytes);
            && r.bytes == ByteLength(r.value) <= n
            && (r.truncated <==> ByteLength(value) > n)
            && (!r.truncated ==> r.value == value)
            && ScalarsOf(r.value) <= ScalarsOf(value)
    ensures var n := if maxBytes < 0 then 0 else maxBytes;
            forall p :: p <= ScalarsOf(value) && |Encode(p)| <= n ==>
              OnlyReplacementFrom(p, |ScalarsOf(TruncateUtf8(value, maxBytes).value)|)
  {
    var n := if maxBytes < 0 then 0 else maxBytes;
    var cs := ScalarsOf(value);
    var kept := ScalarsOf(TruncateUtf8(value, maxBytes).value);
    if ByteLength(value) > n {
      TruncatedScalars(value, maxBytes);
      WholeCharsIsLargest(cs, n);
      EncodePrefix(cs[..WholeChars(cs, n)], |kept|);
      assert kept <= cs[..WholeChars(cs, n)] <= cs;
    }
    forall p | p <= cs && |Encode(p)| <= n
      ensures OnlyReplacementFrom(p, |kept|)
    {
      FittingPrefix(cs, p, n);
    }
  }

  lemma UnitsOfPrefix(a: seq<Scalar>, b: seq<Scalar>)
    requires a <= b
    ensures UnitsOf(a) <= UnitsOf(b)
  {
    UnitsOfConcat(a, b[|a|..]);
    assert a + b[|a|..] == b;
  }

  /** On a well-formed string the result is a prefix of the string itself. */
  lemma TruncateWellFormed(value: Str, maxBytes: int)
    requires WellFormed(value)
    ensures TruncateUtf8(value, maxBytes).value <= value
  {
    TruncateUtf8Correct(value, maxBytes);
    var r := TruncateUtf8(value, maxBytes);
    if r.truncated {
      TruncatedScalars(value, maxBytes);
      UnitsOfScalars(value);
      UnitsOfScalars(r.value);
      UnitsOfPrefix(ScalarsOf(r.value), ScalarsOf(value));
    }
  }

  lemma {:induction false} UnitsOfConcat(a: seq<Scalar>, b: seq<Scalar>)
    ensures UnitsOf(a + b) == UnitsOf(a) + UnitsOf(b)
  {
    if a == [] {
      assert a + b == b;
    } else {
      assert (a + b)[1..] == a[1..] + b;
      UnitsOfConcat(a[1..], b);
    }
  }
}
