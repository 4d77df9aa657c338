/** Percent-encoded parts joined by colons, as in the key under which a snapshot diff
matches nodes (src/browser/snapshot-history.ts, semanticKey). */
module UriComponent {
  import opened Common
  import opened Text

  const PERCENT: CodeUnit := 0x25
  const COLON: CodeUnit := 0x3A

  /** The letters, digits and marks that encodeURIComponent leaves as they are. */
  predicate Unreserved(b: Byte) {
    || 0x41 <= b <= 0x5A || 0x61 <= b <= 0x7A || 0x30 <= b <= 0x39
    || b == 0x2D || b == 0x5F || b == 0x2E || b == 0x21 || b == 0x7E || b == 0x2A || 0x27 <= b <= 0x29
  }

  function HexDigit(n: nat): CodeUnit
    requires n < 16
  {
    if n < 10 then 0x30 + n else 0x41 + n - 10
  }

  function EscapeByte(b: Byte): (r: Str)
    ensures r != [] && COLON !in r
  {
    if Unreserved(b) then [b] else [PERCENT, HexDigit(b / 16), HexDigit(b % 16)]
  }

  function Escape(bytes: seq<Byte>): (r: Str)
    ensures COLON !in r
  {
    if bytes == [] then [] else EscapeByte(bytes[0]) + Escape(bytes[1..])
  }

  /** encodeURIComponent; None where it raises a URIError: on an unpaired surrogate. */
  function EncodeComponent(s: Str): (r: Option<Str>)
    ensures r.Some? ==> COLON !in r.value
  {
    if WellFormed(s) then Some(Escape(Encode(ScalarsOf(s)))) else None
  }

  lemma EscapeByteIsPrefixFree(a: Byte, b: Byte, x: Str, y: Str)
    requires EscapeByte(a) + x == EscapeByte(b) + y
    ensures a == b && x == y
  {
    var l, r := EscapeByte(a) + x, EscapeByte(b) + y;
    assert l[0] == EscapeByte(a)[0] && r[0] == EscapeByte(b)[0];
    if !Unreserved(a) {
      assert l[1] == EscapeByte(a)[1] && l[2] == EscapeByte(a)[2];
      assert r[1] == EscapeByte(b)[1] && r[2] == EscapeByte(b)[2];
      assert a == 16 * (a / 16) + a % 16 && b == 16 * (b / 16) + b % 16;
    }
    assert x == l[|EscapeByte(a)|..] && y == r[|EscapeByte(b)|..];
  }

  lemma {:induction false} EscapeIsInjective(a: seq<Byte>, b: seq<Byte>)
    requires Escape(a) == Escape(b)
    ensures a == b
  {
    hide EscapeByte;
    if a != [] && b != [] {
      EscapeByteIsPrefixFree(a[0], b[0], Escape(a[1..]), Escape(b[1..]));
      EscapeIsInjective(a[1..], b[1..]);
    }
  }

  lemma EncodeComponentIsInjective(a: Str, b: Str)
    requires WellFormed(a) && WellFormed(b) && EncodeComponent(a) == EncodeComponent(b)
    ensures a == b
  {
    hide Escape, Encode, ScalarsOf, UnitsOf;
    var ca, cb := ScalarsOf(a), ScalarsOf(b);
    EscapeIsInjective(Encode(ca), Encode(cb));
    DecodesBack(ca);
    DecodesBack(cb);
    UnitsOfScalars(a);
    UnitsOfScalars(b);
  }

  lemma DecodesBack(cs: seq<Scalar>)
    ensures Decode(Encode(cs)) == cs
  {
    DecodeEncode(cs, []);
    assert Encode(cs) + [] == Encode(cs);
    assert cs + Decode([]) == cs;
  }

  // ----- joined parts -----

  function Join(parts: seq<Str>): Str
    requires parts != []
  {
    if |parts| == 1 then parts[0] else parts[0] + [COLON] + Join(parts[1..])
  }

  predicate NoColons(parts: seq<Str>) {
    forall i :: 0 <= i < |parts| ==> COLON !in parts[i]
  }

  lemma FirstColon(a: Str, x: Str)
    requires COLON !in a
    ensures var l := a + [COLON] + x; l[|a|] == COLON && forall i :: 0 <= i < |a| ==> l[i] != COLON
  {
  }

  lemma SplitAtColon(a: Str, x: Str, b: Str, y: Str)
    requires COLON !in a && COLON !in b && a + [COLON] + x == b + [COLON] + y
    ensures a == b && x == y
  {
    var l, r := a + [COLON] + x, b + [COLON] + y;
    FirstColon(a, x);
    FirstColon(b, y);
    assert |a| == |b|;
    assert l[..|a|] == a && r[..|b|] == b;
    assert l[|a| + 1..] == x && r[|b| + 1..] == y;
  }

  lemma {:induction false} JoinIsInjective(a: seq<Str>, b: seq<Str>)
    requires |a| == |b| > 0 && NoColons(a) && NoColons(b) && Join(a) == Join(b)
    ensures a == b
  {
    if |a| > 1 {
      SplitAtColon(a[0], Join(a[1..]), b[0], Join(b[1..]));
      JoinIsInjective(a[1..], b[1..]);
    }
  }
}
