/** Time-based one-time passwords (src/auth/totp.ts): the Base32 secret (section 6 of RFC
4648), the dynamic truncation (section 5.3 of RFC 4226) and the time window (section 4.2 of
RFC 6238). The HMAC is any function of the key and the counter to 20 bytes. */
module Totp {
  import opened Common
  import opened Text
  import opened SnapshotText
  import opened Decimal
  import Json

  type Bit = b: int | 0 <= b < 2

  // ----- bits -----

  /** The w lowest bits of v, the highest first. */
  function BitsOf(v: nat, w: nat): (r: seq<Bit>)
    ensures |r| == w
  {
    if w == 0 then [] else BitsOf(v / 2, w - 1) + [v % 2]
  }

  function NumberOf(bits: seq<Bit>): nat {
    if bits == [] then 0 else 2 * NumberOf(bits[..|bits| - 1]) + bits[|bits| - 1]
  }

  function Power2(w: nat): nat { if w == 0 then 1 else 2 * Power2(w - 1) }

  lemma {:induction false} NumberOfBits(v: nat, w: nat)
    requires v < Power2(w)
    ensures NumberOf(BitsOf(v, w)) == v
  {
    if w > 0 {
      NumberOfBits(v / 2, w - 1);
      assert BitsOf(v, w)[..w - 1] == BitsOf(v / 2, w - 1);
    }
  }

  lemma {:induction false} BitsOfNumber(bits: seq<Bit>)
    ensures BitsOf(NumberOf(bits), |bits|) == bits
    ensures NumberOf(bits) < Power2(|bits|)
  {
    if bits != [] {
      var front := bits[..|bits| - 1];
      BitsOfNumber(front);
      assert bits == front + [bits[|bits| - 1]];
    }
  }

  lemma Powers()
    ensures Power2(5) == 32 && Power2(8) == 256
  {
    assert Power2(1) == 2 && Power2(2) == 4 && Power2(3) == 8 && Power2(4) == 16;
    assert Power2(5) == 32 && Power2(6) == 64 && Power2(7) == 128;
  }

  // ----- Base32 -----

  function Letter(v: nat): CodeUnit
    requires v < 32
  {
    if v < 26 then 0x41 + v else 0x32 + v - 26
  }

  /** The value of an upper-case letter or digit of the alphabet. */
  function ValueOfLetter(u: CodeUnit): Option<nat> {
    if 0x41 <= u <= 0x5A then Some(u - 0x41) else if 0x32 <= u <= 0x37 then Some(u - 0x32 + 26) else None
  }

  /** `toUpperCase` of a code unit, as far as letters of the alphabet are concerned. Outside
  ASCII only the units listed here have an ASCII letter in their upper case; the others are
  left as they are. */
  function UpperCase(u: CodeUnit): (r: Str)
    ensures r != []
  {
    if 0x61 <= u <= 0x7A then [u - 0x20]
    else if u == 0x131 then [0x49]                    // dotless i
    else if u == 0x17F then [0x53]                    // long s
    else if u == 0xDF then [0x53, 0x53]               // sharp s
    else if u == 0x149 then [0x2BC, 0x4E]
    else if u == 0x1F0 then [0x4A, 0x30C]
    else if u == 0x1E96 then [0x48, 0x331]
    else if u == 0x1E97 then [0x54, 0x308]
    else if u == 0x1E98 then [0x57, 0x30A]
    else if u == 0x1E99 then [0x59, 0x30A]
    else if u == 0x1E9A then [0x41, 0x2BE]
    else if u == 0xFB00 then [0x46, 0x46]             // the Latin ligatures
    else if u == 0xFB01 then [0x46, 0x49]
    else if u == 0xFB02 then [0x46, 0x4C]
    else if u == 0xFB03 then [0x46, 0x46, 0x49]
    else if u == 0xFB04 then [0x46, 0x46, 0x4C]
    else if u == 0xFB05 || u == 0xFB06 then [0x53, 0x54]
    else [u]
  }

  function UpperText(s: Str): Str {
    if s == [] then [] else UpperText(s[..|s| - 1]) + UpperCase(s[|s| - 1])
  }

  /** White space, equals signs and hyphens are taken out. */
  predicate Separator(u: CodeUnit) { White(u) || u == 0x3D || u == 0x2D }

  function Cleaned(s: Str): Str {
    if s == [] then []
    else Cleaned(s[..|s| - 1]) + (if Separator(s[|s| - 1]) then [] else [s[|s| - 1]])
  }

  function LetterBits(u: CodeUnit): seq<Bit> {
    match ValueOfLetter(u)
    case Some(v) => BitsOf(v, 5)
    case None => []
  }

  /** The bits that an upper-case text stands for; other characters are skipped. */
  function SecretBits(s: Str): seq<Bit> {
    if s == [] then [] else SecretBits(s[..|s| - 1]) + LetterBits(s[|s| - 1])
  }

  /** Whole bytes only; up to seven bits at the end are dropped. */
  function BytesOf(bits: seq<Bit>): (r: seq<nat>)
    ensures |r| == |bits| / 8
  {
    if |bits| < 8 then [] else [NumberOf(bits[..8])] + BytesOf(bits[8..])
  }

  function Decoded(secret: Str): seq<nat> { BytesOf(SecretBits(UpperText(secret))) }

  lemma SeparatorHasNoBits(u: CodeUnit)
    requires Separator(u)
    ensures LetterBits(u) == []
  {
  }

  /** Taking the separators out changes nothing: they are not letters. */
  lemma {:induction false} SeparatorsHaveNoBits(s: Str)
    ensures SecretBits(Cleaned(s)) == SecretBits(s)
  {
    hide LetterBits, Separator;
    if s != [] {
      var n := |s| - 1;
      SeparatorsHaveNoBits(s[..n]);
      if Separator(s[n]) {
        SeparatorHasNoBits(s[n]);
        assert Cleaned(s[..n]) + [] == Cleaned(s[..n]) && SecretBits(s[..n]) + [] == SecretBits(s[..n]);
      } else {
        assert Cleaned(s)[..|Cleaned(s)| - 1] == Cleaned(s[..n]);
      }
    }
  }

  method Base32ToBuffer(base32: Str) returns (bytes: seq<nat>)
    ensures bytes == Decoded(base32)
  {
    hide BytesOf, NumberOf, BitsOf, Cleaned, UpperText, ValueOfLetter, SecretBits;
    var clean := Cleaned(UpperText(base32));
    SeparatorsHaveNoBits(UpperText(base32));
    NoBits();
    var bits: seq<Bit> := [];
    for i := 0 to |clean|
      invariant bits == SecretBits(clean[..i])
    {
      NextLetter(clean, i);
      match ValueOfLetter(clean[i])
      case None =>
      case Some(v) => bits := bits + BitsOf(v, 5);
    }
    assert clean[..|clean|] == clean;
    bytes := [];
    var i := 0;
    assert bits[0..] == bits;
    while i + 8 <= |bits|
      invariant i <= |bits| && bytes + BytesOf(bits[i..]) == BytesOf(bits)
    {
      NextByte(bits, i, bytes);
      bytes := bytes + [NumberOf(bits[i..i + 8])];
      i := i + 8;
    }
    LastBits(bits[i..]);
  }

  lemma NextLetter(s: Str, i: nat)
    requires i < |s|
    ensures SecretBits(s[..i + 1]) ==
              match ValueOfLetter(s[i]) case Some(v) => SecretBits(s[..i]) + BitsOf(v, 5) case None => SecretBits(s[..i])
  {
    hide ValueOfLetter, BitsOf;
    assert s[..i + 1][..i] == s[..i] && SecretBits(s[..i]) + [] == SecretBits(s[..i]);
  }

  lemma NextByte(bits: seq<Bit>, i: nat, bytes: seq<nat>)
    requires i + 8 <= |bits|
    ensures bytes + BytesOf(bits[i..]) == bytes + [NumberOf(bits[i..i + 8])] + BytesOf(bits[i + 8..])
  {
    assert bits[i..][..8] == bits[i..i + 8] && bits[i..][8..] == bits[i + 8..];
  }

  lemma LastBits(bits: seq<Bit>)
    requires |bits| < 8
    ensures BytesOf(bits) == []
  {
  }

  // ----- encoding, as the RFC defines it -----

  function AllBits(bytes: seq<Byte>): (r: seq<Bit>)
    ensures |r| == 8 * |bytes|
  {
    if bytes == [] then [] else BitsOf(bytes[0], 8) + AllBits(bytes[1..])
  }

  function Zeros(n: nat): (r: seq<Bit>)
    ensures |r| == n
  {
    seq(n, _ => 0)
  }

  /** How many zero bits fill the last group of five. */
  function Fill(n: nat): (k: nat)
    ensures k < 5 && (n + k) % 5 == 0
  {
    if n % 5 == 0 then 0 else 5 - n % 5
  }

  function Letters(bits: seq<Bit>): Str
    requires |bits| % 5 == 0
  {
    if bits == [] then []
    else
      BitsOfNumber(bits[..5]);
      Powers();
      [Letter(NumberOf(bits[..5]))] + Letters(bits[5..])
  }

  /** The Base32 text of a byte string, without its padding characters. */
  function Encoded(bytes: seq<Byte>): Str { Letters(AllBits(bytes) + Zeros(Fill(8 * |bytes|))) }

  lemma {:induction false} SecretConcat(a: Str, b: Str)
    ensures SecretBits(a + b) == SecretBits(a) + SecretBits(b)
  {
    hide LetterBits;
    if b == [] {
      assert a + b == a;
      assert SecretBits(a) + [] == SecretBits(a);
    } else {
      var n := |b| - 1;
      assert (a + b)[..|a + b| - 1] == a + b[..n];
      SecretConcat(a, b[..n]);
    }
  }

  lemma LetterHasValue(v: nat)
    requires v < 32
    ensures SecretBits([Letter(v)]) == BitsOf(v, 5)
  {
    hide BitsOf;
    assert [Letter(v)][..0] == [];
    assert [] + BitsOf(v, 5) == BitsOf(v, 5);
  }

  lemma {:induction false} LettersReadBack(bits: seq<Bit>)
    requires |bits| % 5 == 0
    ensures SecretBits(Letters(bits)) == bits
  {
    hide SecretBits, BitsOf, NumberOf, Power2;
    if bits == [] {
      NoBits();
    } else {
      var v := NumberOf(bits[..5]);
      BitsOfNumber(bits[..5]);
      Powers();
      LettersReadBack(bits[5..]);
      LetterHasValue(v);
      SecretConcat([Letter(v)], Letters(bits[5..]));
      assert bits == bits[..5] + bits[5..];
    }
  }

  lemma NoBits()
    ensures SecretBits([]) == []
  {
  }

  lemma {:induction false} BytesReadBack(bytes: seq<Byte>, rest: seq<Bit>)
    requires |rest| < 8
    ensures BytesOf(AllBits(bytes) + rest) == bytes
  {
    hide NumberOf, BitsOf, Power2;
    if bytes == [] {
      assert AllBits(bytes) + rest == rest;
    } else {
      var first, tail := BitsOf(bytes[0], 8), AllBits(bytes[1..]) + rest;
      var all := AllBits(bytes) + rest;
      assert all == first + tail && all[..8] == first && all[8..] == tail;
      Powers();
      NumberOfBits(bytes[0], 8);
      BytesReadBack(bytes[1..], rest);
    }
  }

  // ----- what decoding ignores -----

  function LettersOf(s: Str): (r: Str)
    ensures forall i :: 0 <= i < |r| ==> ValueOfLetter(r[i]).Some?
  {
    if s == [] then []
    else LettersOf(s[..|s| - 1]) + (if ValueOfLetter(s[|s| - 1]).Some? then [s[|s| - 1]] else [])
  }

  /** The letters of a secret that count, in upper case. */
  function Significant(secret: Str): Str { LettersOf(UpperText(secret)) }

  lemma {:induction false} OnlyLettersCount(s: Str)
    ensures SecretBits(LettersOf(s)) == SecretBits(s)
  {
    hide BitsOf, ValueOfLetter;
    if s != [] {
      var n := |s| - 1;
      OnlyLettersCount(s[..n]);
      if ValueOfLetter(s[n]).Some? {
        assert LettersOf(s)[..|LettersOf(s)| - 1] == LettersOf(s[..n]);
      } else {
        assert LettersOf(s[..n]) + [] == LettersOf(s[..n]) && SecretBits(s[..n]) + [] == SecretBits(s[..n]);
      }
    }
  }

  /** Decoding inverts encoding for every byte string, and it ignores case, padding,
  separators and everything else outside the alphabet: any text whose significant letters
  are those of the encoding decodes to the bytes. */
  lemma DecodeEncoded(bytes: seq<Byte>, secret: Str)
    requires Significant(secret) == Encoded(bytes)
    ensures Decoded(secret) == bytes
  {
    hide SecretBits, BytesOf, Letters, AllBits, UpperText, LettersOf, Zeros, BitsOf, NumberOf, Fill, LetterBits;
    var rest := Zeros(Fill(8 * |bytes|));
    OnlyLettersCount(UpperText(secret));
    LettersReadBack(AllBits(bytes) + rest);
    BytesReadBack(bytes, rest);
  }

  lemma {:induction false} UpperConcat(a: Str, b: Str)
    ensures UpperText(a + b) == UpperText(a) + UpperText(b)
  {
    hide UpperCase;
    if b == [] {
      assert a + b == a && UpperText(a) + [] == UpperText(a);
    } else {
      var n := |b| - 1;
      assert (a + b)[..|a + b| - 1] == a + b[..n];
      UpperConcat(a, b[..n]);
      assert UpperText(a) + (UpperText(b[..n]) + UpperCase(b[n])) == UpperText(a) + UpperText(b[..n]) + UpperCase(b[n]);
    }
  }

  lemma {:induction false} LettersConcat(a: Str, b: Str)
    ensures LettersOf(a + b) == LettersOf(a) + LettersOf(b)
  {
    hide ValueOfLetter;
    if b == [] {
      assert a + b == a && LettersOf(a) + [] == LettersOf(a);
    } else {
      var n := |b| - 1;
      assert (a + b)[..|a + b| - 1] == a + b[..n];
      LettersConcat(a, b[..n]);
    }
  }

  lemma SignificantConcat(a: Str, b: Str)
    ensures Significant(a + b) == Significant(a) + Significant(b)
  {
    hide UpperText, LettersOf;
    UpperConcat(a, b);
    LettersConcat(UpperText(a), UpperText(b));
  }

  lemma UpperOne(u: CodeUnit)
    ensures UpperText([u]) == UpperCase(u)
  {
    hide UpperCase;
    assert [u][..0] == [];
    assert [] + UpperCase(u) == UpperCase(u);
  }

  lemma LetterIsSignificant(v: nat)
    requires v < 32
    ensures Significant([Letter(v)]) == [Letter(v)]
  {
    hide UpperText;
    var u := Letter(v);
    UpperOne(u);
    assert UpperCase(u) == [u] && [u][..0] == [] && LettersOf([]) == [];
    assert ValueOfLetter(u).Some? && [] + [u] == [u];
  }

  /** The encoding itself is such a text. */
  lemma {:induction false} LettersAreSignificant(bits: seq<Bit>)
    requires |bits| % 5 == 0
    ensures Significant(Letters(bits)) == Letters(bits)
  {
    hide UpperText, LettersOf, NumberOf;
    if bits == [] {
      NothingIsSignificant();
    } else {
      BitsOfNumber(bits[..5]);
      Powers();
      LettersAreSignificant(bits[5..]);
      SignificantConcat([Letter(NumberOf(bits[..5]))], Letters(bits[5..]));
      LetterIsSignificant(NumberOf(bits[..5]));
    }
  }

  lemma NothingIsSignificant()
    ensures Significant([]) == []
  {
  }

  /** The upper case of a unit has no further upper case. */
  lemma UpperTwice(u: CodeUnit)
    ensures UpperText(UpperCase(u)) == UpperCase(u)
  {
    hide UpperText;
    var r := UpperCase(u);
    forall i | 0 <= i < |r|
      ensures UpperCase(r[i]) == [r[i]]
    {
    }
    UpperFixed(r);
  }

  lemma {:induction false} UpperFixed(s: Str)
    requires forall i :: 0 <= i < |s| ==> UpperCase(s[i]) == [s[i]]
    ensures UpperText(s) == s
  {
    hide UpperCase;
    if s != [] {
      UpperFixed(s[..|s| - 1]);
    }
  }

  /** Case changes nothing, and neither does a character whose upper case has no letter of
  the alphabet, such as a space, a hyphen or an equals sign. */
  lemma NoiseIsIgnored(a: Str, u: CodeUnit, b: Str)
    ensures LettersOf(UpperCase(u)) == [] ==> Significant(a + [u] + b) == Significant(a + b)
    ensures Significant(a + [u] + b) == Significant(a + UpperCase(u) + b)
    ensures Separator(u) ==> LettersOf(UpperCase(u)) == []
  {
    hide UpperText, LettersOf, UpperCase;
    SignificantConcat(a + [u], b);
    SignificantConcat(a, [u]);
    SignificantConcat(a + UpperCase(u), b);
    SignificantConcat(a, UpperCase(u));
    SignificantConcat(a, b);
    UpperOne(u);
    UpperTwice(u);
    assert Significant(a) + [] == Significant(a);
    if Separator(u) {
      SeparatorHasNoLetter(u);
    }
  }

  lemma SeparatorHasNoLetter(u: CodeUnit)
    requires Separator(u)
    ensures LettersOf(UpperCase(u)) == []
  {
    assert UpperCase(u) == [u] && [u][..0] == [];
  }

  /** Not only ASCII counts: two long s decode to the byte of two letters S. */
  lemma LongSCounts()
    ensures Significant([0x17F, 0x17F]) == [0x53, 0x53]
    ensures Decoded([0x17F, 0x17F]) == [0x94]
  {
    hide SecretBits, BytesOf, BitsOf, NumberOf;
    var two := [0x17F, 0x17F];
    UpperConcat([0x17F], [0x17F]);
    UpperOne(0x17F);
    assert two == [0x17F] + [0x17F] && UpperText(two) == [0x53, 0x53];
    assert [0x53, 0x53][..1] == [0x53] && [0x53][..0] == [];
    SBits();
  }

  lemma SBits()
    ensures BytesOf(SecretBits([0x53, 0x53])) == [0x94]
  {
    hide NumberOf, BitsOf, LetterBits;
    assert [0x53, 0x53][..1] == [0x53] && [0x53][..0] == [];
    BitsOfS();
    var s, byte: seq<Bit> := [1, 0, 0, 1, 0], [1, 0, 0, 1, 0, 1, 0, 0];
    assert [] + s == s && SecretBits([0x53]) == s;
    assert s + s == byte + [1, 0];
    assert (byte + [1, 0])[..8] == byte;
    ByteOfSS();
  }

  lemma BitsOfS()
    ensures LetterBits(0x53) == [1, 0, 0, 1, 0]
  {
    assert BitsOf(1, 1) == [1] && BitsOf(2, 2) == [1, 0] && BitsOf(4, 3) == [1, 0, 0] && BitsOf(9, 4) == [1, 0, 0, 1];
  }

  lemma ByteOfSS()
    ensures NumberOf([1, 0, 0, 1, 0, 1, 0, 0]) == 0x94
  {
    assert [1][..0] == [] && [1, 0][..1] == [1] && [1, 0, 0][..2] == [1, 0] && [1, 0, 0, 1][..3] == [1, 0, 0];
    assert NumberOf([1, 0, 0]) == 4;
    assert [1, 0, 0, 1, 0][..4] == [1, 0, 0, 1] && [1, 0, 0, 1, 0, 1][..5] == [1, 0, 0, 1, 0];
    assert NumberOf([1, 0, 0, 1, 0]) == 18;
    assert [1, 0, 0, 1, 0, 1, 0][..6] == [1, 0, 0, 1, 0, 1] && [1, 0, 0, 1, 0, 1, 0, 0][..7] == [1, 0, 0, 1, 0, 1, 0];
  }

  // ----- the code -----

  type Hash = h: seq<Byte> | |h| == 20 witness seq(20, _ => 0)

  /** Big-endian, in n bytes. */
  function BigEndian(v: nat, n: nat): (r: seq<Byte>)
    ensures |r| == n
  {
    if n == 0 then [] else BigEndian(v / 256, n - 1) + [v % 256]
  }

  function ValueOfBytes(bytes: seq<Byte>): nat {
    if bytes == [] then 0 else 256 * ValueOfBytes(bytes[..|bytes| - 1]) + bytes[|bytes| - 1]
  }

  function Power256(n: nat): nat { if n == 0 then 1 else 256 * Power256(n - 1) }

  lemma {:induction false} BigEndianRoundTrip(v: nat, n: nat)
    requires v < Power256(n)
    ensures ValueOfBytes(BigEndian(v, n)) == v
  {
    if n > 0 {
      BigEndianRoundTrip(v / 256, n - 1);
      assert BigEndian(v, n)[..n - 1] == BigEndian(v / 256, n - 1);
    }
  }

  /** The dynamic truncation: the four bytes at the offset that the last byte's low half
  names, without the sign bit. */
  function Truncated(h: Hash): (r: nat)
    ensures r < 0x8000_0000
  {
    var offset := h[19] % 16;
    var a: int, b: int, c: int, d: int := h[offset] % 128, h[offset + 1], h[offset + 2], h[offset + 3];
    a * 0x100_0000 + b * 0x1_0000 + c * 0x100 + d
  }

  /** As the RFC puts it: the last 31 bits of the four bytes at the offset, read big-endian. */
  lemma TruncatedIsLast31Bits(h: Hash)
    ensures var offset := h[19] % 16; Truncated(h) == ValueOfBytes(h[offset..offset + 4]) % 0x8000_0000
  {
    var offset := h[19] % 16;
    var p := h[offset..offset + 4];
    assert p[..3][..2] == p[..2] && p[..2][..1] == p[..1] && p[..1][..0] == [];
    var a: int, b: int, c: int, d: int := p[0], p[1], p[2], p[3];
    assert ValueOfBytes(p[..1]) == a;
    assert ValueOfBytes(p[..2]) == 256 * a + b;
    assert ValueOfBytes(p[..3]) == 256 * (256 * a + b) + c;
    assert ValueOfBytes(p) == a * 0x100_0000 + b * 0x1_0000 + c * 0x100 + d;
    assert a == 128 * (a / 128) + a % 128;
  }

  /** `toString().padStart(6, '0')`. */
  function Padded(n: nat, width: nat): (s: Str)
    ensures |s| >= width
    ensures forall i :: 0 <= i < |s| ==> 0x30 <= s[i] < 0x3A
    decreases width
  {
    var digits := Digits(n);
    if |digits| >= width then digits else seq(width - |digits|, _ => 0x30) + digits
  }

  lemma {:induction false} LeadingZeros(k: nat, s: Str)
    requires forall i :: 0 <= i < |s| ==> 0x30 <= s[i] < 0x3A
    ensures ValueOf(seq(k, _ => 0x30) + s) == ValueOf(s)
    decreases |s|, k
  {
    var zeros: Str := seq(k, _ => 0x30);
    if s != [] {
      assert (zeros + s)[..|zeros + s| - 1] == zeros + s[..|s| - 1];
      LeadingZeros(k, s[..|s| - 1]);
    } else if k > 0 {
      var fewer: Str := seq(k - 1, _ => 0x30);
      assert (zeros + s)[..k - 1] == fewer + [];
      LeadingZeros(k - 1, []);
    } else {
      assert zeros + s == s;
    }
  }

  lemma Million()
    ensures Power10(6) == 1_000_000
  {
    assert Power10(3) == 1_000;
  }

  /** The code has exactly six digits, and they are the truncated hash modulo a million. */
  lemma CodeIsSixDigits(h: Hash)
    ensures var code := Padded(Truncated(h) % 1_000_000, 6);
            |code| == 6 && ValueOf(code) == Truncated(h) % 1_000_000
  {
    var n := Truncated(h) % 1_000_000;
    Million();
    WidthBelowPower(n, 6);
    DigitsRoundTrip(n);
    LeadingZeros(6 - |Digits(n)|, Digits(n));
  }

  // ----- the window -----

  datatype Code = Code(code: Str, remainingSeconds: int)

  function Counter(seconds: nat, step: nat): nat
    requires step > 0
  {
    seconds / step
  }

  function Remaining(seconds: nat, step: nat): nat
    requires step > 0
  {
    step - seconds % step
  }

  /** The counter stays the same for exactly the reported number of seconds. */
  lemma CounterWindow(seconds: nat, step: nat, later: nat)
    requires step > 0
    ensures 0 < Remaining(seconds, step) <= step
    ensures Counter(seconds + later, step) == Counter(seconds, step) <==> later < Remaining(seconds, step)
  {
    var c, m := seconds / step, seconds % step;
    assert seconds == step * c + m;
    if later < step - m {
      Quotient(seconds + later, step, c);
    } else {
      var d := (seconds + later) / step;
      if d == c {
        Quotient(seconds + later, step, d);
      }
    }
  }

  lemma Quotient(n: nat, step: nat, q: nat)
    requires step > 0
    ensures n / step == q <==> step * q <= n < step * q + step
  {
    var d, m := n / step, n % step;
    assert n == step * d + m && 0 <= m < step;
    if d < q {
      Multiples(step, d, q);
    } else if q < d {
      Multiples(step, q, d);
    }
  }

  lemma {:induction false} Multiples(step: nat, a: nat, b: nat)
    requires a < b && step > 0
    ensures step * a + step <= step * b
    decreases b
  {
    assert step * b == step * (b - 1) + step;
    if a < b - 1 {
      Multiples(step, a, b - 1);
    }
  }

  /** A step of zero has no counter and a negative one a negative counter, except at second
  zero; then the 64-bit write fails, and the source answers every failure with a fixed code. */
  predicate Fails(seconds: nat, step: int) { step == 0 || (step < 0 && seconds > 0) }

  function StepCounter(seconds: nat, step: int): nat
    requires !Fails(seconds, step)
  {
    if step > 0 then Counter(seconds, step) else 0
  }

  function StepRemaining(seconds: nat, step: int): int
    requires !Fails(seconds, step)
  {
    if step > 0 then Remaining(seconds, step) else step
  }

  method GenerateTotp(secret: Str, milliseconds: nat, step: int, hmac: (seq<nat>, seq<Byte>) -> Hash) returns (r: Code)
    ensures secret == [] ==> r == Code(Json.Ascii("000000"), 30)
    ensures secret != [] && Fails(milliseconds / 1000, step) ==> r == Code(Json.Ascii("ERR2FA"), 0)
    ensures secret != [] && !Fails(milliseconds / 1000, step) ==>
              var seconds := milliseconds / 1000;
              && r.remainingSeconds == StepRemaining(seconds, step)
              && r.code == Padded(Truncated(hmac(Decoded(secret), BigEndian(StepCounter(seconds, step), 8))) % 1_000_000, 6)
  {
    if secret == [] {
      return Code(Json.Ascii("000000"), 30);
    }
    var seconds := milliseconds / 1000;
    if Fails(seconds, step) {
      return Code(Json.Ascii("ERR2FA"), 0);
    }
    var key := Base32ToBuffer(secret);
    var hash := hmac(key, BigEndian(StepCounter(seconds, step), 8));
    r := Code(Padded(Truncated(hash) % 1_000_000, 6), StepRemaining(seconds, step));
  }
}
