/** JSON texts: `JSON.stringify`, the key-sorting `stableJson` used for request
fingerprints (src/browser/workflow.ts), and a parser that inverts both.

A finite number is represented by the numeral that `Number::toString` prints for
it; printing doubles is not part of this model. */
module Json {
  import opened Common
  import opened Text

  datatype Value =
    | Undefined
    | Null
    | Bool(b: bool)
    | NonFinite                      // NaN or an infinity
    | Number(numeral: Str)
    | String(s: Str)
    | Array(items: seq<Value>)
    | Object(members: seq<(Str, Value)>)  // own enumerable keys, in insertion order

  /** The code units of an ASCII literal of this model. */
  function Ascii(s: string): (r: Str)
    ensures |r| == |s|
  {
    seq(|s|, i requires 0 <= i < |s| => if s[i] < 128 as char then s[i] as int else REPLACEMENT)
  }

  const QUOTE: CodeUnit := 0x22
  const BACKSLASH: CodeUnit := 0x5C
  const COMMA: CodeUnit := 0x2C
  const COLON: CodeUnit := 0x3A
  const OPEN_BRACKET: CodeUnit := 0x5B
  const CLOSE_BRACKET: CodeUnit := 0x5D
  const OPEN_BRACE: CodeUnit := 0x7B
  const CLOSE_BRACE: CodeUnit := 0x7D
  const NULL_TEXT: Str := [0x6E, 0x75, 0x6C, 0x6C]
  const TRUE_TEXT: Str := [0x74, 0x72, 0x75, 0x65]
  const FALSE_TEXT: Str := [0x66, 0x61, 0x6C, 0x73, 0x65]

  predicate NumeralUnit(u: CodeUnit) {
    0x30 <= u < 0x3A || u == 0x2B || u == 0x2D || u == 0x2E || u == 0x45 || u == 0x65
  }

  /** Digits, sign, point and exponent only, starting with a digit or a minus. */
  predicate IsNumeral(s: Str) {
    && s != []
    && (0x30 <= s[0] < 0x3A || s[0] == 0x2D)
    && forall i :: 0 <= i < |s| ==> NumeralUnit(s[i])
  }

  predicate DistinctKeys<T>(ms: seq<(Str, T)>) {
    forall i, j :: 0 <= i < j < |ms| ==> ms[i].0 != ms[j].0
  }

  /** What a JavaScript value always satisfies: real numerals, one entry a key. */
  predicate WellFormedValue(v: Value) {
    match v
    case Number(n) => IsNumeral(n)
    case Array(items) => forall i :: 0 <= i < |items| ==> WellFormedValue(items[i])
    case Object(ms) => DistinctKeys(ms) && forall i :: 0 <= i < |ms| ==> WellFormedValue(ms[i].1)
    case _ => true
  }

  lemma Regroup(a: Str, b: Str, c: Str)
    ensures (a + b) + c == a + (b + c)
  {
  }

  lemma Enclose(open: CodeUnit, body: Str, close: CodeUnit, rest: Str)
    ensures ([open] + body + [close]) + rest == [open] + (body + ([close] + rest))
  {
  }

  // ----- strings -----

  function Hex(d: int): CodeUnit
    requires 0 <= d < 16
  {
    if d < 10 then 0x30 + d else 0x61 + d - 10
  }

  function Unhex(u: CodeUnit): (d: int)
    ensures -1 <= d < 16
  {
    if 0x30 <= u < 0x3A then u as int - 0x30
    else if 0x61 <= u < 0x67 then u as int - 0x61 + 10
    else if 0x41 <= u < 0x47 then u as int - 0x41 + 10
    else -1
  }

  function EscapeUnit(u: CodeUnit): (e: Str)
    ensures e != []
  {
    if u == QUOTE then [BACKSLASH, QUOTE]
    else if u == BACKSLASH then [BACKSLASH, BACKSLASH]
    else if u == 0x08 then [BACKSLASH, 0x62]
    else if u == 0x09 then [BACKSLASH, 0x74]
    else if u == 0x0A then [BACKSLASH, 0x6E]
    else if u == 0x0C then [BACKSLASH, 0x66]
    else if u == 0x0D then [BACKSLASH, 0x72]
    else if u < 0x20 || High(u) || Low(u) then
      [BACKSLASH, 0x75, Hex(u / 0x1000), Hex(u / 0x100 % 16), Hex(u / 16 % 16), Hex(u % 16)]
    else [u]
  }

  function Escape(s: Str): Str {
    if s == [] then []
    else if PairFirst(s) then s[..2] + Escape(s[2..])
    else EscapeUnit(s[0]) + Escape(s[1..])
  }

  function Quote(s: Str): Str {
    [QUOTE] + Escape(s) + [QUOTE]
  }

  /** The unit that a one-letter escape stands for. */
  function Unescape(letter: CodeUnit): Option<CodeUnit> {
    if letter == QUOTE || letter == BACKSLASH || letter == 0x2F then Some(letter)
    else if letter == 0x62 then Some(0x08)
    else if letter == 0x74 then Some(0x09)
    else if letter == 0x6E then Some(0x0A)
    else if letter == 0x66 then Some(0x0C)
    else if letter == 0x72 then Some(0x0D)
    else None
  }

  /** One character or escape: the unit it denotes and its length. */
  function ReadUnit(t: Str): (r: Option<(CodeUnit, nat)>)
    ensures r.Some? ==> 0 < r.value.1 <= |t|
  {
    if t == [] || t[0] == QUOTE || t[0] < 0x20 then None
    else if t[0] != BACKSLASH then Some((t[0], 1))
    else if |t| > 5 && t[1] == 0x75 then
      var a, b, c, d := Unhex(t[2]), Unhex(t[3]), Unhex(t[4]), Unhex(t[5]);
      if a < 0 || b < 0 || c < 0 || d < 0 then None
      else Some((a * 0x1000 + b * 0x100 + c * 16 + d, 6))
    else if |t| > 1 && Unescape(t[1]).Some? then Some((Unescape(t[1]).value, 2))
    else None
  }

  /** Reads up to the closing quote. */
  function ReadString(t: Str): (r: Option<(Str, Str)>)
    ensures r.Some? ==> |r.value.1| < |t|
    decreases |t|
  {
    if t != [] && t[0] == QUOTE then Some(([], t[1..]))
    else
      match ReadUnit(t)
      case None => None
      case Some((u, n)) =>
        match ReadString(t[n..])
        case None => None
        case Some((s, rest)) => Some(([u] + s, rest))
  }

  lemma UnhexHex(d: int)
    requires 0 <= d < 16
    ensures Unhex(Hex(d)) == d && Hex(d) != QUOTE
  {
  }

  lemma HexDigits(u: CodeUnit)
    ensures u / 0x1000 < 16
    ensures u / 0x1000 * 0x1000 + u / 0x100 % 16 * 0x100 + u / 16 % 16 * 16 + u % 16 == u
  {
    assert u / 0x100 / 16 == u / 0x1000 && u / 16 / 16 == u / 0x100;
  }

  lemma ReadEscaped(u: CodeUnit, rest: Str)
    ensures ReadUnit(EscapeUnit(u) + rest) == Some((u, |EscapeUnit(u)|))
    ensures EscapeUnit(u)[0] != QUOTE
  {
    var e := EscapeUnit(u);
    var t := e + rest;
    assert forall i :: 0 <= i < |e| ==> t[i] == e[i];
    if |e| == 6 {
      HexDigits(u);
      UnhexHex(u / 0x1000);
      UnhexHex(u / 0x100 % 16);
      UnhexHex(u / 16 % 16);
      UnhexHex(u % 16);
    }
  }

  lemma ReadOne(u: CodeUnit, e: Str, rest: Str)
    requires e != [] && ReadUnit(e + rest) == Some((u, |e|))
    requires e[0] != QUOTE
    requires ReadString(rest).Some?
    ensures ReadString(e + rest) == Some(([u] + ReadString(rest).value.0, ReadString(rest).value.1))
  {
    assert (e + rest)[|e|..] == rest;
  }

  lemma ReadRaw(u: CodeUnit, rest: Str)
    requires High(u) || Low(u)
    requires ReadString(rest).Some?
    ensures ReadString([u] + rest) == Some(([u] + ReadString(rest).value.0, ReadString(rest).value.1))
  {
    ReadOne(u, [u], rest);
  }

  /** Reading a quoted string gives the string back, whatever follows it. */
  lemma {:induction false} ReadEscape(s: Str, rest: Str)
    ensures ReadString(Escape(s) + ([QUOTE] + rest)) == Some((s, rest))
  {
    var after := [QUOTE] + rest;
    if s == [] {
      assert Escape(s) + after == after;
    } else if PairFirst(s) {
      ReadEscape(s[2..], rest);
      ReadEscapePair(s, after);
    } else {
      ReadEscape(s[1..], rest);
      ReadEscapeSingle(s, after);
    }
  }

  lemma ReadEscapeSingle(s: Str, after: Str)
    requires s != [] && !PairFirst(s)
    requires ReadString(Escape(s[1..]) + after).Some?
    requires ReadString(Escape(s[1..]) + after).value.0 == s[1..]
    ensures ReadString(Escape(s) + after) == Some((s, ReadString(Escape(s[1..]) + after).value.1))
  {
    var e, tail := EscapeUnit(s[0]), Escape(s[1..]) + after;
    ReadEscaped(s[0], tail);
    ReadOne(s[0], e, tail);
    Regroup(e, Escape(s[1..]), after);
    assert s == [s[0]] + s[1..];
  }

  lemma ReadEscapePair(s: Str, after: Str)
    requires PairFirst(s)
    requires ReadString(Escape(s[2..]) + after).Some?
    requires ReadString(Escape(s[2..]) + after).value.0 == s[2..]
    ensures ReadString(Escape(s) + after) == Some((s, ReadString(Escape(s[2..]) + after).value.1))
  {
    hide EscapeUnit, ReadUnit, ReadString;
    var tail := Escape(s[2..]) + after;
    ReadRaw(s[1], tail);
    ReadRaw(s[0], [s[1]] + tail);
    Regroup(s[..2], Escape(s[2..]), after);
    assert s[..2] == [s[0]] + [s[1]];
    Regroup([s[0]], [s[1]], tail);
    assert s == [s[0]] + ([s[1]] + s[2..]);
  }

  // ----- printing -----

  /** A value that prints without loss: no `undefined` and no non-finite number inside. */
  predicate Printable(v: Value) {
    match v
    case Undefined => false
    case NonFinite => false
    case Number(n) => IsNumeral(n)
    case Array(items) => forall i :: 0 <= i < |items| ==> Printable(items[i])
    case Object(ms) => forall i :: 0 <= i < |ms| ==> Printable(ms[i].1)
    case _ => true
  }

  /** Prints the members in the order given. */
  function Print(v: Value): (t: Str)
    decreases v, 1
  {
    match v
    case Undefined => NULL_TEXT
    case Null => NULL_TEXT
    case NonFinite => NULL_TEXT
    case Bool(b) => if b then TRUE_TEXT else FALSE_TEXT
    case Number(n) => n
    case String(s) => Quote(s)
    case Array(items) => [OPEN_BRACKET] + PrintItems(items) + [CLOSE_BRACKET]
    case Object(ms) => [OPEN_BRACE] + PrintMembers(ms) + [CLOSE_BRACE]
  }

  function PrintItems(items: seq<Value>): Str
    decreases items, 0
  {
    if items == [] then []
    else if |items| == 1 then Print(items[0])
    else Print(items[0]) + [COMMA] + PrintItems(items[1..])
  }

  function PrintMembers(ms: seq<(Str, Value)>): Str
    decreases ms, 0
  {
    if ms == [] then []
    else
      assert ms[0].1 < ms[0];
      var first := Quote(ms[0].0) + ([COLON] + Print(ms[0].1));
      if |ms| == 1 then first else first + [COMMA] + PrintMembers(ms[1..])
  }

  // ----- parsing (sections 2 to 7 of RFC 8259, without insignificant whitespace) -----

  /** The length of the numeral at the front of t. */
  function NumeralLength(t: Str): (n: nat)
    ensures n <= |t|
    ensures forall i :: 0 <= i < n ==> NumeralUnit(t[i])
    ensures n < |t| ==> !NumeralUnit(t[n])
  {
    if t == [] || !NumeralUnit(t[0]) then 0 else 1 + NumeralLength(t[1..])
  }

  predicate StartsWith(t: Str, prefix: Str) { prefix <= t }

  predicate FirstIs(t: Str, u: CodeUnit) { t != [] && t[0] == u }

  function ParseValue(t: Str): (r: Option<(Value, Str)>)
    ensures r.Some? ==> |r.value.1| < |t|
    decreases |t|, 1
  {
    if t == [] then None
    else if StartsWith(t, NULL_TEXT) then Some((Null, t[4..]))
    else if StartsWith(t, TRUE_TEXT) then Some((Bool(true), t[4..]))
    else if StartsWith(t, FALSE_TEXT) then Some((Bool(false), t[5..]))
    else if t[0] == QUOTE then
      match ReadString(t[1..])
      case None => None
      case Some((s, rest)) => Some((String(s), rest))
    else if t[0] == OPEN_BRACKET then
      if FirstIs(t[1..], CLOSE_BRACKET) then Some((Array([]), t[2..]))
      else
        match ParseItems(t[1..])
        case None => None
        case Some((items, rest)) => Some((Array(items), rest))
    else if t[0] == OPEN_BRACE then
      if FirstIs(t[1..], CLOSE_BRACE) then Some((Object([]), t[2..]))
      else
        match ParseMembers(t[1..])
        case None => None
        case Some((ms, rest)) => Some((Object(ms), rest))
    else
      var n := NumeralLength(t);
      if n > 0 && IsNumeral(t[..n]) then Some((Number(t[..n]), t[n..])) else None
  }

  /** Items up to and including the closing bracket. */
  function ParseItems(t: Str): (r: Option<(seq<Value>, Str)>)
    ensures r.Some? ==> |r.value.1| < |t|
    decreases |t|, 2
  {
    match ParseValue(t)
    case None => None
    case Some((v, rest)) =>
      if FirstIs(rest, CLOSE_BRACKET) then Some(([v], rest[1..]))
      else if FirstIs(rest, COMMA) then
        match ParseItems(rest[1..])
        case None => None
        case Some((vs, after)) => Some(([v] + vs, after))
      else None
  }

  /** Members up to and including the closing brace. */
  function ParseMembers(t: Str): (r: Option<(seq<(Str, Value)>, Str)>)
    ensures r.Some? ==> |r.value.1| < |t|
    decreases |t|, 2
  {
    if !FirstIs(t, QUOTE) then None
    else
      match ReadString(t[1..])
      case None => None
      case Some((key, afterKey)) =>
        if !FirstIs(afterKey, COLON) then None
        else
          match ParseValue(afterKey[1..])
          case None => None
          case Some((v, rest)) =>
            if FirstIs(rest, CLOSE_BRACE) then Some(([(key, v)], rest[1..]))
            else if FirstIs(rest, COMMA) then
              match ParseMembers(rest[1..])
              case None => None
              case Some((ms, after)) => Some(([(key, v)] + ms, after))
            else None
  }

  /** Nothing that would extend a numeral. */
  predicate Ends(rest: Str) { rest == [] || !NumeralUnit(rest[0]) }

  lemma {:induction false} NumeralLengthExact(n: Str, rest: Str)
    requires forall i :: 0 <= i < |n| ==> NumeralUnit(n[i])
    requires Ends(rest)
    ensures NumeralLength(n + rest) == |n|
  {
    if n == [] {
      assert n + rest == rest;
    } else {
      assert (n + rest)[1..] == n[1..] + rest;
      NumeralLengthExact(n[1..], rest);
    }
  }

  lemma ParseNumeral(n: Str, rest: Str)
    requires IsNumeral(n) && Ends(rest)
    ensures ParseValue(n + rest) == Some((Number(n), rest))
  {
    NumeralLengthExact(n, rest);
    assert (n + rest)[..|n|] == n && (n + rest)[|n|..] == rest;
    assert (n + rest)[0] == n[0];
  }

  lemma ParseQuoted(s: Str, rest: Str)
    ensures ReadString((Quote(s) + rest)[1..]) == Some((s, rest))
    ensures ParseValue(Quote(s) + rest) == Some((String(s), rest))
  {
    ReadEscape(s, rest);
    assert (Quote(s) + rest)[1..] == Escape(s) + ([QUOTE] + rest);
    assert (Quote(s) + rest)[0] == QUOTE;
  }

  lemma PrintStart(v: Value)
    requires Printable(v)
    ensures Print(v) != [] && Print(v)[0] != CLOSE_BRACKET
  {
  }

  /** Parsing a printed value gives the value back, whatever follows it. */
  lemma {:induction false} ParsePrint(v: Value, rest: Str)
    requires Printable(v) && Ends(rest)
    ensures ParseValue(Print(v) + rest) == Some((v, rest))
    decreases v, 1
  {
    match v
    case Null => ParseConstant(NULL_TEXT, rest);
    case Bool(b) => ParseConstant(if b then TRUE_TEXT else FALSE_TEXT, rest);
    case Number(n) => ParseNumeral(n, rest);
    case String(s) => ParseQuoted(s, rest);
    case Array(items) =>
      var body := PrintItems(items) + ([CLOSE_BRACKET] + rest);
      Enclose(OPEN_BRACKET, PrintItems(items), CLOSE_BRACKET, rest);
      if items == [] {
        assert body == [CLOSE_BRACKET] + rest;
        ParseEmpty(OPEN_BRACKET, CLOSE_BRACKET, rest);
      } else {
        ItemsStart(items);
        ParsePrintItems(items, rest);
        ParseArrayBody(body, items, rest);
      }
    case Object(ms) =>
      var body := PrintMembers(ms) + ([CLOSE_BRACE] + rest);
      Enclose(OPEN_BRACE, PrintMembers(ms), CLOSE_BRACE, rest);
      if ms == [] {
        assert body == [CLOSE_BRACE] + rest;
        ParseEmpty(OPEN_BRACE, CLOSE_BRACE, rest);
      } else {
        ParsePrintMembers(ms, rest);
        ParseObjectBody(body, ms, rest);
      }
  }

  lemma ParseConstant(text: Str, rest: Str)
    requires text in {NULL_TEXT, TRUE_TEXT, FALSE_TEXT}
    ensures ParseValue(text + rest) ==
      Some((if text == NULL_TEXT then Null else Bool(text == TRUE_TEXT), rest))
  {
    assert (text + rest)[|text|..] == rest;
    assert (text + rest)[0] == text[0];
  }

  lemma ParseEmpty(open: CodeUnit, close: CodeUnit, rest: Str)
    requires (open == OPEN_BRACKET && close == CLOSE_BRACKET) || (open == OPEN_BRACE && close == CLOSE_BRACE)
    ensures ParseValue([open] + ([close] + rest))
         == Some((if open == OPEN_BRACKET then Array([]) else Object([]), rest))
  {
    var t := [open] + ([close] + rest);
    assert t[2..] == rest;
    assert t[1..] == [close] + rest;
  }

  lemma ParseArrayBody(body: Str, items: seq<Value>, rest: Str)
    requires body != [] && body[0] != CLOSE_BRACKET
    requires ParseItems(body) == Some((items, rest))
    ensures ParseValue([OPEN_BRACKET] + body) == Some((Array(items), rest))
  {
    hide ReadString;
    assert ([OPEN_BRACKET] + body)[1..] == body;
  }

  lemma ParseObjectBody(body: Str, ms: seq<(Str, Value)>, rest: Str)
    requires ParseMembers(body) == Some((ms, rest))
    ensures ParseValue([OPEN_BRACE] + body) == Some((Object(ms), rest))
  {
    hide ReadString;
    assert ([OPEN_BRACE] + body)[1..] == body;
  }

  lemma ItemsStart(items: seq<Value>)
    requires items != [] && Printable(items[0])
    ensures PrintItems(items) != [] && PrintItems(items)[0] != CLOSE_BRACKET
  {
    PrintStart(items[0]);
  }

  lemma {:induction false} ParsePrintItems(items: seq<Value>, rest: Str)
    requires items != [] && (forall i :: 0 <= i < |items| ==> Printable(items[i]))
    ensures ParseItems(PrintItems(items) + ([CLOSE_BRACKET] + rest)) == Some((items, rest))
    decreases items, 0
  {
    var close := [CLOSE_BRACKET] + rest;
    if |items| == 1 {
      ParsePrint(items[0], close);
      assert items == [items[0]];
    } else {
      var more := [COMMA] + (PrintItems(items[1..]) + close);
      Regroup(Print(items[0]) + [COMMA], PrintItems(items[1..]), close);
      Regroup(Print(items[0]), [COMMA], PrintItems(items[1..]) + close);
      ParsePrint(items[0], more);
      assert more[1..] == PrintItems(items[1..]) + close;
      ParsePrintItems(items[1..], rest);
      assert items == [items[0]] + items[1..];
    }
  }

  /** One member and what follows it: the last member, or one followed by more. */
  lemma ParseMember(key: Str, v: Value, rest: Str)
    requires ParseValue(Print(v) + rest) == Some((v, rest))
    requires rest != [] && (rest[0] == CLOSE_BRACE || rest[0] == COMMA)
    ensures var t := Quote(key) + ([COLON] + (Print(v) + rest));
            ParseMembers(t) ==
              if rest[0] == CLOSE_BRACE then Some(([(key, v)], rest[1..]))
              else
                match ParseMembers(rest[1..])
                case None => None
                case Some((ms, after)) => Some(([(key, v)] + ms, after))
  {
    var afterKey := [COLON] + (Print(v) + rest);
    ParseQuoted(key, afterKey);
    assert afterKey[1..] == Print(v) + rest;
  }

  lemma AssociateMember(key: Str, text: Str, rest: Str)
    ensures Quote(key) + ([COLON] + text) + rest == Quote(key) + ([COLON] + (text + rest))
  {
  }

  lemma {:induction false} ParsePrintMembers(ms: seq<(Str, Value)>, rest: Str)
    requires ms != [] && (forall i :: 0 <= i < |ms| ==> Printable(ms[i].1))
    ensures ParseMembers(PrintMembers(ms) + ([CLOSE_BRACE] + rest)) == Some((ms, rest))
    decreases ms, 0
  {
    hide Quote, Print, ParseValue, ReadString;
    var close := [CLOSE_BRACE] + rest;
    var (key, v) := ms[0];
    assert v < ms[0];
    var first := Quote(key) + ([COLON] + Print(v));
    if |ms| == 1 {
      ParsePrint(v, close);
      ParseMember(key, v, close);
      AssociateMember(key, Print(v), close);
      assert ms == [(key, v)];
    } else {
      var more := [COMMA] + (PrintMembers(ms[1..]) + close);
      ParsePrintMembers(ms[1..], rest);
      assert more[1..] == PrintMembers(ms[1..]) + close;
      ParsePrint(v, more);
      ParseMember(key, v, more);
      AssociateMember(key, Print(v), more);
      Regroup(first + [COMMA], PrintMembers(ms[1..]), close);
      Regroup(first, [COMMA], PrintMembers(ms[1..]) + close);
      assert ms == [(key, v)] + ms[1..];
    }
  }

  // ----- JSON.stringify -----

  /** What `JSON.stringify` keeps of a value: `undefined` members are dropped, other
  values that have no JSON text become null. */
  function Prune(v: Value): Value
    decreases v, 1
  {
    match v
    case Undefined => Null
    case NonFinite => Null
    case Array(items) => Array(PruneItems(items))
    case Object(ms) => Object(PruneMembers(ms))
    case _ => v
  }

  function PruneItems(items: seq<Value>): (r: seq<Value>)
    decreases items, 0
  {
    if items == [] then [] else [Prune(items[0])] + PruneItems(items[1..])
  }

  function PruneMembers(ms: seq<(Str, Value)>): (r: seq<(Str, Value)>)
    decreases ms, 0
  {
    if ms == [] then []
    else
      assert ms[0].1 < ms[0];
      if ms[0].1.Undefined? then PruneMembers(ms[1..])
      else [(ms[0].0, Prune(ms[0].1))] + PruneMembers(ms[1..])
  }

  function Stringify(v: Value): Str {
    Print(Prune(v))
  }

  lemma {:induction false} PruneIsPrintable(v: Value)
    requires WellFormedValue(v)
    ensures Printable(Prune(v))
    decreases v, 1
  {
    match v
    case Array(items) => PruneItemsArePrintable(items);
    case Object(ms) => PruneMembersArePrintable(ms);
    case _ =>
  }

  lemma {:induction false} PruneItemsArePrintable(items: seq<Value>)
    requires forall i :: 0 <= i < |items| ==> WellFormedValue(items[i])
    ensures forall i :: 0 <= i < |PruneItems(items)| ==> Printable(PruneItems(items)[i])
    decreases items, 0
  {
    if items != [] {
      PruneIsPrintable(items[0]);
      PruneItemsArePrintable(items[1..]);
    }
  }

  lemma {:induction false} PruneMembersArePrintable(ms: seq<(Str, Value)>)
    requires forall i :: 0 <= i < |ms| ==> WellFormedValue(ms[i].1)
    ensures forall i :: 0 <= i < |PruneMembers(ms)| ==> Printable(PruneMembers(ms)[i].1)
    decreases ms, 0
  {
    if ms != [] {
      assert ms[0].1 < ms[0];
      PruneIsPrintable(ms[0].1);
      PruneMembersArePrintable(ms[1..]);
    }
  }

  /** `JSON.parse(JSON.stringify(v))` is v without what JSON cannot hold. */
  lemma ParseStringify(v: Value)
    requires WellFormedValue(v)
    ensures ParseValue(Stringify(v)) == Some((Prune(v), []))
  {
    PruneIsPrintable(v);
    ParsePrint(Prune(v), []);
    assert Stringify(v) + [] == Stringify(v);
  }
}
