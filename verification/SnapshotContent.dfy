/** The compact text of a snapshot that a model reads, one line per target
(src/browser/semantic-snapshot.ts, addCompactSnapshotContent). */
module SnapshotContent {
  import opened Common
  import opened Text
  import opened Json
  import opened SnapshotText
  import WorkflowSteps

  const NEWLINE: CodeUnit := 0x0A
  const RETURN: CodeUnit := 0x0D

  datatype Target = Target(ref: Str, role: Str, tag: Str, name: Str, text: Option<Str>, inputType: Option<Str>,
                           required: bool, checked: Option<bool>, enabled: Option<bool>, editable: bool)

  datatype Snapshot = Snapshot(title: Option<Str>, url: Option<Str>, text: Option<Str>, targets: seq<Target>)

  /** The fields that the call adds or replaces. */
  datatype Compacted = Compacted(content: Str, contentBytes: nat, contentTruncated: bool,
                                 targets: seq<Target>, text: Option<Str>)

  // ----- what is printed -----

  function SingleLine(value: Str, maxChars: nat): Str {
    Take(Trim(Collapse(Blank(value))), maxChars)
  }

  /** The source's `a || b` on strings. */
  function Or(a: Str, b: Str): Str { if a != [] then a else b }

  function Attributes(t: Target): seq<Str> {
    var inputType := t.inputType.GetOr([]);
    (if inputType != [] then [Ascii("type=") + Quote(SingleLine(inputType, 64))] else [])
    + (if t.required then [Ascii("required")] else [])
    + (match t.checked case Some(c) => [Ascii(if c then "checked=true" else "checked=false")] case None => [])
    + (if t.enabled == Some(false) then [Ascii("disabled")] else [])
    + (if t.editable then [Ascii("editable")] else [])
  }

  function Join(parts: seq<Str>, separator: Str): Str {
    if parts == [] then []
    else if |parts| == 1 then parts[0]
    else parts[0] + separator + Join(parts[1..], separator)
  }

  function FormatTarget(t: Target): Str {
    var name := SingleLine(Or(t.name, t.text.GetOr([])), 500);
    var attributes := Attributes(t);
    SingleLine(t.ref, 100) + [SPACE] + [OPEN_BRACKET] + SingleLine(Or(Or(t.role, t.tag), Ascii("generic")), 64) + [CLOSE_BRACKET]
    + (if name != [] then [SPACE] + Quote(name) else [])
    + (if attributes != [] then [SPACE] + Join(attributes, [SPACE]) else [])
  }

  /** A text cut at every line feed, with or without a carriage return before it. */
  function SplitText(s: Str, current: Str): (r: seq<Str>)
    ensures r != []
  {
    if s == [] then [current]
    else if |s| >= 2 && s[0] == RETURN && s[1] == NEWLINE then [current] + SplitText(s[2..], [])
    else if s[0] == NEWLINE then [current] + SplitText(s[1..], [])
    else SplitText(s[1..], current + [s[0]])
  }

  function TextLines(pieces: seq<Str>): seq<Str> {
    if pieces == [] then []
    else
      var line := SingleLine(pieces[0], 10_000);
      (if line != [] then [line] else []) + TextLines(pieces[1..])
  }

  function CompactText(value: Str): Str { Join(TextLines(SplitText(value, [])), [NEWLINE]) }

  function Header(s: Snapshot): seq<Str> {
    (if s.title.GetOr([]) != [] then [Ascii("Page: ") + SingleLine(s.title.value, 500)] else [])
    + (if s.url.GetOr([]) != [] then [Ascii("URL: ") + SingleLine(s.url.value, 2_048)] else [])
  }

  function Formatted(targets: seq<Target>): (r: seq<Str>)
    ensures |r| == |targets| && forall i :: 0 <= i < |r| ==> r[i] == FormatTarget(targets[i])
  {
    seq(|targets|, i requires 0 <= i < |targets| => FormatTarget(targets[i]))
  }

  /** Header and targets, the part of the content before the page's text. */
  function Front(s: Snapshot): seq<Str> {
    Header(s) + (if Header(s) != [] && s.targets != [] then [[]] else []) + Formatted(s.targets)
  }

  function Parts(s: Snapshot): seq<Str> {
    if s.text.GetOr([]) == [] then Front(s)
    else Front(s) + (if Front(s) != [] then [[]] else []) + [Ascii("Text:"), CompactText(s.text.value)]
  }

  const SNAPSHOT_MAX_BYTES := 4 * 1024 * 1024

  function Limit(maxBytes: Option<int>): int { Max(100, Min(SNAPSHOT_MAX_BYTES, maxBytes.GetOr(16_000))) }

  function AddCompactContent(s: Snapshot, maxBytes: Option<int>, compact: bool): Compacted {
    var bounded := TruncateUtf8(Join(Parts(s), [NEWLINE]), Limit(maxBytes));
    Compacted(bounded.value, bounded.bytes, bounded.truncated, if compact then [] else s.targets, if compact then None else s.text)
  }

  // ----- lines -----

  /** The lines of a text, of code units or of characters. */
  function Split(s: seq<int>): (r: seq<seq<int>>)
    ensures r != []
  {
    if s == [] then [[]]
    else
      var rest := Split(s[1..]);
      if s[0] == NEWLINE then [[]] + rest else [[s[0]] + rest[0]] + rest[1..]
  }

  predicate OneLine(s: seq<int>) { NEWLINE !in s }

  lemma {:induction false} SplitOneLine(a: seq<int>, b: seq<int>)
    requires OneLine(a)
    ensures Split(a) == [a]
    ensures Split(a + [NEWLINE] + b) == [a] + Split(b)
  {
    var s := a + [NEWLINE] + b;
    if a == [] {
      assert s[1..] == b;
    } else {
      SplitOneLine(a[1..], b);
      assert s[1..] == a[1..] + [NEWLINE] + b;
      assert [a[0]] + a[1..] == a;
    }
  }

  lemma {:induction false} SplitJoin(lines: seq<Str>)
    requires lines != [] && forall i :: 0 <= i < |lines| ==> OneLine(lines[i])
    ensures Split(Join(lines, [NEWLINE])) == lines
  {
    if |lines| == 1 {
      SplitOneLine(lines[0], []);
    } else {
      SplitJoin(lines[1..]);
      SplitOneLine(lines[0], Join(lines[1..], [NEWLINE]));
    }
  }

  lemma {:induction false} SplitPrefix(p: seq<int>, t: seq<int>)
    requires p <= t
    ensures LinesOfPrefix(Split(p), Split(t))
  {
    if p != [] {
      SplitPrefix(p[1..], t[1..]);
    }
  }

  /** All lines but the last are the same, and the last is a prefix of its counterpart. */
  predicate LinesOfPrefix(a: seq<seq<int>>, b: seq<seq<int>>) {
    var n := |a| - 1;
    0 <= n < |b| && a[n] <= b[n] && forall i :: 0 <= i < n ==> a[i] == b[i]
  }

  // ----- every part but the page's text is one line -----

  lemma SingleLineIsTidy(value: Str, maxChars: nat)
    ensures Tidy(SingleLine(value, maxChars)) && OneLine(SingleLine(value, maxChars))
  {
    var collapsed := Collapse(Blank(value));
    CollapsedIsTidy(Blank(value));
    TrimStartOfTidy(collapsed);
    TrimEndOfTidy(TrimStart(collapsed));
  }

  lemma {:induction false} EscapedIsOneLine(s: Str)
    ensures OneLine(Escape(s))
  {
    if s != [] {
      if PairFirst(s) {
        EscapedIsOneLine(s[2..]);
      } else {
        EscapedIsOneLine(s[1..]);
      }
    }
  }

  lemma AsciiIsOneLine(s: string)
    requires '\n' !in s
    ensures OneLine(Ascii(s))
  {
  }

  lemma {:induction false} JoinIsOneLine(parts: seq<Str>, separator: Str)
    requires OneLine(separator) && forall i :: 0 <= i < |parts| ==> OneLine(parts[i])
    ensures OneLine(Join(parts, separator))
  {
    if |parts| > 1 {
      JoinIsOneLine(parts[1..], separator);
    }
  }

  lemma AttributesAreOneLine(t: Target)
    ensures forall i :: 0 <= i < |Attributes(t)| ==> OneLine(Attributes(t)[i])
  {
    hide SingleLine, Escape;
    EscapedIsOneLine(SingleLine(t.inputType.GetOr([]), 64));
    AsciiIsOneLine("type=");
    AsciiIsOneLine("required");
    AsciiIsOneLine("checked=true");
    AsciiIsOneLine("checked=false");
    AsciiIsOneLine("disabled");
    AsciiIsOneLine("editable");
  }

  lemma TargetIsOneLine(t: Target)
    ensures OneLine(FormatTarget(t))
  {
    hide SingleLine, Escape, Attributes, Join;
    SingleLineIsTidy(t.ref, 100);
    SingleLineIsTidy(Or(Or(t.role, t.tag), Ascii("generic")), 64);
    EscapedIsOneLine(SingleLine(Or(t.name, t.text.GetOr([])), 500));
    AttributesAreOneLine(t);
    JoinIsOneLine(Attributes(t), [SPACE]);
  }

  lemma {:induction false} TextLinesAreLines(pieces: seq<Str>)
    ensures forall i :: 0 <= i < |TextLines(pieces)| ==> OneLine(TextLines(pieces)[i]) && TextLines(pieces)[i] != []
  {
    if pieces != [] {
      SingleLineIsTidy(pieces[0], 10_000);
      TextLinesAreLines(pieces[1..]);
    }
  }

  lemma FrontIsLines(s: Snapshot)
    ensures forall i :: 0 <= i < |Front(s)| ==> OneLine(Front(s)[i])
  {
    hide SingleLine, FormatTarget;
    AsciiIsOneLine("Page: ");
    AsciiIsOneLine("URL: ");
    SingleLineIsTidy(s.title.GetOr([]), 500);
    SingleLineIsTidy(s.url.GetOr([]), 2_048);
    forall i | 0 <= i < |s.targets|
      ensures OneLine(FormatTarget(s.targets[i]))
    {
      TargetIsOneLine(s.targets[i]);
    }
  }

  // ----- the lines of the content -----

  /** The lines that the content is meant to have: header, one line per target, text. */
  function MeantLines(s: Snapshot): seq<Str> {
    if s.text.GetOr([]) == [] then (if Front(s) == [] then [[]] else Front(s))
    else
      var lines := TextLines(SplitText(s.text.value, []));
      Front(s) + (if Front(s) != [] then [[]] else []) + [Ascii("Text:")] + (if lines == [] then [[]] else lines)
  }

  lemma MeantLinesAreLines(s: Snapshot)
    ensures MeantLines(s) != [] && forall i :: 0 <= i < |MeantLines(s)| ==> OneLine(MeantLines(s)[i])
  {
    hide Front, TextLines, SplitText;
    FrontIsLines(s);
    AsciiIsOneLine("Text:");
    if s.text.Some? {
      TextLinesAreLines(SplitText(s.text.value, []));
    }
  }

  lemma {:induction false} JoinLast(front: seq<Str>, lines: seq<Str>, separator: Str)
    requires lines != []
    ensures Join(front + [Join(lines, separator)], separator) == Join(front + lines, separator)
  {
    if front == [] {
      assert [] + [Join(lines, separator)] == [Join(lines, separator)] && [] + lines == lines;
    } else {
      JoinLast(front[1..], lines, separator);
      assert (front + [Join(lines, separator)])[1..] == front[1..] + [Join(lines, separator)];
      assert (front + lines)[1..] == front[1..] + lines;
    }
  }

  lemma JoinedParts(s: Snapshot)
    ensures Join(Parts(s), [NEWLINE]) == Join(MeantLines(s), [NEWLINE])
  {
    hide Front, TextLines, SplitText;
    if s.text.GetOr([]) != [] {
      var lines := TextLines(SplitText(s.text.value, []));
      var front := Front(s) + (if Front(s) != [] then [[]] else []) + [Ascii("Text:")];
      assert Parts(s) == front + [Join(lines, [NEWLINE])];
      if lines != [] {
        JoinLast(front, lines, [NEWLINE]);
        assert MeantLines(s) == front + lines;
      }
    }
  }

  // ----- characters -----

  function Characters(lines: seq<Str>): (r: seq<seq<int>>)
    ensures |r| == |lines| && forall i :: 0 <= i < |r| ==> r[i] == ScalarsOf(lines[i])
  {
    seq(|lines|, i requires 0 <= i < |lines| => ScalarsOf(lines[i]))
  }

  lemma {:induction false} CharactersOfOneLine(s: Str)
    requires OneLine(s)
    ensures OneLine(ScalarsOf(s))
  {
    if s != [] {
      if PairFirst(s) {
        CharactersOfOneLine(s[2..]);
      } else {
        CharactersOfOneLine(s[1..]);
      }
    }
  }

  lemma CharactersOfLine(line: Str, rest: Str)
    ensures ScalarsOf(line + [NEWLINE] + rest) == ScalarsOf(line) + [NEWLINE] + ScalarsOf(rest)
  {
    ScalarsOfConcat([NEWLINE], rest);
    ScalarsOfConcat(line, [NEWLINE] + rest);
    assert ScalarsOf([NEWLINE]) == [NEWLINE];
    assert line + [NEWLINE] + rest == line + ([NEWLINE] + rest);
    assert ScalarsOf(line) + [NEWLINE] + ScalarsOf(rest) == ScalarsOf(line) + ([NEWLINE] + ScalarsOf(rest));
  }

  lemma {:induction false} SplitCharacters(lines: seq<Str>)
    requires lines != [] && forall i :: 0 <= i < |lines| ==> OneLine(lines[i])
    ensures Split(ScalarsOf(Join(lines, [NEWLINE]))) == Characters(lines)
  {
    hide ScalarsOf, OneLine, Split;
    CharactersOfOneLine(lines[0]);
    if |lines| == 1 {
      SplitOneLine(ScalarsOf(lines[0]), []);
    } else {
      var rest := Join(lines[1..], [NEWLINE]);
      SplitCharacters(lines[1..]);
      CharactersOfLine(lines[0], rest);
      SplitOneLine(ScalarsOf(lines[0]), ScalarsOf(rest));
    }
  }

  /** The content fits the limit and states its own size. Its lines are the meant ones, one
  for each target; when it is cut, only the last line is incomplete and the lines after it
  are missing. */
  lemma ContentIsLines(s: Snapshot, maxBytes: Option<int>, compact: bool)
    ensures var r := AddCompactContent(s, maxBytes, compact);
            && r.contentBytes == ByteLength(r.content) <= Limit(maxBytes)
            && (!r.contentTruncated ==> Split(r.content) == MeantLines(s))
            && LinesOfPrefix(Split(ScalarsOf(r.content)), Characters(MeantLines(s)))
  {
    hide Parts, MeantLines, TruncateUtf8, ByteLength, Split, ScalarsOf, LinesOfPrefix, Characters, Join, OneLine;
    var lines := MeantLines(s);
    var joined := Join(lines, [NEWLINE]);
    JoinedParts(s);
    MeantLinesAreLines(s);
    SplitJoin(lines);
    SplitCharacters(lines);
    TruncateUtf8Correct(joined, Limit(maxBytes));
    SplitPrefix(ScalarsOf(AddCompactContent(s, maxBytes, compact).content), ScalarsOf(joined));
  }

  /** Where the line of a target is. */
  lemma TargetLine(s: Snapshot, i: nat)
    requires i < |s.targets|
    ensures var k := |Header(s)| + (if Header(s) == [] then 0 else 1) + i;
            k < |MeantLines(s)| && MeantLines(s)[k] == FormatTarget(s.targets[i])
  {
    hide FormatTarget, Header, TextLines;
  }

  predicate Unspaced(s: Str) { forall i :: 0 <= i < |s| ==> !Control(s[i]) && !White(s[i]) }

  /** The line of a target is led by its ref, as far as the first space, so targets of
  different refs have different lines. */
  lemma RefLeadsLine(t: Target)
    requires Unspaced(t.ref) && |t.ref| <= 100
    ensures var line := FormatTarget(t);
            |line| > |t.ref| && line[..|t.ref|] == t.ref && line[|t.ref|] == SPACE && SPACE !in t.ref
  {
    hide Attributes, Join, Escape, Or;
    assert Blank(t.ref) == t.ref;
    assert Tidy(t.ref);
    TidyIsCollapsed(t.ref);
    assert SingleLine(t.ref, 100) == t.ref;
  }

  // ----- reading the targets back -----

  const TEXT_LINE: Str := [0x54, 0x65, 0x78, 0x74, 0x3A]
  const PAGE_START: Str := [0x50, 0x61, 0x67, 0x65, 0x3A, 0x20]
  const URL_START: Str := [0x55, 0x52, 0x4C, 0x3A, 0x20]

  lemma Literals()
    ensures Ascii("Text:") == TEXT_LINE && Ascii("Page: ") == PAGE_START && Ascii("URL: ") == URL_START
  {
  }

  /** The lines before the first one that says `Text:`. */
  function BeforeText(lines: seq<seq<int>>): seq<seq<int>> {
    if lines == [] || lines[0] == TEXT_LINE then [] else [lines[0]] + BeforeText(lines[1..])
  }

  predicate HeaderLine(line: seq<int>) { PAGE_START <= line || URL_START <= line }

  function TargetsAmong(lines: seq<seq<int>>): seq<seq<int>> {
    if lines == [] then []
    else (if lines[0] == [] || HeaderLine(lines[0]) then [] else [lines[0]]) + TargetsAmong(lines[1..])
  }

  /** The text before the first space. */
  function RefOf(line: seq<int>): seq<int> {
    if line == [] || line[0] == SPACE then [] else [line[0]] + RefOf(line[1..])
  }

  /** A ref that no space or colon divides, as every ref of the registry is. */
  predicate PlainRef(ref: Str) { 0 < |ref| <= 100 && Unspaced(ref) && COLON !in ref }

  lemma AcceptedRefIsPlain(ref: Str)
    requires WorkflowSteps.RefShape(ref)
    ensures PlainRef(ref)
  {
    forall i | 0 <= i < |ref|
      ensures !Control(ref[i]) && !White(ref[i]) && ref[i] != COLON
    {
      assert i >= 4 ==> WorkflowSteps.RefUnit(ref[i]);
    }
  }

  lemma {:induction false} BeforeTextConcat(a: seq<seq<int>>, b: seq<seq<int>>)
    requires TEXT_LINE !in a
    ensures BeforeText(a + b) == a + BeforeText(b)
  {
    if a == [] {
      assert a + b == b;
    } else {
      BeforeTextConcat(a[1..], b);
      assert (a + b)[1..] == a[1..] + b;
    }
  }

  lemma {:induction false} TargetsConcat(a: seq<seq<int>>, b: seq<seq<int>>)
    ensures TargetsAmong(a + b) == TargetsAmong(a) + TargetsAmong(b)
  {
    hide HeaderLine;
    if a == [] {
      assert a + b == b;
    } else {
      TargetsConcat(a[1..], b);
      assert (a + b)[1..] == a[1..] + b;
      var first: seq<seq<int>> := if a[0] == [] || HeaderLine(a[0]) then [] else [a[0]];
      var rest, others := TargetsAmong(a[1..]), TargetsAmong(b);
      assert TargetsAmong(a) == first + rest && TargetsAmong(a + b) == first + (rest + others);
      assert first + (rest + others) == first + rest + others;
    }
  }

  lemma {:induction false} AllTargets(lines: seq<seq<int>>)
    requires forall i :: 0 <= i < |lines| ==> lines[i] != [] && !HeaderLine(lines[i])
    ensures TargetsAmong(lines) == lines
  {
    hide HeaderLine;
    if lines != [] {
      AllTargets(lines[1..]);
    }
  }

  lemma {:induction false} NoTargets(lines: seq<seq<int>>)
    requires forall i :: 0 <= i < |lines| ==> lines[i] == [] || HeaderLine(lines[i])
    ensures TargetsAmong(lines) == []
  {
    hide HeaderLine;
    if lines != [] {
      NoTargets(lines[1..]);
    }
  }

  lemma {:induction false} RefBeforeSpace(ref: seq<int>, line: seq<int>)
    requires SPACE !in ref && ref + [SPACE] <= line
    ensures RefOf(line) == ref
  {
    if ref != [] {
      RefBeforeSpace(ref[1..], line[1..]);
    }
  }

  lemma PlainIsNoHeader(ref: Str, line: Str)
    requires PlainRef(ref) && ref + [SPACE] <= line
    ensures !HeaderLine(line)
  {
    RefBeforeSpace(ref, line);
    if PAGE_START <= line {
      RefBeforeSpace([0x50, 0x61, 0x67, 0x65, 0x3A], line);
    } else if URL_START <= line {
      RefBeforeSpace([0x55, 0x52, 0x4C, 0x3A], line);
    }
  }

  /** The line of a target of a plain ref is neither `Text:` nor a header line. */
  lemma TargetLineStandsOut(t: Target)
    requires PlainRef(t.ref)
    ensures var line := FormatTarget(t); line != [] && line != TEXT_LINE && !HeaderLine(line) && RefOf(line) == t.ref
  {
    hide FormatTarget, HeaderLine;
    RefLeadsLine(t);
    var line, n := FormatTarget(t), |t.ref|;
    assert line == line[..n] + [line[n]] + line[n + 1..];
    assert t.ref + [SPACE] <= line;
    RefBeforeSpace(t.ref, line);
    PlainIsNoHeader(t.ref, line);
    assert SPACE in line && SPACE !in TEXT_LINE;
  }

  lemma StartedLine(start: Str, rest: Str)
    requires start == PAGE_START || start == URL_START
    ensures HeaderLine(start + rest) && start + rest != TEXT_LINE
  {
    assert (start + rest)[0] == start[0] != TEXT_LINE[0];
    assert start <= start + rest;
  }

  lemma HeaderStandsOut(s: Snapshot)
    ensures forall i :: 0 <= i < |Header(s)| ==> HeaderLine(Header(s)[i]) && Header(s)[i] != TEXT_LINE
  {
    hide SingleLine, Ascii, HeaderLine;
    Literals();
    StartedLine(PAGE_START, SingleLine(s.title.GetOr([]), 500));
    StartedLine(URL_START, SingleLine(s.url.GetOr([]), 2_048));
  }

  lemma FrontStandsOut(s: Snapshot)
    requires forall i :: 0 <= i < |s.targets| ==> PlainRef(s.targets[i].ref)
    ensures TEXT_LINE !in Front(s) && TargetsAmong(Front(s)) == Formatted(s.targets)
  {
    hide Header, HeaderLine, PlainRef, FormatTarget;
    HeaderStandsOut(s);
    forall i | 0 <= i < |s.targets|
      ensures var line := FormatTarget(s.targets[i]); line != [] && line != TEXT_LINE && !HeaderLine(line)
    {
      TargetLineStandsOut(s.targets[i]);
    }
    var head := Header(s) + (if Header(s) != [] && s.targets != [] then [[]] else []);
    NoTargets(head);
    AllTargets(Formatted(s.targets));
    TargetsConcat(head, Formatted(s.targets));
  }

  /** Content that is not cut gives the targets back, whatever the page says: the lines before
  the first `Text:` that are not blank and no header are the lines of the targets, in order,
  and each starts with its ref and a space. */
  lemma TargetsReadBack(s: Snapshot, maxBytes: Option<int>, compact: bool)
    requires forall i :: 0 <= i < |s.targets| ==> PlainRef(s.targets[i].ref)
    requires !AddCompactContent(s, maxBytes, compact).contentTruncated
    ensures var lines := TargetsAmong(BeforeText(Split(AddCompactContent(s, maxBytes, compact).content)));
            |lines| == |s.targets|
            && forall i :: 0 <= i < |lines| ==> lines[i] == FormatTarget(s.targets[i]) && RefOf(lines[i]) == s.targets[i].ref
  {
    hide AddCompactContent, Split, PlainRef, FormatTarget, LinesOfPrefix;
    ContentIsLines(s, maxBytes, compact);
    LinesBeforeText(s);
    forall i | 0 <= i < |s.targets|
      ensures RefOf(FormatTarget(s.targets[i])) == s.targets[i].ref
    {
      TargetLineStandsOut(s.targets[i]);
    }
  }

  lemma LinesBefore(front: seq<seq<int>>, targets: seq<seq<int>>, gap: seq<seq<int>>, texts: seq<seq<int>>)
    requires TEXT_LINE !in front && TargetsAmong(front) == targets && (gap == [] || gap == [[]])
    ensures TargetsAmong(BeforeText(front + gap + [TEXT_LINE] + texts)) == targets
    ensures TargetsAmong(BeforeText(front)) == targets
  {
    hide HeaderLine;
    var rest := [TEXT_LINE] + texts;
    assert front + gap + [TEXT_LINE] + texts == (front + gap) + rest;
    BeforeTextConcat(front + gap, rest);
    BeforeTextConcat(front, []);
    assert (front + gap) + [] == front + gap && front + [] == front;
    TargetsConcat(front, gap);
    NoTargets(gap);
    assert targets + [] == targets;
  }

  lemma LinesBeforeText(s: Snapshot)
    requires forall i :: 0 <= i < |s.targets| ==> PlainRef(s.targets[i].ref)
    ensures TargetsAmong(BeforeText(MeantLines(s))) == Formatted(s.targets)
  {
    hide Front, HeaderLine, PlainRef, TextLines, SplitText, Ascii, BeforeText, TargetsAmong, Formatted;
    Literals();
    FrontStandsOut(s);
    BlankHasNoTargets();
    var gap: seq<Str> := if Front(s) != [] then [[]] else [];
    if s.text.GetOr([]) == [] {
      LinesBefore(Front(s), Formatted(s.targets), gap, []);
    } else {
      var texts := TextLines(SplitText(s.text.value, []));
      LinesBefore(Front(s), Formatted(s.targets), gap, if texts == [] then [[]] else texts);
    }
  }

  lemma BlankHasNoTargets()
    ensures TargetsAmong(BeforeText([[]])) == [] && TargetsAmong([]) == []
  {
    var blank: seq<seq<int>> := [[]];
    assert blank[1..] == [];
  }

  /** The lines of a page's text can look like those of targets, so only their place tells. */
  lemma TextCanLookLikeTarget(t: Target)
    requires t == Target([0x65], [0x62], [], [], None, None, false, None, None, false)
    ensures var s := Snapshot(None, None, Some(FormatTarget(t)), []);
            MeantLines(s) == [Ascii("Text:"), FormatTarget(t)]
  {
    hide SingleLine, Ascii, FormatTarget, SplitText;
    var line: Str := [0x65, 0x20, 0x5B, 0x62, 0x5D];
    SmallTarget(t);
    PlainLine(line, 10_000);
    SplitTextPlain(line, []);
    assert [] + line == line && [line][1..] == [];
    assert TextLines([line]) == [line];
    var s := Snapshot(None, None, Some(line), []);
    assert Front(s) == [];
  }

  lemma SmallTarget(t: Target)
    requires t == Target([0x65], [0x62], [], [], None, None, false, None, None, false)
    ensures FormatTarget(t) == [0x65, 0x20, 0x5B, 0x62, 0x5D]
  {
    hide SingleLine, Ascii;
    PlainLine([0x65], 100);
    PlainLine([0x62], 64);
    PlainLine([], 500);
    assert Attributes(t) == [];
  }

  lemma PlainLine(s: Str, n: nat)
    requires Tidy(s) && StartsClean(s) && EndsClean(s) && |s| <= n
    ensures SingleLine(s, n) == s
  {
    assert Blank(s) == s;
    TidyIsCollapsed(s);
    TrimStartOfTidy(s);
    TrimEndOfTidy(s);
  }

  lemma {:induction false} SplitTextPlain(s: Str, current: Str)
    requires NEWLINE !in s
    ensures SplitText(s, current) == [current + s]
  {
    if s == [] {
      assert current + s == current;
    } else {
      SplitTextPlain(s[1..], current + [s[0]]);
      assert current + [s[0]] + s[1..] == current + s;
    }
  }
}
