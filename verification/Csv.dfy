/** CSV cells and lines (src/api/server.ts, csvCell and parseCsvLine). */
module Csv {
  import opened Text
  import opened SnapshotText

  const QUOTE: CodeUnit := 0x22
  const COMMA: CodeUnit := 0x2C
  const FULL_WIDTH_COMMA: CodeUnit := 0xFF0C
  const TAB: CodeUnit := 0x09

  predicate Separator(u: CodeUnit) { u == COMMA || u == FULL_WIDTH_COMMA || u == TAB }

  // ----- printing -----

  function Doubled(s: Str): Str {
    if s == [] then [] else (if s[0] == QUOTE then [QUOTE, QUOTE] else [s[0]]) + Doubled(s[1..])
  }

  function Cell(value: Str): Str { [QUOTE] + Doubled(value) + [QUOTE] }

  /** The cells of a row, joined by commas. */
  function Row(fields: seq<Str>): Str
    requires fields != []
  {
    if |fields| == 1 then Cell(fields[0]) else Cell(fields[0]) + [COMMA] + Row(fields[1..])
  }

  // ----- parsing -----

  /** The fields that are read from here on, given the current field and whether it is
  inside quotes. */
  function FieldsFrom(line: Str, current: Str, quoted: bool): (r: seq<Str>)
    ensures r != []
  {
    if line == [] then [Trim(current)]
    else if line[0] == QUOTE then
      if quoted && |line| > 1 && line[1] == QUOTE then FieldsFrom(line[2..], current + [QUOTE], quoted)
      else FieldsFrom(line[1..], current, !quoted)
    else if !quoted && Separator(line[0]) then [Trim(current)] + FieldsFrom(line[1..], [], quoted)
    else FieldsFrom(line[1..], current + [line[0]], quoted)
  }

  method ParseCsvLine(line: Str) returns (fields: seq<Str>)
    ensures fields == FieldsFrom(line, [], false)
  {
    fields := [];
    var current: Str, quoted, index := [], false, 0;
    assert line[0..] == line;
    while index < |line|
      invariant index <= |line|
      invariant fields + FieldsFrom(line[index..], current, quoted) == FieldsFrom(line, [], false)
    {
      var character := line[index];
      assert line[index..][1..] == line[index + 1..];
      if character == QUOTE {
        if quoted && index + 1 < |line| && line[index + 1] == QUOTE {
          assert line[index..][2..] == line[index + 2..];
          current := current + [QUOTE];
          index := index + 1;
        } else {
          quoted := !quoted;
        }
      } else if !quoted && Separator(character) {
        Regroup(fields, Trim(current), FieldsFrom(line[index + 1..], [], quoted));
        fields := fields + [Trim(current)];
        current := [];
      } else {
        current := current + [character];
      }
      index := index + 1;
    }
    fields := fields + [Trim(current)];
  }

  lemma Regroup(a: seq<Str>, x: Str, b: seq<Str>)
    ensures a + ([x] + b) == a + [x] + b
  {
  }

  // ----- round trip -----

  /** Inside quotes everything is read back as it was, up to the closing quote. */
  lemma {:induction false} ReadsDoubled(value: Str, rest: Str, current: Str)
    requires rest == [] || rest[0] != QUOTE
    ensures FieldsFrom(Doubled(value) + ([QUOTE] + rest), current, true) == FieldsFrom(rest, current + value, false)
  {
    hide Trim, Separator;
    var line := Doubled(value) + ([QUOTE] + rest);
    if value == [] {
      assert line == [QUOTE] + rest && line[1..] == rest && current + [] == current;
    } else {
      var tail := Doubled(value[1..]) + ([QUOTE] + rest);
      ReadsDoubled(value[1..], rest, current + [value[0]]);
      assert current + [value[0]] + value[1..] == current + value;
      if value[0] == QUOTE {
        assert line == [QUOTE, QUOTE] + tail && line[2..] == tail;
      } else {
        assert line == [value[0]] + tail && line[1..] == tail;
      }
    }
  }

  lemma ReadsCell(value: Str, rest: Str)
    requires rest == [] || rest[0] != QUOTE
    ensures FieldsFrom(Cell(value) + rest, [], false) == FieldsFrom(rest, value, false)
  {
    var line := Cell(value) + rest;
    assert line == [QUOTE] + (Doubled(value) + ([QUOTE] + rest)) && line[1..] == Doubled(value) + ([QUOTE] + rest);
    ReadsDoubled(value, rest, []);
    assert [] + value == value;
  }

  function Trimmed(fields: seq<Str>): (r: seq<Str>)
    ensures |r| == |fields| && forall i :: 0 <= i < |r| ==> r[i] == Trim(fields[i])
  {
    seq(|fields|, i requires 0 <= i < |fields| => Trim(fields[i]))
  }

  /** Parsing a printed row gives back every field, trimmed, whatever quotes, commas and tabs
  it contains. */
  lemma {:induction false} ParsePrintedRow(fields: seq<Str>)
    requires fields != []
    ensures FieldsFrom(Row(fields), [], false) == Trimmed(fields)
  {
    hide Cell, Trim;
    if |fields| == 1 {
      ReadsCell(fields[0], []);
      assert Cell(fields[0]) + [] == Cell(fields[0]);
      assert Trimmed(fields) == [Trim(fields[0])];
    } else {
      var rest := [COMMA] + Row(fields[1..]);
      assert Row(fields) == Cell(fields[0]) + rest;
      ReadsCell(fields[0], rest);
      assert rest[1..] == Row(fields[1..]);
      ParsePrintedRow(fields[1..]);
      assert Trimmed(fields) == [Trim(fields[0])] + Trimmed(fields[1..]);
    }
  }

  /** A row is read back exactly when none of its fields starts or ends with white space. */
  lemma RowRoundTrip(fields: seq<Str>)
    requires fields != []
    ensures FieldsFrom(Row(fields), [], false) == fields <==>
              forall i :: 0 <= i < |fields| ==>
                fields[i] != [] ==> !White(fields[i][0]) && !White(fields[i][|fields[i]| - 1])
  {
    ParsePrintedRow(fields);
    forall i | 0 <= i < |fields|
      ensures Trim(fields[i]) == fields[i] <==>
                (fields[i] != [] ==> !White(fields[i][0]) && !White(fields[i][|fields[i]| - 1]))
    {
      TrimmedAlready(fields[i]);
    }
    if Trimmed(fields) == fields {
      assert forall i :: 0 <= i < |fields| ==> Trimmed(fields)[i] == fields[i];
    }
  }

  lemma TrimmedAlready(s: Str)
    ensures Trim(s) == s <==> (s != [] ==> !White(s[0]) && !White(s[|s| - 1]))
  {
    TrimStartShortens(s);
    TrimEndShortens(TrimStart(s));
    if s != [] && White(s[0]) {
      TrimStartShortens(s[1..]);
      TrimEndShortens(TrimStart(s[1..]));
    } else if s != [] && White(s[|s| - 1]) {
      TrimEndShortens(s[..|s| - 1]);
    }
  }
}
