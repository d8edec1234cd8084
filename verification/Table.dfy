/**
 Policy tables as text (policy/files/table.go): the parser, the printer and the reader with
 details. The main result is the exact condition under which a printed table reads back.
 */
module Table {
  import opened Text
  import ShellQuote

  type Row = seq<string>

  /** One line of a table for the reader with details. */
  datatype RowDetails =
    RowDetails(columns: Row, content: string, empty: bool, error: Option<ShellQuote.Cause>)

  // ---------------------------------------------------------------- what the text means

  function StripBom(content: string): string
  {
    if content != "" && content[0] == BOM then content[1..] else content
  }

  /** Cut at the first '#', then trim. */
  function CleanRow(row: string): string
  {
    TrimSpace(Split(row, '#')[0])
  }

  /** The rows of one line: none if it is empty or does not parse, else one. */
  function ParseLine(line: string): (rows: seq<Row>)
    ensures |rows| <= 1
  {
    var row := CleanRow(line);
    if row == "" then []
    else match ShellQuote.Split(row) case Words(columns) => [columns] case Unterminated(_) => []
  }

  function Rows(content: string): seq<Row>
  {
    Flat(ParseLine, Split(StripBom(content), '\n'))
  }

  function RenderRow(row: Row): string { ShellQuote.Join(row) + "\n" }

  function Render(rows: seq<Row>): string { Flat(RenderRow, rows) }

  function DetailsOf(line: string): RowDetails
  {
    var row := CleanRow(line);
    if row == "" then RowDetails([], line, true, None)
    else
      match ShellQuote.Split(row)
      case Words(columns) => RowDetails(columns, line, false, None)
      case Unterminated(cause) => RowDetails([], line, false, Some(cause))
  }

  function Each(lines: seq<string>): seq<RowDetails>
  {
    if lines == [] then [] else Each(lines[..|lines| - 1]) + [DetailsOf(lines[|lines| - 1])]
  }

  // ---------------------------------------------------------------- the code

  class Table {
    var rows: seq<Row>

    constructor Empty()
      ensures rows == []
    {
      rows := [];
    }

    constructor FromContent(content: string)
      ensures rows == Rows(content)
    {
      var lines := Split(StripBom(content), '\n');
      var table: seq<Row> := [];
      for i := 0 to |lines|
        invariant table == Flat(ParseLine, lines[..i])
      {
        FlatStep(ParseLine, lines, i);
        var row := CleanRow(lines[i]);
        if row != "" {
          match ShellQuote.Split(row)
          case Unterminated(_) =>
          case Words(columns) => table := table + [columns];
        }
      }
      assert lines[..|lines|] == lines;
      rows := table;
    }

    method AddRow(row: Row)
      modifies this
      ensures rows == old(rows) + [row]
    {
      rows := rows + [row];
    }

    method ToString() returns (text: string)
      ensures text == Render(rows)
    {
      text := "";
      for i := 0 to |rows|
        invariant text == Flat(RenderRow, rows[..i])
      {
        FlatStep(RenderRow, rows, i);
        text := text + (ShellQuote.Join(rows[i]) + "\n");
      }
      assert rows[..|rows|] == rows;
    }
  }

  method ReadRowsWithDetails(content: string) returns (details: seq<RowDetails>)
    ensures details == Each(Split(content, '\n'))
  {
    hide ShellQuote.Split, TrimSpace;
    var lines := Split(content, '\n');
    details := [];
    for i := 0 to |lines|
      invariant details == Each(lines[..i])
    {
      var row := CleanRow(lines[i]);
      var detail;
      if row == "" {
        detail := RowDetails([], lines[i], true, None);
      } else {
        match ShellQuote.Split(row)
        case Unterminated(cause) => detail := RowDetails([], lines[i], false, Some(cause));
        case Words(columns) => detail := RowDetails(columns, lines[i], false, None);
      }
      assert detail == DetailsOf(lines[i]);
      assert lines[..i + 1][..i] == lines[..i];
      details := details + [detail];
    }
    assert lines[..|lines|] == lines;
  }

  lemma DetailsContent(line: string)
    ensures DetailsOf(line).content == line
  {
  }

  lemma {:induction false} EachAt(lines: seq<string>, i: nat)
    requires i < |lines|
    ensures |Each(lines)| == |lines| && Each(lines)[i] == DetailsOf(lines[i])
  {
    hide DetailsOf;
    var n := |lines| - 1;
    if n > 0 {
      EachAt(lines[..n], if i < n then i else 0);
    }
  }

  // ---------------------------------------------------------------- which tables survive printing

  predicate IsOddSpace(c: char) { IsSpace(c) && !IsBlank(c) }

  predicate IsBom(c: char) { c == BOM }

  predicate IsClean(w: string) { '#' !in w && '\n' !in w }

  /** What no parsed row lacks. */
  predicate IsCleanRow(row: Row) { row != [] && forall w <- row :: IsClean(w) }

  /** What a row must avoid to survive: comment marks, line breaks, and bare odd white space at its ends. */
  predicate KeepsRow(row: Row)
  {
    && IsCleanRow(row)
    && !(ShellQuote.IsBare(row[0]) && IsOddSpace(row[0][0]))
    && (var last := row[|row| - 1]; !(ShellQuote.IsBare(last) && IsOddSpace(last[|last| - 1])))
  }

  /** The file must not begin with a byte order mark of its own. */
  predicate KeepsStart(rows: seq<Row>)
  {
    rows == [] || rows[0] == [] || !(ShellQuote.IsBare(rows[0][0]) && rows[0][0][0] == BOM)
  }

  predicate KeepsTable(rows: seq<Row>)
  {
    (forall i :: 0 <= i < |rows| ==> KeepsRow(rows[i])) && KeepsStart(rows)
  }

  // ---------------------------------------------------------------- lines

  lemma CleanRowFree(line: string, c: char)
    requires c !in line
    ensures c !in CleanRow(line)
  {
    SplitHeadIsPrefix(line, '#');
    TrimSpaceFree(Split(line, '#')[0], c);
  }

  lemma CleanRowOfPrinted(line: string)
    requires '#' !in line
    ensures CleanRow(line) == TrimSpace(line)
  {
    SplitWithoutSeparator(line, '#');
  }

  lemma JoinIsClean(row: Row)
    requires IsCleanRow(row)
    ensures '#' !in ShellQuote.Join(row) && '\n' !in ShellQuote.Join(row)
  {
    ShellQuote.JoinHolds(row, c => c != '#' && c != '\n');
  }

  /** No parsed row is empty or holds a comment mark or a line break. */
  lemma ParsedRowIsClean(line: string, row: Row)
    requires '\n' !in line && row in ParseLine(line)
    ensures IsCleanRow(row)
  {
    var clean := CleanRow(line);
    CleanRowFree(line, '\n');
    TrimSpaceFree(Split(line, '#')[0], '#');
    ShellQuote.SplitHolds(clean, c => c != '#' && c != '\n');
    ShellQuote.SplitHasAWord(clean);
  }

  lemma RowsAreClean(content: string, row: Row)
    requires row in Rows(content)
    ensures IsCleanRow(row)
  {
    var lines := Split(StripBom(content), '\n');
    FlatMember(ParseLine, lines, row);
    var line :| line in lines && row in ParseLine(line);
    ParsedRowIsClean(line, row);
  }

  lemma OddsOfParts(s: string, i: nat, j: nat)
    requires i <= j <= |s|
    ensures ShellQuote.Odds(s) == ShellQuote.Odds(s[..i]) + ShellQuote.Odds(s[i..j]) + ShellQuote.Odds(s[j..])
  {
    ShellQuote.OddsAppend(s[..i], s[i..j]);
    ShellQuote.OddsAppend(s[..j], s[j..]);
    assert s[..i] + s[i..j] == s[..j];
    assert s[..j] + s[j..] == s;
  }

  lemma {:induction false} OddsPositive(s: string, k: nat)
    requires k < |s| && ShellQuote.IsOdd(s[k])
    ensures ShellQuote.Odds(s) > 0
  {
    hide ShellQuote.IsOdd;
    if k > 0 {
      OddsPositive(s[1..], k - 1);
    }
  }

  lemma OddsOfTrimmed(s: string)
    ensures ShellQuote.Odds(TrimSpace(s)) <= ShellQuote.Odds(s)
    ensures s != "" && IsOddSpace(s[0]) ==> ShellQuote.Odds(TrimSpace(s)) < ShellQuote.Odds(s)
    ensures s != "" && IsOddSpace(s[|s| - 1]) ==> ShellQuote.Odds(TrimSpace(s)) < ShellQuote.Odds(s)
  {
    hide TrimSpace, IsSpace, ShellQuote.Odds;
    var i, j := TrimSpaceBounds(s);
    OddsOfParts(s, i, j);
    if s != "" && IsOddSpace(s[0]) {
      OddsPositive(s[..i], 0);
    }
    if s != "" && IsOddSpace(s[|s| - 1]) {
      if TrimSpace(s) == "" {
        ShellQuote.NoOdds();
        OddsPositive(s, |s| - 1);
      } else {
        OddsPositive(s[j..], |s| - 1 - j);
      }
    }
  }

  lemma EdgesAreOrdinary()
    ensures ShellQuote.IsOrdinary(IsOddSpace) && ShellQuote.IsOrdinary(IsBom)
  {
  }

  /** A printed row reads back exactly when nothing at its ends is trimmed. */
  lemma LineReadsBack(row: Row)
    requires IsCleanRow(row)
    ensures ParseLine(ShellQuote.Join(row)) == [row] <==> KeepsRow(row)
  {
    hide TrimSpace, IsSpace, ShellQuote.Split, ShellQuote.Join;
    var s := ShellQuote.Join(row);
    JoinIsClean(row);
    CleanRowOfPrinted(s);
    EdgesAreOrdinary();
    ShellQuote.JoinEnds(row, IsOddSpace);
    ShellQuote.JoinStartsAWord(row);
    ShellQuote.SplitOfJoin(row);
    if KeepsRow(row) {
      TrimSpaceOfTrimmed(s);
    } else {
      OddsOfTrimmed(s);
      ShellQuote.SplitOdds(TrimSpace(s));
      ShellQuote.JoinOdds(row);
    }
  }

  /** With its byte order mark stripped, a row does not read back. */
  lemma BomRowIsLost(row: Row)
    requires IsCleanRow(row)
    requires ShellQuote.IsBare(row[0]) && row[0][0] == BOM
    ensures ParseLine(ShellQuote.Join(row)[1..]) != [row]
  {
    var s := ShellQuote.Join(row);
    EdgesAreOrdinary();
    ShellQuote.JoinEnds(row, IsBom);
    JoinIsClean(row);
    CleanRowOfPrinted(s[1..]);
    OddsOfTrimmed(s[1..]);
    ShellQuote.SplitOdds(TrimSpace(s[1..]));
    ShellQuote.JoinOdds(row);
  }

  // ---------------------------------------------------------------- files

  /** The lines of a printed table. */
  function Printed(rows: seq<Row>): (lines: seq<string>)
    ensures |lines| == |rows| + 1 && lines[|rows|] == ""
    ensures forall i :: 0 <= i < |rows| ==> lines[i] == ShellQuote.Join(rows[i])
  {
    if rows == [] then [""] else [ShellQuote.Join(rows[0])] + Printed(rows[1..])
  }

  lemma RenderCons(rows: seq<Row>)
    requires rows != []
    ensures Render(rows) == ShellQuote.Join(rows[0]) + "\n" + Render(rows[1..])
  {
    assert rows == [rows[0]] + rows[1..];
    FlatCons(RenderRow, rows[0], rows[1..]);
  }

  /** A row that is printed on one line. */
  predicate IsLine(row: Row) { row != [] && forall w <- row :: '\n' !in w }

  lemma CleanIsLine(row: Row)
    requires IsCleanRow(row)
    ensures IsLine(row)
  {
  }

  lemma JoinIsLine(row: Row)
    requires IsLine(row)
    ensures '\n' !in ShellQuote.Join(row)
  {
    ShellQuote.JoinHolds(row, c => c != '\n');
  }

  lemma {:induction false} LinesOfRendered(rows: seq<Row>)
    requires forall i :: 0 <= i < |rows| ==> IsLine(rows[i])
    ensures Split(Render(rows), '\n') == Printed(rows)
  {
    if rows != [] {
      RenderCons(rows);
      JoinIsLine(rows[0]);
      SplitCons(ShellQuote.Join(rows[0]), Render(rows[1..]), '\n');
      LinesOfRendered(rows[1..]);
    }
  }

  lemma FlatAtMostOne(lines: seq<string>)
    ensures |Flat(ParseLine, lines)| <= |lines|
  {
    hide ParseLine;
  }

  /** If `n` lines give `n` rows, every line gives its own. */
  lemma {:induction false} OneRowPerLine(lines: seq<string>, i: nat)
    requires |Flat(ParseLine, lines)| == |lines| && i < |lines|
    ensures ParseLine(lines[i]) == [Flat(ParseLine, lines)[i]]
  {
    hide ParseLine;
    var n := |lines| - 1;
    assert Flat(ParseLine, lines) == Flat(ParseLine, lines[..n]) + ParseLine(lines[n]);
    FlatAtMostOne(lines[..n]);
    if i < n {
      OneRowPerLine(lines[..n], i);
      assert lines[..n][i] == lines[i];
    }
  }

  lemma EmptyLineHasNoRow()
    ensures ParseLine("") == []
  {
  }

  lemma {:induction false} AllLinesReadBack(rows: seq<Row>)
    requires forall i :: 0 <= i < |rows| ==> KeepsRow(rows[i])
    ensures Flat(ParseLine, Printed(rows)) == rows
  {
    hide ParseLine, ShellQuote.Join;
    if rows == [] {
      assert Printed(rows)[..0] == [];
      EmptyLineHasNoRow();
    } else {
      LineReadsBack(rows[0]);
      AllLinesReadBack(rows[1..]);
      FlatCons(ParseLine, ShellQuote.Join(rows[0]), Printed(rows[1..]));
    }
  }

  lemma StartOfRendered(rows: seq<Row>)
    requires forall i :: 0 <= i < |rows| ==> rows[i] != []
    ensures KeepsStart(rows) <==> StripBom(Render(rows)) == Render(rows)
    ensures !KeepsStart(rows) ==>
            ShellQuote.Join(rows[0]) != "" &&
                StripBom(Render(rows)) == ShellQuote.Join(rows[0])[1..] + "\n" + Render(rows[1..])
  {
    if rows != [] {
      RenderCons(rows);
      EdgesAreOrdinary();
      ShellQuote.JoinEnds(rows[0], IsBom);
    }
  }

  /** The table round trip: a printed table reads back exactly when it keeps the rules above. */
  lemma RoundTrip(rows: seq<Row>)
    ensures Rows(Render(rows)) == rows <==> KeepsTable(rows)
  {
    if KeepsTable(rows) {
      StartOfRendered(rows);
      LinesOfRendered(rows);
      AllLinesReadBack(rows);
    } else if Rows(Render(rows)) == rows {
      forall i | 0 <= i < |rows| ensures IsCleanRow(rows[i]) {
        RowsAreClean(Render(rows), rows[i]);
      }
      LostRow(rows);
    }
  }

  /** The lines of a printed file: the printed rows, the first without its byte order mark, and an empty end. */
  lemma LinesOfFile(rows: seq<Row>) returns (lines: seq<string>)
    requires forall i :: 0 <= i < |rows| ==> IsLine(rows[i])
    ensures |lines| == |rows|
    ensures Split(StripBom(Render(rows)), '\n') == lines + [""]
    ensures forall i :: 0 <= i < |rows| && (i > 0 || KeepsStart(rows)) ==> lines[i] == ShellQuote.Join(rows[i])
    ensures !KeepsStart(rows) ==> ShellQuote.Join(rows[0]) != "" && lines[0] == ShellQuote.Join(rows[0])[1..]
  {
    hide ShellQuote.Join, Render, ParseLine, StripBom, Split;
    StartOfRendered(rows);
    if KeepsStart(rows) {
      LinesOfRendered(rows);
      lines := Printed(rows)[..|rows|];
    } else {
      var first := ShellQuote.Join(rows[0])[1..];
      JoinIsLine(rows[0]);
      SplitCons(first, Render(rows[1..]), '\n');
      LinesOfRendered(rows[1..]);
      lines := [first] + Printed(rows[1..])[..|rows| - 1];
    }
  }

  lemma RowsOfLines(content: string, lines: seq<string>)
    requires Split(StripBom(content), '\n') == lines + [""]
    ensures Rows(content) == Flat(ParseLine, lines)
  {
    EmptyLineHasNoRow();
    hide ParseLine;
    assert (lines + [""])[..|lines|] == lines;
  }

  lemma LostRow(rows: seq<Row>)
    requires forall i :: 0 <= i < |rows| ==> IsCleanRow(rows[i])
    requires !KeepsTable(rows)
    ensures Rows(Render(rows)) != rows
  {
    hide ShellQuote.Join, Render, KeepsRow, ParseLine;
    var lines := LinesOfFile(rows);
    RowsOfLines(Render(rows), lines);
    var i: nat := 0;
    if KeepsStart(rows) {
      i :| i < |rows| && !KeepsRow(rows[i]);
      LineReadsBack(rows[i]);
    } else {
      BomRowIsLost(rows[0]);
    }
    if |Flat(ParseLine, lines)| == |rows| {
      OneRowPerLine(lines, i);
    }
  }

  /** A printed table of clean rows never reads back as more rows than it has. */
  lemma RowsAtMost(rows: seq<Row>)
    requires forall i :: 0 <= i < |rows| ==> IsCleanRow(rows[i])
    ensures |Rows(Render(rows))| <= |rows|
  {
    hide Render, ParseLine;
    var lines := LinesOfFile(rows);
    RowsOfLines(Render(rows), lines);
    FlatAtMostOne(lines);
  }

  lemma KeptRowIsClean(row: Row)
    requires KeepsRow(row)
    ensures IsCleanRow(row)
  {
  }
}
