/**
 What a printed table reads as when it does not read back: row by row, the bare white space other than
 blanks at the ends of a row is lost, and a byte order mark at the start of the file. So whatever was
 read from a printed table keeps the rules for reading back.
 */
module Reread {
  import opened Text
  import ShellQuote
  import Table

  /** A bare word of white space alone. */
  predicate IsGone(w: string) { ShellQuote.IsBare(w) && Lead(w) == |w| }

  function CutLeft(w: string): string { if ShellQuote.IsBare(w) then w[Lead(w)..] else w }

  function CutRight(w: string): string { if ShellQuote.IsBare(w) then w[..End(w)] else w }

  /** The row that a printed row reads as, or no word at all. */
  function RereadRow(row: Table.Row): Table.Row
  {
    if row == [] then []
    else if IsGone(row[0]) then RereadRow(row[1..])
    else if IsGone(row[|row| - 1]) then RereadRow(row[..|row| - 1])
    else Shortened(row)
  }

  function Shortened(row: Table.Row): Table.Row
    requires row != []
  {
    var left := row[0 := CutLeft(row[0])];
    left[|row| - 1 := CutRight(left[|row| - 1])]
  }

  // ---------------------------------------------------------------- printing a row

  function PrintFirst(w: string, atStart: bool): string
  {
    if ShellQuote.IsBare(w) then ShellQuote.Escaped(w, atStart) else ShellQuote.QuoteWord(w)
  }

  /** A printed row, of which the first word may be the end of another. */
  function Print(row: Table.Row, atStart: bool): string
    requires row != []
  {
    PrintFirst(row[0], atStart) + if |row| == 1 then "" else " " + ShellQuote.Join(row[1..])
  }

  lemma PrintIsJoin(row: Table.Row)
    requires row != []
    ensures Print(row, true) == ShellQuote.Join(row)
  {
    assert PrintFirst(row[0], true) == ShellQuote.QuoteWord(row[0]);
    hide PrintFirst;
  }

  lemma RunFirst(w: string, atStart: bool)
    ensures ShellQuote.Run(ShellQuote.START, PrintFirst(w, atStart)) == ShellQuote.Scan(ShellQuote.Raw, w, [])
  {
    hide ShellQuote.Run, ShellQuote.Escaped, ShellQuote.QuoteWord;
    ShellQuote.RunWord([], w);
    if ShellQuote.IsBare(w) {
      ShellQuote.RunEscaped(ShellQuote.START, w, atStart);
      assert "" + w == w;
    }
  }

  lemma SplitOfPrint(row: Table.Row, atStart: bool)
    requires row != []
    ensures ShellQuote.Split(Print(row, atStart)) == ShellQuote.Words(row)
  {
    hide ShellQuote.Run, ShellQuote.Join, PrintFirst, ShellQuote.Step;
    var start, rest := ShellQuote.START, row[1..];
    RunFirst(row[0], atStart);
    if |row| == 1 {
      assert Print(row, atStart) == PrintFirst(row[0], atStart);
      assert [] + [row[0]] == row;
    } else {
      var s := PrintFirst(row[0], atStart);
      assert Print(row, atStart) == s + (" " + ShellQuote.Join(rest));
      ShellQuote.RunAppend(start, s, " " + ShellQuote.Join(rest));
      ShellQuote.RunAppend(ShellQuote.Scan(ShellQuote.Raw, row[0], []), " ", ShellQuote.Join(rest));
      ShellQuote.RunBlank(ShellQuote.Scan(ShellQuote.Raw, row[0], []), ' ');
      ShellQuote.RunJoin([row[0]], rest);
      assert [] + [row[0]] == [row[0]];
      assert [row[0]] + rest[..|rest| - 1] + [rest[|rest| - 1]] == row;
    }
  }

  // ---------------------------------------------------------------- the ends of a word

  /** White space that is no blank is printed as it is. */
  lemma SpacesArePlain(s: string)
    requires AllSpaces(s) && !ShellQuote.HasBlank(s)
    ensures forall c <- s :: !ShellQuote.IsSpecial(c) && c != '~'
  {
    forall c <- s ensures !ShellQuote.IsSpecial(c) && c != '~' {
      assert IsSpace(c) && !IsBlank(c);
    }
  }

  lemma {:induction false} EscapedBehind(lead: string, w: string, atStart: bool)
    requires forall c <- lead :: !ShellQuote.IsSpecial(c) && c != '~'
    ensures ShellQuote.Escaped(lead + w, atStart) == lead + ShellQuote.Escaped(w, atStart && lead == "")
    decreases |lead|
  {
    hide ShellQuote.IsSpecial;
    if lead == "" {
      assert lead + w == w;
    } else {
      assert lead[0] in lead;
      assert (lead + w)[1..] == lead[1..] + w;
      EscapedBehind(lead[1..], w, false);
      assert [lead[0]] + lead[1..] == lead;
    }
  }

  lemma {:induction false} EscapedAppend(w: string, v: string, atStart: bool)
    ensures ShellQuote.Escaped(w + v, atStart) ==
            ShellQuote.Escaped(w, atStart) + ShellQuote.Escaped(v, atStart && w == "")
    decreases |w|
  {
    hide ShellQuote.EscapeLead;
    if w == "" {
      assert w + v == v;
    } else {
      assert (w + v)[1..] == w[1..] + v;
      EscapedAppend(w[1..], v, false);
    }
  }

  lemma LeadIsSpaces(w: string)
    ensures AllSpaces(w[..Lead(w)]) && AllSpaces(w[End(w)..])
  {
    hide IsSpace, Lead, End;
  }

  /** A word without its first white space is printed without it. */
  lemma PrintCutLeft(w: string, atStart: bool) returns (lead: string, flag: bool)
    requires !IsGone(w)
    ensures PrintFirst(w, atStart) == lead + PrintFirst(CutLeft(w), flag) && AllSpaces(lead)
    ensures ShellQuote.IsBare(CutLeft(w)) == ShellQuote.IsBare(w)
    ensures ShellQuote.IsBare(w) ==> !IsSpace(CutLeft(w)[0])
  {
    hide IsSpace, ShellQuote.IsSpecial, ShellQuote.Escaped, ShellQuote.Quoted, Lead;
    if ShellQuote.IsBare(w) {
      lead := w[..Lead(w)];
      flag := atStart && lead == "";
      LeadIsSpaces(w);
      assert w == lead + CutLeft(w);
      assert !ShellQuote.HasBlank(lead) && !ShellQuote.HasBlank(CutLeft(w));
      SpacesArePlain(lead);
      EscapedBehind(lead, CutLeft(w), atStart);
    } else {
      lead, flag := "", atStart;
    }
  }

  /** A word without its last white space is printed without it. */
  lemma PrintCutRight(w: string, atStart: bool) returns (tail: string)
    requires ShellQuote.IsBare(w) ==> End(w) > 0
    ensures PrintFirst(w, atStart) == PrintFirst(CutRight(w), atStart) + tail && AllSpaces(tail)
    ensures ShellQuote.IsBare(CutRight(w)) == ShellQuote.IsBare(w)
    ensures ShellQuote.IsBare(w) ==> !IsSpace(CutRight(w)[|CutRight(w)| - 1]) && CutRight(w)[0] == w[0]
  {
    hide IsSpace, ShellQuote.IsSpecial, ShellQuote.Escaped, ShellQuote.Quoted, End;
    if ShellQuote.IsBare(w) {
      tail := w[End(w)..];
      LeadIsSpaces(w);
      assert w == CutRight(w) + tail;
      assert !ShellQuote.HasBlank(tail) && !ShellQuote.HasBlank(CutRight(w));
      SpacesArePlain(tail);
      EscapedAppend(CutRight(w), tail, atStart);
      EscapedBehind(tail, "", false);
      assert tail + "" == tail;
      assert ShellQuote.Escaped("", false) == "" by { NothingEscaped(); }
    } else {
      tail := "";
    }
  }

  lemma NothingEscaped()
    ensures forall atStart :: ShellQuote.Escaped("", atStart) == ""
  {
  }

  // ---------------------------------------------------------------- the ends of a row

  lemma {:induction false} JoinSnoc(row: Table.Row)
    requires |row| > 1
    ensures ShellQuote.Join(row) == ShellQuote.Join(row[..|row| - 1]) + " " + ShellQuote.QuoteWord(row[|row| - 1])
  {
    hide ShellQuote.QuoteWord;
    var n := |row| - 1;
    if n == 1 {
      assert row[1..] == [row[1]] && row[..1] == [row[0]];
    } else {
      JoinSnoc(row[1..]);
      assert row[1..][..n - 1] == row[..n][1..];
    }
  }

  lemma PrintSnoc(row: Table.Row, atStart: bool)
    requires |row| > 1
    ensures Print(row, atStart) == Print(row[..|row| - 1], atStart) + " " + PrintFirst(row[|row| - 1], true)
  {
    var n := |row| - 1;
    assert PrintFirst(row[n], true) == ShellQuote.QuoteWord(row[n]);
    hide PrintFirst, ShellQuote.QuoteWord;
    if n == 1 {
      assert row[1..] == [row[1]];
      assert ShellQuote.Join([row[1]]) == ShellQuote.QuoteWord(row[1]);
    } else {
      JoinSnoc(row[1..]);
      assert row[1..][..n - 1] == row[..n][1..];
    }
  }

  lemma PrintFirstEnds(w: string, atStart: bool)
    ensures var s := PrintFirst(w, atStart);
            && s != ""
            && ((ShellQuote.IsBare(w) ==> !IsSpace(w[0])) ==> !IsSpace(s[0]))
            && ((ShellQuote.IsBare(w) ==> !IsSpace(w[|w| - 1])) ==> !IsSpace(s[|s| - 1]))
  {
    QuotesAreVisible();
    hide IsSpace, ShellQuote.IsSpecial;
    if ShellQuote.IsBare(w) {
      ShellQuote.EscapedLast(w, atStart);
    } else if w != "" {
      ShellQuote.QuotedLast(w, false);
    }
  }

  lemma QuotesAreVisible()
    ensures !IsSpace('\'') && !IsSpace('\\')
  {
  }

  /** A row with white space at neither end is printed with white space at neither end. */
  lemma PrintEnds(row: Table.Row, atStart: bool)
    requires row != []
    requires ShellQuote.IsBare(row[0]) ==> !IsSpace(row[0][0])
    requires var last := row[|row| - 1]; ShellQuote.IsBare(last) ==> !IsSpace(last[|last| - 1])
    ensures var s := Print(row, atStart); s != "" && !IsSpace(s[0]) && !IsSpace(s[|s| - 1])
  {
    hide IsSpace, PrintFirst, ShellQuote.IsBare, ShellQuote.Join;
    PrintFirstEnds(row[0], atStart);
    if |row| > 1 {
      PrintFirstEnds(row[|row| - 1], true);
      PrintSnoc(row, atStart);
    }
  }

  /** Without the white space at its ends a row is printed without it. */
  lemma PrintShortened(row: Table.Row, atStart: bool) returns (lead: string, tail: string, flag: bool)
    requires row != [] && !IsGone(row[0]) && !IsGone(row[|row| - 1])
    ensures Print(row, atStart) == lead + Print(Shortened(row), flag) + tail && AllSpaces(lead) && AllSpaces(tail)
    ensures var short := Shortened(row);
            && (ShellQuote.IsBare(short[0]) ==> !IsSpace(short[0][0]))
            && var last := short[|short| - 1]; (ShellQuote.IsBare(last) ==> !IsSpace(last[|last| - 1]))
  {
    hide IsSpace, PrintFirst, CutLeft, CutRight, ShellQuote.Join, ShellQuote.IsBare, Lead, End;
    var n := |row| - 1;
    lead, flag := PrintCutLeft(row[0], atStart);
    var left := row[0 := CutLeft(row[0])];
    assert left[1..] == row[1..];
    assert Print(row, atStart) == lead + Print(left, flag);
    if n == 0 {
      EndOfVisible(left[0]);
      tail := PrintCutRight(left[0], flag);
      assert Shortened(row) == [CutRight(left[0])];
    } else {
      NotGoneHasEnd(row[n]);
      tail := PrintCutRight(row[n], true);
      PrintSnoc(left, flag);
      PrintSnoc(Shortened(row), flag);
      assert Shortened(row)[..n] == left[..n];
    }
  }

  lemma EndOfVisible(w: string)
    requires ShellQuote.IsBare(w) ==> !IsSpace(w[0])
    ensures ShellQuote.IsBare(w) ==> End(w) > 0
  {
    hide IsSpace, End;
  }

  lemma NotGoneHasEnd(w: string)
    requires !IsGone(w)
    ensures ShellQuote.IsBare(w) ==> End(w) > 0
  {
    hide IsSpace, End, Lead;
  }

  // ---------------------------------------------------------------- reading a printed row

  lemma GoneIsSpaces(w: string, atStart: bool)
    requires IsGone(w)
    ensures PrintFirst(w, atStart) == w && AllSpaces(w)
  {
    hide IsSpace, Lead, ShellQuote.Escaped, ShellQuote.IsSpecial;
    assert AllSpaces(w);
    SpacesArePlain(w);
    EscapedBehind(w, "", atStart);
    NothingEscaped();
    assert w + "" == w;
  }

  /** What is left of a printed row after trimming splits into the words of the row it reads as. */
  lemma {:induction false} Rereads(row: Table.Row, atStart: bool)
    requires row != []
    ensures var s := TrimSpace(Print(row, atStart));
            if RereadRow(row) == [] then s == "" else s != "" && ShellQuote.Split(s) == ShellQuote.Words(RereadRow(row))
    decreases |row|
  {
    hide IsSpace, TrimSpace, PrintFirst, ShellQuote.Split, ShellQuote.Join, IsGone, Shortened;
    var n := |row| - 1;
    assert AllSpaces(" ") by { BlankIsSpace(); }
    if IsGone(row[0]) {
      GoneIsSpaces(row[0], atStart);
      if n == 0 {
        assert Print(row, atStart) == row[0] && row[1..] == [];
        TrimSpaceOfSpaces(row[0]);
        NothingToReread();
      } else {
        var rest := ShellQuote.Join(row[1..]);
        assert Print(row, atStart) == (row[0] + " ") + rest + "";
        assert AllSpaces(row[0] + " ");
        TrimSpaceAround(row[0] + " ", rest, "");
        PrintIsJoin(row[1..]);
        Rereads(row[1..], true);
      }
    } else if IsGone(row[n]) {
      GoneIsSpaces(row[n], true);
      PrintSnoc(row, atStart);
      var init := Print(row[..n], atStart);
      assert Print(row, atStart) == "" + init + (" " + row[n]);
      assert AllSpaces(" " + row[n]);
      TrimSpaceAround("", init, " " + row[n]);
      Rereads(row[..n], atStart);
    } else {
      var lead, tail, flag := PrintShortened(row, atStart);
      var short := Shortened(row);
      assert |short| == |row| by { ShortenedLength(row); }
      PrintEnds(short, flag);
      TrimSpaceBetween(lead, Print(short, flag), tail);
      SplitOfPrint(short, flag);
    }
  }

  lemma BlankIsSpace()
    ensures IsSpace(' ')
  {
  }

  lemma ShortenedLength(row: Table.Row)
    requires row != []
    ensures |Shortened(row)| == |row|
  {
  }

  function OrNone(row: Table.Row): seq<Table.Row> { if row == [] then [] else [row] }

  /** What every printed row reads as. */
  lemma LineRereads(row: Table.Row)
    requires Table.IsCleanRow(row)
    ensures Table.ParseLine(ShellQuote.Join(row)) == OrNone(RereadRow(row))
  {
    hide TrimSpace, ShellQuote.Split, ShellQuote.Join, RereadRow, Print, Table.CleanRow;
    Table.JoinIsClean(row);
    Table.CleanRowOfPrinted(ShellQuote.Join(row));
    PrintIsJoin(row);
    Rereads(row, true);
  }

  /** A row whose byte order mark is stripped. */
  function Unmarked(row: Table.Row): Table.Row
    requires row != [] && row[0] != ""
  {
    if row[0] == [BOM] then row[1..] else row[0 := row[0][1..]]
  }

  lemma MarkAlone(row: Table.Row)
    requires row != [] && row[0] == [BOM]
    ensures ShellQuote.Join(row) == [BOM] + if |row| == 1 then "" else " " + ShellQuote.Join(row[1..])
  {
    MarkIsBare();
    MarkedFirst("", row[0]);
    PrintIsJoin(row);
    hide ShellQuote.Join, PrintFirst, ShellQuote.IsBare;
    assert [BOM] + "" == [BOM];
  }

  lemma MarkIsBare()
    ensures ShellQuote.IsBare([BOM])
  {
  }

  lemma MarkInFront(row: Table.Row, w: string)
    requires row != [] && row[0] == [BOM] + w && w != "" && ShellQuote.IsBare(row[0])
    ensures ShellQuote.Join(row) == [BOM] + Print(row[0 := w], false)
  {
    hide ShellQuote.Join, PrintFirst, ShellQuote.IsBare;
    MarkedFirst(w, row[0]);
    PrintIsJoin(row);
    assert row[0 := w][1..] == row[1..];
  }

  lemma MarkedFirst(w: string, marked: string)
    requires marked == [BOM] + w && ShellQuote.IsBare(marked)
    ensures PrintFirst(marked, true) == [BOM] + (if w == "" then "" else PrintFirst(w, false))
  {
    hide ShellQuote.Escaped, ShellQuote.QuoteWord;
    BomIsPlain();
    EscapedBehind([BOM], w, true);
    NothingEscaped();
    assert forall c <- w :: c in marked;
  }

  lemma BomIsPlain()
    ensures forall c <- [BOM] :: !ShellQuote.IsSpecial(c) && c != '~'
  {
  }

  /** What a printed row reads as behind a stripped byte order mark. */
  lemma MarkedLineRereads(row: Table.Row)
    requires Table.IsCleanRow(row) && ShellQuote.IsBare(row[0]) && row[0][0] == BOM
    ensures ShellQuote.Join(row) != ""
    ensures Table.ParseLine(ShellQuote.Join(row)[1..]) == OrNone(RereadRow(Unmarked(row)))
  {
    assert row[0] != "";
    hide TrimSpace, ShellQuote.Split, ShellQuote.Join, RereadRow, Print, Table.CleanRow, ShellQuote.IsBare, IsSpace;
    Table.JoinIsClean(row);
    var text, w := ShellQuote.Join(row), row[0][1..];
    assert row[0] == [BOM] + w;
    if w != "" {
      MarkInFront(row, w);
      assert text[1..] == Print(Unmarked(row), false);
      Rereads(Unmarked(row), false);
    } else {
      MarkAlone(row);
      assert Unmarked(row) == row[1..];
      MarkedAloneRereads(row[1..], text[1..]);
    }
    Table.CleanRowOfPrinted(text[1..]);
  }

  lemma MarkedAloneRereads(rest: Table.Row, s: string)
    requires s == if rest == [] then "" else " " + ShellQuote.Join(rest)
    ensures if RereadRow(rest) == [] then TrimSpace(s) == ""
            else TrimSpace(s) != "" && ShellQuote.Split(TrimSpace(s)) == ShellQuote.Words(RereadRow(rest))
  {
    hide TrimSpace, ShellQuote.Split, ShellQuote.Join, RereadRow, Print, IsSpace;
    if rest == [] {
      TrimSpaceOfSpaces("");
      NothingToReread();
    } else {
      BlankIsSpace();
      assert s == " " + ShellQuote.Join(rest) + "";
      TrimSpaceAround(" ", ShellQuote.Join(rest), "");
      PrintIsJoin(rest);
      Rereads(rest, true);
    }
  }

  lemma NothingToReread()
    ensures RereadRow([]) == []
  {
  }

  // ---------------------------------------------------------------- what was reread keeps the rules

  lemma CutIsClean(w: string)
    requires Table.IsClean(w)
    ensures Table.IsClean(CutLeft(w)) && Table.IsClean(CutRight(w))
  {
    hide Lead, End;
  }

  /** Whatever a printed row reads as reads back. */
  lemma {:induction false} RereadIsKept(row: Table.Row)
    requires forall w <- row :: Table.IsClean(w)
    ensures RereadRow(row) == [] || Table.KeepsRow(RereadRow(row))
  {
    hide IsSpace, Table.IsClean, CutLeft, CutRight, ShellQuote.IsBare, IsGone;
    if row != [] {
      var n := |row| - 1;
      if IsGone(row[0]) {
        RereadIsKept(row[1..]);
      } else if IsGone(row[n]) {
        RereadIsKept(row[..n]);
      } else {
        var _, _, _ := PrintShortened(row, true);
        CutIsClean(row[0]);
        CutIsClean(row[n]);
        CutIsClean(CutLeft(row[0]));
        var short := Shortened(row);
        assert row[0] in row && row[n] in row;
        forall w <- short ensures Table.IsClean(w) {
        }
      }
    }
  }

  // ---------------------------------------------------------------- whole tables

  function RereadOf(row: Table.Row): seq<Table.Row> { OrNone(RereadRow(row)) }

  /** The rows as the file shows them, its own byte order mark stripped. */
  function Shown(rows: seq<Table.Row>): seq<Table.Row>
  {
    if Table.KeepsStart(rows) then rows else [Unmarked(rows[0])] + rows[1..]
  }

  predicate AreClean(rows: seq<Table.Row>) { forall i :: 0 <= i < |rows| ==> Table.IsCleanRow(rows[i]) }

  lemma {:induction false} SameFlat(lines: seq<string>, rows: seq<Table.Row>)
    requires |lines| == |rows| && forall i :: 0 <= i < |rows| ==> Table.ParseLine(lines[i]) == RereadOf(rows[i])
    ensures Flat(Table.ParseLine, lines) == Flat(RereadOf, rows)
  {
    hide Table.ParseLine, RereadOf;
    if rows != [] {
      SameFlat(lines[..|lines| - 1], rows[..|rows| - 1]);
    }
  }

  /** What every printed table of clean rows reads as. */
  lemma TableRereads(rows: seq<Table.Row>)
    requires AreClean(rows)
    ensures Table.Rows(Table.Render(rows)) == Flat(RereadOf, Shown(rows))
  {
    hide ShellQuote.Join, Table.Render, Table.ParseLine, RereadRow, Flat, Table.IsCleanRow;
    forall i | 0 <= i < |rows| ensures Table.IsLine(rows[i]) {
      Table.CleanIsLine(rows[i]);
    }
    var lines := Table.LinesOfFile(rows);
    Table.RowsOfLines(Table.Render(rows), lines);
    forall i | 0 <= i < |rows| ensures Table.ParseLine(lines[i]) == RereadOf(Shown(rows)[i]) {
      assert Table.IsCleanRow(rows[i]);
      if i > 0 || Table.KeepsStart(rows) {
        LineRereads(rows[i]);
      } else {
        MarkedLineRereads(rows[0]);
      }
    }
    SameFlat(lines, Shown(rows));
  }

  lemma ShownIsClean(rows: seq<Table.Row>, row: Table.Row)
    requires AreClean(rows) && row in Shown(rows)
    ensures forall w <- row :: Table.IsClean(w)
  {
    if row !in rows {
      assert row == Unmarked(rows[0]);
      assert Table.IsClean(rows[0][0][1..]) by { assert rows[0][0] in rows[0]; }
      forall w <- row ensures Table.IsClean(w) {
        assert w == rows[0][0][1..] || w in rows[0];
      }
    }
  }

  /** Whatever is read from a printed table of clean rows reads back. */
  lemma ReadIsKept(rows: seq<Table.Row>, row: Table.Row)
    requires AreClean(rows) && row in Table.Rows(Table.Render(rows))
    ensures Table.KeepsRow(row)
  {
    hide Table.Rows, Table.Render, AreClean, Shown, Table.KeepsRow, Flat;
    TableRereads(rows);
    FlatMember(RereadOf, Shown(rows), row);
    var shown :| shown in Shown(rows) && row in RereadOf(shown);
    ShownIsClean(rows, shown);
    RereadIsKept(shown);
  }

  /** A row that keeps the rules reads as itself, and a stripped one as something else. */
  lemma RereadsItself(row: Table.Row)
    requires Table.IsCleanRow(row)
    ensures RereadRow(row) == row <==> Table.KeepsRow(row)
    ensures ShellQuote.IsBare(row[0]) && row[0][0] == BOM ==> RereadRow(Unmarked(row)) != row
  {
    hide Table.ParseLine, ShellQuote.Join, Table.KeepsRow, RereadRow;
    LineRereads(row);
    Table.LineReadsBack(row);
    if ShellQuote.IsBare(row[0]) && row[0][0] == BOM {
      MarkedLineRereads(row);
      Table.BomRowIsLost(row);
    }
  }
}
