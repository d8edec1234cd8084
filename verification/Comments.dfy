/**
 Comments and white space in a policy file (policy/files/table.go): neither changes what a line or a
 file reads as, for the reader of rows and for the reader with details.
 */
module Comments {
  import opened Text
  import ShellQuote
  import Table
  import Policy

  // ---------------------------------------------------------------- one line

  /** Between white space and in front of a comment stands what is read. */
  lemma CleanOfText(lead: string, core: string, tail: string, comment: string)
    requires AllSpaces(lead) && AllSpaces(tail) && '#' !in lead + core + tail
    requires core == "" || (!IsSpace(core[0]) && !IsSpace(core[|core| - 1]))
    ensures Table.CleanRow(lead + core + tail) == core
    ensures Table.CleanRow(lead + core + tail + "#" + comment) == core
  {
    var text := lead + core + tail;
    SplitWithoutSeparator(text, '#');
    SplitCons(text, comment, '#');
    assert text + "#" + comment == text + ['#'] + comment;
    hide IsSpace, TrimSpace, Split;
    if core == "" {
      TrimSpaceOfSpaces(text);
    } else {
      TrimSpaceBetween(lead, core, tail);
    }
  }

  /** A line reads the same with a comment behind it. */
  lemma CommentIsIgnored(text: string, comment: string)
    requires '#' !in text
    ensures Table.ParseLine(text + "#" + comment) == Table.ParseLine(text)
    ensures var details, plain := Table.DetailsOf(text + "#" + comment), Table.DetailsOf(text);
            && details.columns == plain.columns && details.empty == plain.empty && details.error == plain.error
            && details.content == text + "#" + comment
  {
    SameHeadSameClean(text, comment);
    hide Table.CleanRow, ShellQuote.Split;
  }

  lemma SameHeadSameClean(text: string, comment: string)
    requires '#' !in text
    ensures Table.CleanRow(text + "#" + comment) == Table.CleanRow(text)
  {
    SplitWithoutSeparator(text, '#');
    SplitCons(text, comment, '#');
    assert text + "#" + comment == text + ['#'] + comment;
  }

  /** And with white space around it, a carriage return at the end included. */
  lemma SpaceIsIgnored(lead: string, text: string, tail: string)
    requires AllSpaces(lead) && AllSpaces(tail) && '#' !in lead + text + tail
    ensures Table.ParseLine(lead + text + tail) == Table.ParseLine(text)
  {
    SplitWithoutSeparator(lead + text + tail, '#');
    SplitWithoutSeparator(text, '#');
    TrimSpaceAround(lead, text, tail);
    hide TrimSpace, Split, ShellQuote.Split, IsSpace;
  }

  /** A line of white space and comments has no row, and is no error. */
  lemma EmptyLine(lead: string, comment: string)
    requires AllSpaces(lead) && '#' !in lead
    ensures Table.ParseLine(lead) == [] && Table.ParseLine(lead + "#" + comment) == []
    ensures Table.DetailsOf(lead).empty && Table.DetailsOf(lead + "#" + comment).empty
  {
    CleanOfText(lead, "", "", comment);
    assert lead + "" + "" == lead;
    hide Table.CleanRow, ShellQuote.Split;
  }

  // ---------------------------------------------------------------- whole files

  /** A line up to its comment. */
  function Uncommented(line: string): string
  {
    if line == "" || line[0] == '#' then "" else [line[0]] + Uncommented(line[1..])
  }

  /** A file without its comments. */
  function WithoutComments(content: string, inComment: bool): string
  {
    if content == "" then ""
    else if content[0] == '\n' then "\n" + WithoutComments(content[1..], false)
    else if inComment || content[0] == '#' then WithoutComments(content[1..], true)
    else [content[0]] + WithoutComments(content[1..], false)
  }

  function Each(lines: seq<string>): seq<string>
  {
    if lines == [] then [] else [Uncommented(lines[0])] + Each(lines[1..])
  }

  lemma {:induction false} LinesWithoutComments(content: string, inComment: bool)
    ensures var lines := Split(content, '\n');
            Split(WithoutComments(content, inComment), '\n') ==
            [if inComment then "" else Uncommented(lines[0])] + Each(lines[1..])
    decreases |content|
  {
    hide Split;
    if content == "" {
      NothingToSplit();
    } else {
      assert [content[0]] + content[1..] == content;
      SplitBehind(content[0], content[1..], '\n');
      var next := inComment || content[0] == '#';
      if content[0] == '\n' {
        LinesWithoutComments(content[1..], false);
        SplitBehind('\n', WithoutComments(content[1..], false), '\n');
        assert Split(content, '\n')[1..] == Split(content[1..], '\n');
        assert Each(Split(content[1..], '\n')) ==
               [Uncommented(Split(content[1..], '\n')[0])] + Each(Split(content[1..], '\n')[1..]);
      } else if next {
        LinesWithoutComments(content[1..], true);
      } else {
        LinesWithoutComments(content[1..], false);
        SplitBehind(content[0], WithoutComments(content[1..], false), '\n');
        var first := Split(content[1..], '\n')[0];
        assert ([content[0]] + first)[1..] == first;
      }
    }
  }

  lemma NothingToSplit()
    ensures Split("", '\n') == [""]
  {
  }

  lemma {:induction false} UncommentedIs(line: string)
    ensures '#' !in Uncommented(line)
    ensures line == Uncommented(line) || exists comment :: line == Uncommented(line) + "#" + comment
  {
    if line != "" && line[0] != '#' {
      UncommentedIs(line[1..]);
      var rest := Uncommented(line[1..]);
      if line[1..] == rest {
        assert line == [line[0]] + rest;
      } else {
        var comment :| line[1..] == rest + "#" + comment;
        assert line == [line[0]] + rest + "#" + comment;
      }
    } else if line != "" {
      assert line == "" + "#" + line[1..];
    }
  }

  /** A line reads as it does without its comment. */
  lemma LineWithoutComment(line: string)
    ensures Table.ParseLine(Uncommented(line)) == Table.ParseLine(line)
    ensures var details, plain := Table.DetailsOf(line), Table.DetailsOf(Uncommented(line));
            details.columns == plain.columns && details.empty == plain.empty && details.error == plain.error
  {
    hide Table.ParseLine, Table.DetailsOf, Uncommented;
    UncommentedIs(line);
    if line != Uncommented(line) {
      var comment :| line == Uncommented(line) + "#" + comment;
      CommentIsIgnored(Uncommented(line), comment);
    }
  }

  lemma {:induction false} SameRows(lines: seq<string>)
    ensures Flat(Table.ParseLine, Each(lines)) == Flat(Table.ParseLine, lines)
  {
    hide Table.ParseLine, Uncommented, Flat;
    if lines != [] {
      SameRows(lines[1..]);
      FlatCons(Table.ParseLine, lines[0], lines[1..]);
      FlatCons(Table.ParseLine, Uncommented(lines[0]), Each(lines[1..]));
      LineWithoutComment(lines[0]);
      assert [lines[0]] + lines[1..] == lines;
    }
  }

  /** A file reads as it does without its comments, and so do its grants. */
  lemma CommentsAreIgnored(content: string)
    ensures Table.Rows(WithoutComments(content, false)) == Table.Rows(content)
    ensures Policy.UsersOf(WithoutComments(content, false)) == Policy.UsersOf(content)
  {
    hide Table.ParseLine, Split, Flat, Uncommented;
    var s := Table.StripBom(content);
    BomBeforeComments(content);
    LinesWithoutComments(s, false);
    var lines := Split(s, '\n');
    assert Each(lines) == [Uncommented(lines[0])] + Each(lines[1..]);
    SameRows(lines);
  }

  lemma BomBeforeComments(content: string)
    ensures Table.StripBom(WithoutComments(content, false)) == WithoutComments(Table.StripBom(content), false) ||
            Table.StripBom(content) == content
    ensures Table.StripBom(content) == content ==>
              Table.StripBom(WithoutComments(content, false)) == WithoutComments(content, false)
  {
    if content != "" && content[0] == BOM {
      assert WithoutComments(content, false) == [BOM] + WithoutComments(content[1..], false);
    } else if content != "" && content[0] == '#' {
      AfterComment(content[1..]);
    }
  }

  /** What follows a comment starts on the next line. */
  lemma {:induction false} AfterComment(s: string)
    ensures WithoutComments(s, true) == "" || WithoutComments(s, true)[0] == '\n'
  {
    if s != "" && s[0] != '\n' {
      AfterComment(s[1..]);
    }
  }

  /** A byte order mark at the start of a file, and no other, is as if it were not there. */
  lemma MarkIsStripped(content: string)
    ensures Table.Rows([BOM] + content) == Flat(Table.ParseLine, Split(content, '\n'))
    ensures content == "" || content[0] != BOM ==> Table.Rows([BOM] + content) == Table.Rows(content)
  {
    hide Table.ParseLine, Split;
    assert ([BOM] + content)[1..] == content;
  }
}
