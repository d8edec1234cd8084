/**
 The audit command's reading of a policy file (commands/audit.go): line by line, with line numbers.
 The main result is that it sees what the whole-file reader sees.
 */
module Audit {
  import opened Text
  import ShellQuote
  import Table
  import Policy

  datatype Status = Success | Warning | Error

  datatype Reason = Unparsable(cause: ShellQuote.Cause) | Rejected(problem: Policy.Problem) | Validated

  /** One result; a line that fails to parse or is rejected has no grant to show. */
  datatype Result = Result(status: Status, grant: Table.Row, reason: Reason, line: nat)

  /** PolicyValidator.ValidateEntry: some status for every grant. */
  type Validator = Table.Row -> Status

  function Check(validate: Validator, number: nat): Table.Row -> seq<Result>
  {
    (grant: Table.Row) => [Result(validate(grant), grant, Validated, number)]
  }

  /** What the audit reports about a line. */
  function LineReport(validate: Validator, line: string, number: nat): seq<Result>
  {
    var details := Table.DetailsOf(line);
    if details.empty then []
    else if details.error.Some? then [Result(Error, [], Unparsable(details.error.value), number)]
    else
      var problems := Policy.ProblemsOf(line);
      if problems != [] then [Result(Error, [], Rejected(problems[0]), number)]
      else Flat(Check(validate, number), Policy.RowsOf(Policy.UsersOf(line)))
  }

  function Report(validate: Validator, lines: seq<string>): seq<Result>
  {
    if lines == [] then []
    else Report(validate, lines[..|lines| - 1]) + LineReport(validate, lines[|lines| - 1], |lines|)
  }

  method AuditPolicyFile(content: string, validate: Validator) returns (results: seq<Result>)
    ensures results == Report(validate, Split(content, '\n'))
  {
    hide LineReport, Table.Each, Table.DetailsOf, Split, Report;
    ghost var lines := Split(content, '\n');
    var details := Table.ReadRowsWithDetails(content);
    Table.EachAt(lines, 0);
    results := [];
    NoLines(validate);
    assert lines[..0] == [];
    for i := 0 to |details|
      invariant results == Report(validate, lines[..i])
    {
      assert lines[..i + 1][..i] == lines[..i];
      ReportStep(validate, lines[..i + 1]);
      Table.EachAt(lines, i);
      var more := AuditLine(details[i], validate, i + 1, lines[i]);
      results := results + more;
    }
    assert lines[..|lines|] == lines;
  }

  /** One turn of the loop over the lines. */
  method AuditLine(details: Table.RowDetails, validate: Validator, number: nat, ghost line: string)
    returns (results: seq<Result>)
    requires details == Table.DetailsOf(line)
    ensures results == LineReport(validate, line, number)
  {
    Table.DetailsContent(line);
    hide Table.DetailsOf, Policy.UsersOf, Policy.ProblemsOf, Policy.RowsOf;
    if details.empty {
      return [];
    }
    if details.error.Some? {
      return [Result(Error, [], Unparsable(details.error.value), number)];
    }
    var policy, problems := Policy.FromTable(details.content);
    if |problems| > 0 {
      return [Result(Error, [], Rejected(problems[0]), number)];
    }
    results := ValidateUsers(policy.users, validate, number);
  }

  /** The loop over the entries of a line, and inside it the loop over principals. */
  method ValidateUsers(users: seq<Policy.User>, validate: Validator, number: nat) returns (results: seq<Result>)
    ensures results == Flat(Check(validate, number), Policy.RowsOf(users))
  {
    hide Policy.RowsOfUser;
    results := [];
    var check := Check(validate, number);
    for i := 0 to |users|
      invariant results == Flat(check, Policy.RowsOf(users[..i]))
    {
      FlatStep(Policy.RowsOfUser, users, i);
      FlatAppend(check, Policy.RowsOf(users[..i]), Policy.RowsOfUser(users[i]));
      var more := ValidatePrincipals(users[i], validate, number);
      results := results + more;
    }
    assert users[..|users|] == users;
  }

  method ValidatePrincipals(user: Policy.User, validate: Validator, number: nat) returns (results: seq<Result>)
    ensures results == Flat(Check(validate, number), Policy.RowsOfUser(user))
  {
    results := [];
    var check, rowOf := Check(validate, number), Policy.RowOfPrincipal(user);
    for j := 0 to |user.principals|
      invariant results == Flat(check, Flat(rowOf, user.principals[..j]))
    {
      FlatStep(rowOf, user.principals, j);
      var grant := [user.principals[j], user.identity, user.issuer];
      FlatAppend(check, Flat(rowOf, user.principals[..j]), [grant]);
      FlatCons(check, grant, []);
      results := results + [Result(validate(grant), grant, Validated, number)];
    }
    assert user.principals[..|user.principals|] == user.principals;
  }

  // ---------------------------------------------------------------- one line, two readers

  /** What a line deserves: at most one result, an error unless the line is one grant. */
  function Verdict(validate: Validator, line: string, number: nat): seq<Result>
  {
    var clean := Table.CleanRow(line);
    if clean == "" then []
    else
      match ShellQuote.Split(clean)
      case Unterminated(cause) => [Result(Error, [], Unparsable(cause), number)]
      case Words(row) =>
        if Policy.IsGrant(row) then [Result(validate(row), row, Validated, number)]
        else [Result(Error, [], Rejected(Policy.ProblemOfRow(row)[0]), number)]
  }

  lemma StripBomFree(line: string)
    requires '\n' !in line
    ensures '\n' !in Table.StripBom(line) && Table.Rows(line) == Table.ParseLine(Table.StripBom(line))
  {
    var s := Table.StripBom(line);
    SplitWithoutSeparator(s, '\n');
    FlatCons(Table.ParseLine, s, []);
  }

  /** A line behind a byte order mark: the mark, spaces and the line without it. */
  lemma CleanBehindBom(line: string) returns (spaces: string)
    requires line != "" && line[0] == BOM && '\n' !in line
    ensures Table.CleanRow(line) == [BOM] + spaces + Table.CleanRow(line[1..])
    ensures AllSpaces(spaces) && '\n' !in spaces && '\n' !in Table.CleanRow(line[1..])
  {
    hide IsSpace, Split, TrimSpace;
    var head := Split(line[1..], '#')[0];
    SplitBehind(BOM, line[1..], '#');
    assert line == [BOM] + line[1..];
    SplitHeadIsPrefix(line[1..], '#');
    BomIsVisible();
    spaces := TrimSpaceBehind(BOM, head);
    TrimSpaceFree(head, '\n');
  }

  /** The details of a line behind a byte order mark. */
  lemma DetailsBehindBom(line: string)
    requires line != "" && line[0] == BOM && '\n' !in line
    ensures var details, s := Table.DetailsOf(line), Table.CleanRow(line[1..]);
            && !details.empty && (s == "" ==> details.error == None)
            && (s != "" ==> details.error == ShellQuote.CauseOf(ShellQuote.Split(s)))
  {
    hide Table.CleanRow, ShellQuote.Split;
    var spaces := CleanBehindBom(line);
    ShellQuote.SplitBehindBom(spaces, Table.CleanRow(line[1..]));
    ShellQuote.SplitNothing();
  }

  lemma BomIsVisible()
    ensures !IsSpace(BOM)
  {
  }

  lemma DetailsOfPlain(line: string)
    ensures var details, s := Table.DetailsOf(line), Table.CleanRow(line);
            && (details.empty <==> s == "")
            && (s != "" ==> details.error == ShellQuote.CauseOf(ShellQuote.Split(s)))
  {
  }

  /** The audit judges every line as it stands without its byte order mark. */
  lemma LineReportIsVerdict(validate: Validator, line: string, number: nat)
    requires '\n' !in line
    ensures LineReport(validate, line, number) == Verdict(validate, Table.StripBom(line), number)
  {
    hide Table.DetailsOf, Table.CleanRow, ShellQuote.Split, Policy.RowsOf, Table.Rows;
    var s := Table.StripBom(line);
    var clean := Table.CleanRow(s);
    StripBomFree(line);
    if s != line {
      DetailsBehindBom(line);
    } else {
      DetailsOfPlain(line);
    }
    hide Table.StripBom;
    LineUsers(s);
    if Table.ParseLine(s) != [] {
      FlatCons(Check(validate, number), Table.ParseLine(s)[0], []);
    }
  }

  /** The entries and problems of a file of one line. */
  lemma LineUsers(line: string)
    ensures Flat(Policy.ProblemOfRow, Table.ParseLine(line)) ==
            (if Table.ParseLine(line) == [] then [] else Policy.ProblemOfRow(Table.ParseLine(line)[0]))
    ensures Policy.RowsOf(Flat(Policy.UserOfRow, Table.ParseLine(line))) ==
            (if Table.ParseLine(line) == [] then [] else Policy.KeepGrant(Table.ParseLine(line)[0]))
  {
    hide Table.ParseLine, Flat, Policy.RowsOf, Policy.ProblemOfRow, Policy.KeepGrant;
    var rows := Table.ParseLine(line);
    Policy.RowsOfUsers(rows);
    FlatNone(Policy.ProblemOfRow);
    FlatNone(Policy.KeepGrant);
    if rows != [] {
      assert rows == [rows[0]];
      FlatOne(Policy.ProblemOfRow, rows[0]);
      FlatOne(Policy.KeepGrant, rows[0]);
    }
  }

  // ---------------------------------------------------------------- the whole file

  function GrantOf(result: Result): seq<Table.Row>
  {
    if result.reason.Validated? then [result.grant] else []
  }

  /** The grants that the audit passes to validation, in order. */
  function Audited(results: seq<Result>): seq<Table.Row> { Flat(GrantOf, results) }

  function AtLine(number: nat): Result -> seq<Result>
  {
    (result: Result) => if result.line == number then [result] else []
  }

  /** The results that carry a line number. */
  function ResultsAt(results: seq<Result>, number: nat): seq<Result> { Flat(AtLine(number), results) }

  lemma AuditedLine(validate: Validator, line: string, number: nat)
    requires '\n' !in line
    ensures Audited(LineReport(validate, line, number)) == Policy.LineGrants(Table.StripBom(line))
  {
    hide LineReport, Verdict, Policy.LineGrants, Table.StripBom, Flat;
    LineReportIsVerdict(validate, line, number);
    AuditedVerdict(validate, Table.StripBom(line), number);
  }

  lemma AuditedVerdict(validate: Validator, line: string, number: nat)
    ensures Audited(Verdict(validate, line, number)) == Policy.LineGrants(line)
  {
    hide Table.CleanRow, ShellQuote.Split, Flat, Policy.ProblemOfRow;
    var verdict, rows := Verdict(validate, line, number), Table.ParseLine(line);
    FlatNone(GrantOf);
    FlatNone(Policy.KeepGrant);
    if rows != [] {
      assert rows == [rows[0]];
      FlatOne(Policy.KeepGrant, rows[0]);
    }
    if verdict != [] {
      assert verdict == [verdict[0]];
      FlatOne(GrantOf, verdict[0]);
    }
  }

  lemma {:induction false} AuditedLines(validate: Validator, lines: seq<string>, judged: seq<string>)
    requires |judged| == |lines|
    requires forall i :: 0 <= i < |lines| ==> '\n' !in lines[i] && judged[i] == Table.StripBom(lines[i])
    ensures Audited(Report(validate, lines)) == Flat(Policy.LineGrants, judged)
  {
    hide Policy.LineGrants, LineReport, Table.StripBom;
    if lines != [] {
      var n := |lines| - 1;
      AuditedLines(validate, lines[..n], judged[..n]);
      AuditedLine(validate, lines[n], n + 1);
      FlatAppend(GrantOf, Report(validate, lines[..n]), LineReport(validate, lines[n], n + 1));
    }
  }

  lemma {:induction false} ReportLines(validate: Validator, lines: seq<string>)
    requires forall i :: 0 <= i < |lines| ==> '\n' !in lines[i]
    ensures forall result <- Report(validate, lines) :: 1 <= result.line <= |lines|
  {
    if lines != [] {
      var n := |lines| - 1;
      ReportLines(validate, lines[..n]);
      hide Report, LineReport, Verdict;
      LineReportIsVerdict(validate, lines[n], n + 1);
      VerdictLine(validate, Table.StripBom(lines[n]), n + 1);
      ReportStep(validate, lines);
    }
  }

  lemma NoLines(validate: Validator)
    ensures Report(validate, []) == []
  {
  }

  lemma ReportStep(validate: Validator, lines: seq<string>)
    requires lines != []
    ensures Report(validate, lines) ==
            Report(validate, lines[..|lines| - 1]) + LineReport(validate, lines[|lines| - 1], |lines|)
  {
  }

  lemma VerdictLine(validate: Validator, line: string, number: nat)
    ensures forall result <- Verdict(validate, line, number) :: result.line == number
    ensures |Verdict(validate, line, number)| <= 1
  {
  }

  lemma {:induction false} AllAtLine(results: seq<Result>, number: nat)
    requires forall i :: 0 <= i < |results| ==> results[i].line == number
    ensures ResultsAt(results, number) == results
  {
    if results != [] {
      var n := |results| - 1;
      AllAtLine(results[..n], number);
      assert results == results[..n] + [results[n]];
    }
  }

  lemma {:induction false} NoneAtLine(results: seq<Result>, number: nat)
    requires forall i :: 0 <= i < |results| ==> results[i].line != number
    ensures ResultsAt(results, number) == []
  {
    if results != [] {
      NoneAtLine(results[..|results| - 1], number);
    }
  }

  /** The results at a line number are the verdict on that line. */
  lemma {:induction false} ResultsAtLine(validate: Validator, lines: seq<string>, number: nat)
    requires forall i :: 0 <= i < |lines| ==> '\n' !in lines[i]
    requires 1 <= number <= |lines|
    ensures ResultsAt(Report(validate, lines), number) ==
            Verdict(validate, Table.StripBom(lines[number - 1]), number)
  {
    hide LineReport, Verdict, Table.StripBom, Flat, Report;
    var n := |lines| - 1;
    var before, last := Report(validate, lines[..n]), LineReport(validate, lines[n], n + 1);
    ReportStep(validate, lines);
    FlatAppend(AtLine(number), before, last);
    LineReportIsVerdict(validate, lines[n], n + 1);
    VerdictLine(validate, Table.StripBom(lines[n]), n + 1);
    if number == n + 1 {
      ReportLines(validate, lines[..n]);
      NoneAtLine(before, number);
      AllAtLine(last, number);
    } else {
      NoneAtLine(last, number);
      ResultsAtLine(validate, lines[..n], number);
      assert lines[..n][number - 1] == lines[number - 1];
    }
  }

  /** With and without its byte order mark a line never reads as the same grant. */
  lemma MarkedGrantDiffers(line: string)
    requires line != "" && line[0] == BOM && '\n' !in line
    ensures Policy.LineGrants(line) == Policy.LineGrants(line[1..]) <==>
            Policy.LineGrants(line) == [] && Policy.LineGrants(line[1..]) == []
  {
    hide Table.CleanRow, ShellQuote.Split, Policy.IsGrant, Flat, ShellQuote.Odds, ShellQuote.OddsIn;
    var a, b := Table.CleanRow(line), Table.CleanRow(line[1..]);
    var spaces := CleanBehindBom(line);
    ShellQuote.OddsAppend([BOM] + spaces, b);
    ShellQuote.OddsAppend([BOM], spaces);
    BomIsOdd();
    ShellQuote.SplitOdds(a);
    ShellQuote.SplitOdds(b);
    GrantsOfLine(line);
    GrantsOfLine(line[1..]);
  }

  lemma BomIsOdd()
    ensures ShellQuote.Odds([BOM]) == 1
  {
  }

  lemma GrantsOfLine(line: string)
    ensures var clean := Table.CleanRow(line);
            Policy.LineGrants(line) ==
            if clean != "" && ShellQuote.Split(clean).Words? && Policy.IsGrant(ShellQuote.Split(clean).words)
            then [ShellQuote.Split(clean).words] else []
  {
    hide Table.CleanRow, ShellQuote.Split, Policy.IsGrant, Flat;
    var rows := Table.ParseLine(line);
    FlatNone(Policy.KeepGrant);
    if rows != [] {
      assert rows == [rows[0]];
      FlatOne(Policy.KeepGrant, rows[0]);
    }
  }

  /**
   The grants that the audit validates at each line number are those that the whole-file reader finds
   on that line.
   */
  ghost predicate AgreeByLine(content: string, validate: Validator)
  {
    var lines, read := Split(content, '\n'), Policy.FileLines(content);
    |lines| == |read| && forall i :: 0 <= i < |lines| ==>
      Audited(ResultsAt(Report(validate, lines), i + 1)) == Policy.LineGrants(read[i])
  }

  /** No line after the first is a grant behind a byte order mark, counting the mark or not. */
  predicate NoLaterMarkedGrant(lines: seq<string>)
  {
    forall i :: 0 < i < |lines| ==>
      (lines[i] != "" && lines[i][0] == BOM ==>
          Policy.LineGrants(lines[i]) == [] && Policy.LineGrants(lines[i][1..]) == [])
  }

  /** What the audit validates at a line number. */
  lemma AuditedAt(content: string, validate: Validator, i: nat)
    requires i < |Split(content, '\n')|
    ensures var lines := Split(content, '\n');
            Audited(ResultsAt(Report(validate, lines), i + 1)) == Policy.LineGrants(Table.StripBom(lines[i]))
  {
    hide Split, Report, Verdict, Policy.LineGrants, Flat, Table.StripBom;
    var lines := Split(content, '\n');
    ResultsAtLine(validate, lines, i + 1);
    AuditedVerdict(validate, Table.StripBom(lines[i]), i + 1);
  }

  /** A later line is read alike by both exactly if it is no grant behind a byte order mark. */
  lemma AgreeAt(line: string)
    requires '\n' !in line
    ensures Policy.LineGrants(Table.StripBom(line)) == Policy.LineGrants(line) <==>
            (line != "" && line[0] == BOM ==> Policy.LineGrants(line) == [] && Policy.LineGrants(line[1..]) == [])
  {
    hide Policy.LineGrants;
    if line != "" && line[0] == BOM {
      MarkedGrantDiffers(line);
    }
  }

  /**
   The two readers agree on every line if and only if no later line is a grant behind a byte order
   mark; and then the grants that the audit validates are those of the whole file, in order.
   */
  lemma TwoReadersAgree(content: string, validate: Validator)
    ensures AgreeByLine(content, validate) <==> NoLaterMarkedGrant(Split(content, '\n'))
    ensures NoLaterMarkedGrant(Split(content, '\n')) ==>
              Audited(Report(validate, Split(content, '\n'))) == Policy.RowsOf(Policy.UsersOf(content))
  {
    hide Flat, Report, Split, Policy.LineGrants, Table.StripBom, Policy.RowsOf, Policy.UsersOf, ResultsAt, Audited;
    var lines, read := Split(content, '\n'), Policy.FileLines(content);
    Policy.LinesWithoutBom(content);
    Policy.FileGrants(content);
    forall i | 0 <= i < |lines|
      ensures Audited(ResultsAt(Report(validate, lines), i + 1)) == Policy.LineGrants(Table.StripBom(lines[i]))
      ensures read[i] == if i == 0 then Table.StripBom(lines[0]) else lines[i]
      ensures Policy.LineGrants(Table.StripBom(lines[i])) == Policy.LineGrants(lines[i]) <==>
              (lines[i] != "" && lines[i][0] == BOM ==>
                  Policy.LineGrants(lines[i]) == [] && Policy.LineGrants(lines[i][1..]) == [])
    {
      AuditedAt(content, validate, i);
      AgreeAt(lines[i]);
    }
    if NoLaterMarkedGrant(lines) {
      var judged := seq(|lines|, i requires 0 <= i < |lines| => Table.StripBom(lines[i]));
      AuditedLines(validate, lines, judged);
      Policy.SameByLine(judged, read);
    }
  }

  /**
   Every line that does not parse or is rejected has exactly one result, an error with its number and
   reason; every other line has none or is what validation says of its grant.
   */
  lemma BadLinesAreReported(content: string, validate: Validator, number: nat)
    requires 1 <= number <= |Split(content, '\n')|
    ensures var results := ResultsAt(Report(validate, Split(content, '\n')), number);
            var line := Table.StripBom(Split(content, '\n')[number - 1]);
            var row := Table.CleanRow(line);
            var parsed := ShellQuote.Split(row);
            var bad := row != "" && (parsed.Unterminated? || !Policy.IsGrant(parsed.words));
            && |results| == (if row == "" then 0 else 1)
            && (bad <==> results != [] && results[0].status == Error && !results[0].reason.Validated?)
            && (row != "" && parsed.Unterminated? ==> results == [Result(Error, [], Unparsable(parsed.cause), number)])
            && (row != "" && parsed.Words? && |parsed.words| != 3 ==>
                  results == [Result(Error, [], Rejected(Policy.WrongNumberOfArguments(
                    Join(parsed.words, " "), |parsed.words|)), number)])
            && (row != "" && parsed.Words? && |parsed.words| == 3 && parsed.words[1] == "" ==>
                  results == [Result(Error, [], Rejected(Policy.EmptyIdentity(Join(parsed.words, " "))), number)])
            && (row != "" && parsed.Words? && |parsed.words| == 3 && parsed.words[1] != "" ==>
                  results == [Result(validate(parsed.words), parsed.words, Validated, number)])
  {
    ResultsAtLine(validate, Split(content, '\n'), number);
  }

  /** With a byte order mark in front of its second line the readers see different grants. */
  lemma LaterBomDivides(grant: Table.Row, validate: Validator)
    requires Policy.IsGrant(grant) && Table.KeepsRow(grant)
    requires ShellQuote.IsBare(grant[0]) && grant[0][0] != '~'
    ensures var content := "\n" + [BOM] + ShellQuote.Join(grant);
            && Audited(Report(validate, Split(content, '\n'))) == [grant]
            && Policy.RowsOf(Policy.UsersOf(content)) == [grant[0 := [BOM] + grant[0]]]
  {
    hide IsSpace, ShellQuote.Join, Flat, Table.ParseLine, Report, Table.KeepsRow, ShellQuote.IsBare;
    var text := ShellQuote.Join(grant);
    var line := [BOM] + text;
    var content := "\n" + [BOM] + text;
    var marked := grant[0 := [BOM] + grant[0]];
    Table.KeptRowIsClean(grant);
    Table.JoinIsClean(grant);
    assert content == "" + ['\n'] + line;
    SplitCons("", line, '\n');
    SplitWithoutSeparator(line, '\n');
    assert Split(content, '\n') == ["", line];
    hide Split;
    AuditedLines(validate, ["", line], ["", text]);
    Table.LineReadsBack(grant);
    ShellQuote.JoinBehindBom(grant);
    MarkedIsKept(grant);
    Table.LineReadsBack(marked);
    TwoLines(text);
    TwoLines(line);
    Policy.RowsOfUsers(Table.Rows(content));
    Policy.FlatOfFlat(["", line]);
  }

  lemma BlankInFront(line: string)
    ensures Policy.LineGrants(" " + line) == Policy.LineGrants(line)
  {
    hide Split, TrimSpace, Policy.LineGrants, ShellQuote.Split;
    SplitBehind(' ', line, '#');
    var head := Split(line, '#')[0];
    assert AllSpaces(" ") && " " + head + "" == " " + head;
    TrimSpaceAround(" ", head, "");
    GrantsOfLine(" " + line);
    GrantsOfLine(line);
  }

  /** A row behind a field that is nothing but a byte order mark. */
  function Marked(row: Table.Row): Table.Row { [[BOM]] + row }

  lemma MarkInFront(row: Table.Row)
    requires Table.KeepsRow(row)
    ensures Table.KeepsRow(Marked(row)) && ShellQuote.Join(Marked(row)) == [BOM] + " " + ShellQuote.Join(row)
  {
    var marked := Marked(row);
    assert marked[1..] == row && marked[|marked| - 1] == row[|row| - 1];
    BomStandsAlone();
    hide ShellQuote.QuoteWord, ShellQuote.IsBare;
    forall w <- marked ensures Table.IsClean(w) {
      assert w == [BOM] || w in row;
    }
  }

  lemma BomStandsAlone()
    ensures ShellQuote.QuoteWord([BOM]) == [BOM] && Table.IsClean([BOM]) && !Table.IsOddSpace(BOM)
  {
    assert [BOM][1..] == [] && ShellQuote.Escaped([], false) == [];
    assert ShellQuote.EscapeLead(BOM, true) == [BOM];
    assert ShellQuote.Escaped([BOM], true) == [BOM] + [];
  }

  lemma PrintedGrants(row: Table.Row)
    requires Table.KeepsRow(row)
    ensures Policy.LineGrants(ShellQuote.Join(row)) == Policy.KeepGrant(row) && '\n' !in ShellQuote.Join(row)
  {
    Table.KeptRowIsClean(row);
    hide Table.KeepsRow, ShellQuote.Join, Table.ParseLine, Flat;
    Table.JoinIsClean(row);
    Table.LineReadsBack(row);
    FlatOne(Policy.KeepGrant, row);
  }

  /** In sequence two such lines can make up for each other: the grants of the file agree, those of the lines do not. */
  lemma MarkedLinesMakeUp(identity: string, issuer: string, validate: Validator)
    requires identity != "" && Table.KeepsRow([identity, issuer])
    ensures var grant := Marked([identity, issuer]);
            var content := "\n" + ShellQuote.Join(Marked(grant)) + "\n" + ShellQuote.Join(grant);
            && Audited(Report(validate, Split(content, '\n'))) == Policy.RowsOf(Policy.UsersOf(content)) == [grant]
            && !AgreeByLine(content, validate)
  {
    hide Table.KeepsRow, ShellQuote.Join, Flat, Policy.LineGrants, Report, Policy.RowsOf, Policy.UsersOf, Split;
    var pair := [identity, issuer];
    var grant := Marked(pair);
    var four, three, two := ShellQuote.Join(Marked(grant)), ShellQuote.Join(grant), ShellQuote.Join(pair);
    MarkInFront(pair);
    MarkInFront(grant);
    PrintedGrants(pair);
    PrintedGrants(grant);
    PrintedGrants(Marked(grant));
    BlankInFront(three);
    BlankInFront(two);
    assert four[1..] == " " + three && three[1..] == " " + two;
    var content := "\n" + four + "\n" + three;
    assert content == "" + ['\n'] + (four + ['\n'] + three);
    SplitCons("", four + ['\n'] + three, '\n');
    SplitCons(four, three, '\n');
    SplitWithoutSeparator(three, '\n');
    var lines := ["", four, three];
    assert Split(content, '\n') == lines;
    MakeUp(content, lines, grant, validate);
  }

  lemma MakeUp(content: string, lines: seq<string>, grant: Table.Row, validate: Validator)
    requires Split(content, '\n') == lines && |lines| == 3 && lines[0] == ""
    requires lines[1] != "" && lines[1][0] == BOM && Policy.LineGrants(lines[1]) == [] &&
             Policy.LineGrants(lines[1][1..]) == [grant]
    requires lines[2] != "" && lines[2][0] == BOM && Policy.LineGrants(lines[2]) == [grant] &&
             Policy.LineGrants(lines[2][1..]) == []
    ensures Audited(Report(validate, lines)) == Policy.RowsOf(Policy.UsersOf(content)) == [grant]
    ensures !AgreeByLine(content, validate)
  {
    hide Flat, Policy.LineGrants, Report, Policy.RowsOf, Policy.UsersOf, Split, AgreeByLine;
    EmptyLineHasNoGrant();
    AuditedLines(validate, lines, ["", lines[1][1..], lines[2][1..]]);
    ThreeLines("", lines[1][1..], lines[2][1..]);
    Policy.LinesWithoutBom(content);
    assert Policy.FileLines(content) == ["", lines[1], lines[2]];
    Policy.FileGrants(content);
    ThreeLines("", lines[1], lines[2]);
    TwoReadersAgree(content, validate);
  }

  lemma EmptyLineHasNoGrant()
    ensures Policy.LineGrants("") == []
  {
    Table.EmptyLineHasNoRow();
  }

  lemma ThreeLines(a: string, b: string, c: string)
    ensures Flat(Policy.LineGrants, [a, b, c]) == Policy.LineGrants(a) + Policy.LineGrants(b) + Policy.LineGrants(c)
  {
    hide Flat, Policy.LineGrants;
    assert [a, b, c] == [a] + ([b] + [c]);
    FlatAppend(Policy.LineGrants, [a], [b] + [c]);
    FlatAppend(Policy.LineGrants, [b], [c]);
    FlatOne(Policy.LineGrants, a);
    FlatOne(Policy.LineGrants, b);
    FlatOne(Policy.LineGrants, c);
  }

  lemma MarkedIsKept(grant: Table.Row)
    requires Table.KeepsRow(grant) && |grant| > 1
    ensures Table.KeepsRow(grant[0 := [BOM] + grant[0]]) && Table.IsCleanRow(grant[0 := [BOM] + grant[0]])
  {
    var marked := grant[0 := [BOM] + grant[0]];
    forall w <- marked ensures Table.IsClean(w) {
      assert grant[0] in grant;
    }
  }

  lemma TwoLines(line: string)
    requires Table.ParseLine(line) != [] && Policy.IsGrant(Table.ParseLine(line)[0])
    ensures Flat(Policy.LineGrants, ["", line]) == [Table.ParseLine(line)[0]]
  {
    Table.EmptyLineHasNoRow();
    hide Table.ParseLine, Flat;
    assert ["", line] == [""] + [line];
    FlatAppend(Policy.LineGrants, [""], [line]);
    FlatOne(Policy.LineGrants, "");
    FlatOne(Policy.LineGrants, line);
    FlatNone(Policy.KeepGrant);
    assert Table.ParseLine(line) == [Table.ParseLine(line)[0]];
    FlatOne(Policy.KeepGrant, Table.ParseLine(line)[0]);
  }
}
