/**
 The policy read from and written to a table (policy/policy.go). A grant is the row
 [principal, identity attribute, issuer]; a user entry stands for one row per principal.
 */
module Policy {
  import opened Text
  import ShellQuote
  import Table
  import Reread

  datatype User = User(identity: string, principals: seq<string>, issuer: string)

  datatype Problem = WrongNumberOfArguments(line: string, got: nat) | EmptyIdentity(line: string)

  // ---------------------------------------------------------------- what a file and a policy mean

  predicate IsGrant(row: Table.Row) { |row| == 3 && row[1] != "" }

  function UserOfRow(row: Table.Row): seq<User>
  {
    if IsGrant(row) then [User(row[1], [row[0]], row[2])] else []
  }

  function ProblemOfRow(row: Table.Row): seq<Problem>
  {
    if |row| != 3 then [WrongNumberOfArguments(Join(row, " "), |row|)]
    else if row[1] == "" then [EmptyIdentity(Join(row, " "))]
    else []
  }

  /** The user entries of a file. */
  function UsersOf(content: string): seq<User> { Flat(UserOfRow, Table.Rows(content)) }

  function ProblemsOf(content: string): seq<Problem> { Flat(ProblemOfRow, Table.Rows(content)) }

  function RowOfPrincipal(user: User): string -> seq<Table.Row>
  {
    (principal: string) => [[principal, user.identity, user.issuer]]
  }

  function RowsOfUser(user: User): seq<Table.Row> { Flat(RowOfPrincipal(user), user.principals) }

  /** The grants of a policy, in the order in which they are written. */
  function RowsOf(users: seq<User>): seq<Table.Row> { Flat(RowsOfUser, users) }

  ghost function Grants(users: seq<User>): set<Table.Row> { set row | row in RowsOf(users) }

  /** The bytes of a policy. */
  function Bytes(users: seq<User>): string { Table.Render(RowsOf(users)) }

  predicate Matches(user: User, identity: string, issuer: string)
  {
    user.identity == identity && user.issuer == issuer
  }

  /** Index of the first entry for this identity and issuer, or the number of entries. */
  function FirstMatch(users: seq<User>, identity: string, issuer: string): (k: nat)
    ensures k <= |users|
    ensures k < |users| ==> Matches(users[k], identity, issuer)
    ensures forall i :: 0 <= i < k ==> !Matches(users[i], identity, issuer)
  {
    if users == [] || Matches(users[0], identity, issuer) then 0
    else 1 + FirstMatch(users[1..], identity, issuer)
  }

  predicate IsGranted(users: seq<User>, principal: string, identity: string, issuer: string)
  {
    exists i :: 0 <= i < |users| && Matches(users[i], identity, issuer) && principal in users[i].principals
  }

  /** The entries after adding a grant. */
  function Added(users: seq<User>, principal: string, identity: string, issuer: string): seq<User>
  {
    var k := FirstMatch(users, identity, issuer);
    if IsGranted(users, principal, identity, issuer) then users
    else if k < |users| then users[k := users[k].(principals := users[k].principals + [principal])]
    else users + [User(identity, [principal], issuer)]
  }

  // ---------------------------------------------------------------- the code

  class Policy {
    var users: seq<User>

    constructor ()
      ensures users == []
    {
      users := [];
    }

    /** No early return changes the entries; the first matching entry is the one that grows. */
    method AddAllowedPrincipal(principal: string, identity: string, issuer: string)
      modifies this
      ensures users == Added(old(users), principal, identity, issuer)
    {
      var first: Option<nat> := None;
      for i := 0 to |users|
        invariant users == old(users)
        invariant first == if FirstMatch(users, identity, issuer) < i then Some(FirstMatch(users, identity, issuer))
                  else None
        invariant forall j :: 0 <= j < i && Matches(users[j], identity, issuer) ==> principal !in users[j].principals
      {
        if users[i].identity == identity && users[i].issuer == issuer {
          if first == None {
            first := Some(i);
          }
          if principal in users[i].principals {
            return;
          }
        }
      }
      if first.Some? {
        var entry := users[first.value];
        users := users[first.value := entry.(principals := entry.principals + [principal])];
        return;
      }
      users := users + [User(identity, [principal], issuer)];
    }

    method ToTable() returns (bytes: string)
      ensures bytes == Bytes(users)
    {
      hide Flat, Table.Render;
      var table := new Table.Table.Empty();
      FlatNone(RowsOfUser);
      assert users[..0] == [];
      for i := 0 to |users|
        invariant fresh(table) && table.rows == Flat(RowsOfUser, users[..i])
      {
        FlatStep(RowsOfUser, users, i);
        var user := users[i];
        FlatNone(RowOfPrincipal(user));
        assert user.principals[..0] == [];
        for j := 0 to |user.principals|
          invariant fresh(table)
          invariant table.rows == Flat(RowsOfUser, users[..i]) + Flat(RowOfPrincipal(user), user.principals[..j])
        {
          FlatStep(RowOfPrincipal(user), user.principals, j);
          table.AddRow([user.principals[j], user.identity, user.issuer]);
        }
        assert user.principals[..|user.principals|] == user.principals;
      }
      assert users[..|users|] == users;
      bytes := table.ToString();
    }
  }

  method FromTable(content: string) returns (policy: Policy, problems: seq<Problem>)
    ensures fresh(policy)
    ensures policy.users == UsersOf(content)
    ensures problems == ProblemsOf(content)
  {
    hide Table.Rows, Join, Flat;
    problems := [];
    policy := new Policy();
    FlatNone(UserOfRow);
    FlatNone(ProblemOfRow);
    var table := new Table.Table.FromContent(content);
    var rows := table.rows;
    for i := 0 to |rows|
      invariant fresh(policy)
      invariant policy.users == Flat(UserOfRow, rows[..i])
      invariant problems == Flat(ProblemOfRow, rows[..i])
    {
      FlatStep(UserOfRow, rows, i);
      FlatStep(ProblemOfRow, rows, i);
      var row := rows[i];
      if |row| != 3 {
        problems := problems + [WrongNumberOfArguments(Join(row, " "), |row|)];
      } else if row[1] == "" {
        problems := problems + [EmptyIdentity(Join(row, " "))];
      } else {
        policy.users := policy.users + [User(row[1], [row[0]], row[2])];
      }
    }
    assert rows[..|rows|] == rows;
  }

  /** The entries of a file: its rows of three columns with an identity in the middle. */
  lemma WhatIsRead(content: string, user: User)
    ensures user in UsersOf(content) <==>
            exists row <- Table.Rows(content) ::
              |row| == 3 && row[1] != "" && user == User(row[1], [row[0]], row[2])
  {
    hide Table.Rows;
    if user in UsersOf(content) {
      FlatMember(UserOfRow, Table.Rows(content), user);
    }
    forall row <- Table.Rows(content) | |row| == 3 && row[1] != "" && user == User(row[1], [row[0]], row[2])
      ensures user in UsersOf(content)
    {
      FlatHas(UserOfRow, Table.Rows(content), row, user);
    }
  }

  /** The problems of a file: its other rows. */
  lemma WhatIsReported(content: string, problem: Problem)
    ensures problem in ProblemsOf(content) <==>
            exists row <- Table.Rows(content) ::
              || (|row| != 3 && problem == WrongNumberOfArguments(Join(row, " "), |row|))
              || (|row| == 3 && row[1] == "" && problem == EmptyIdentity(Join(row, " ")))
  {
    hide Table.Rows, Join;
    if problem in ProblemsOf(content) {
      FlatMember(ProblemOfRow, Table.Rows(content), problem);
    }
    forall row <- Table.Rows(content)
      | || (|row| != 3 && problem == WrongNumberOfArguments(Join(row, " "), |row|))
        || (|row| == 3 && row[1] == "" && problem == EmptyIdentity(Join(row, " ")))
      ensures problem in ProblemsOf(content)
    {
      FlatHas(ProblemOfRow, Table.Rows(content), row, problem);
    }
  }

  /** Every row is an entry or a problem, and none is both. */
  lemma EveryRowCounts(content: string)
    ensures |UsersOf(content)| + |ProblemsOf(content)| == |Table.Rows(content)|
  {
    EachRowCounts(Table.Rows(content));
  }

  lemma {:induction false} EachRowCounts(rows: seq<Table.Row>)
    ensures |Flat(UserOfRow, rows)| + |Flat(ProblemOfRow, rows)| == |rows|
  {
    hide Join;
    if rows != [] {
      EachRowCounts(rows[..|rows| - 1]);
    }
  }

  // ---------------------------------------------------------------- grants

  lemma {:induction false} RowsOfUserMember(user: User, row: Table.Row)
    ensures row in RowsOfUser(user) <==>
            |row| == 3 && row[0] in user.principals && row[1] == user.identity && row[2] == user.issuer
  {
    if row in RowsOfUser(user) {
      FlatMember(RowOfPrincipal(user), user.principals, row);
    }
    if |row| == 3 && row[0] in user.principals && row[1] == user.identity && row[2] == user.issuer {
      assert row == [row[0], user.identity, user.issuer];
      FlatHas(RowOfPrincipal(user), user.principals, row[0], row);
    }
  }

  lemma RowsOfMember(users: seq<User>, row: Table.Row)
    ensures row in RowsOf(users) <==> |row| == 3 && IsGranted(users, row[0], row[1], row[2])
  {
    if row in RowsOf(users) {
      FlatMember(RowsOfUser, users, row);
      var user :| user in users && row in RowsOfUser(user);
      RowsOfUserMember(user, row);
      var i :| 0 <= i < |users| && users[i] == user;
      assert Matches(users[i], row[1], row[2]);
    }
    if |row| == 3 && IsGranted(users, row[0], row[1], row[2]) {
      var i :| 0 <= i < |users| && Matches(users[i], row[1], row[2]) && row[0] in users[i].principals;
      RowsOfUserMember(users[i], row);
      FlatHas(RowsOfUser, users, users[i], row);
    }
  }

  /** What is written of a policy: a row for every principal of every entry. */
  lemma WhatIsWritten(users: seq<User>, row: Table.Row)
    ensures row in RowsOf(users) <==>
            exists i, j :: 0 <= i < |users| && 0 <= j < |users[i].principals| &&
              row == [users[i].principals[j], users[i].identity, users[i].issuer]
  {
    hide RowsOf;
    RowsOfMember(users, row);
    if row in RowsOf(users) {
      var i :| 0 <= i < |users| && Matches(users[i], row[1], row[2]) && row[0] in users[i].principals;
      var j :| 0 <= j < |users[i].principals| && users[i].principals[j] == row[0];
      assert row == [users[i].principals[j], users[i].identity, users[i].issuer];
    }
    forall i, j
      | 0 <= i < |users| && 0 <= j < |users[i].principals| &&
        row == [users[i].principals[j], users[i].identity, users[i].issuer]
      ensures row in RowsOf(users)
    {
      assert Matches(users[i], row[1], row[2]) && row[0] in users[i].principals;
    }
  }

  /** Adding grants the new triple and nothing else, and takes nothing away. */
  lemma AddedGrants(users: seq<User>, principal: string, identity: string, issuer: string)
    ensures Grants(Added(users, principal, identity, issuer)) == Grants(users) + {[principal, identity, issuer]}
  {
    var added := Added(users, principal, identity, issuer);
    forall row ensures row in Grants(added) <==> row in Grants(users) + {[principal, identity, issuer]} {
      RowsOfMember(users, row);
      RowsOfMember(added, row);
      if |row| == 3 {
        AddedIsGranted(users, principal, identity, issuer, row);
      }
    }
  }

  lemma AddedIsGranted(users: seq<User>, principal: string, identity: string, issuer: string, row: Table.Row)
    requires |row| == 3
    ensures IsGranted(Added(users, principal, identity, issuer), row[0], row[1], row[2]) <==>
            IsGranted(users, row[0], row[1], row[2]) || row == [principal, identity, issuer]
  {
    var added := Added(users, principal, identity, issuer);
    if IsGranted(users, row[0], row[1], row[2]) {
      var i :| 0 <= i < |users| && Matches(users[i], row[1], row[2]) && row[0] in users[i].principals;
      assert Matches(added[i], row[1], row[2]) && row[0] in added[i].principals;
    }
    if row == [principal, identity, issuer] && added != users {
      var k := FirstMatch(users, identity, issuer);
      assert Matches(added[k], row[1], row[2]) && row[0] in added[k].principals;
    }
  }

  // ---------------------------------------------------------------- through the file and back

  /** What every grant must avoid to survive a write and a read. */
  predicate IsLossless(rows: seq<Table.Row>)
  {
    Table.KeepsTable(rows) && forall i :: 0 <= i < |rows| ==> IsGrant(rows[i])
  }

  function KeepGrant(row: Table.Row): seq<Table.Row> { if IsGrant(row) then [row] else [] }

  lemma RowsOfSingle(row: Table.Row)
    requires IsGrant(row)
    ensures RowsOf([User(row[1], [row[0]], row[2])]) == [row]
  {
    var user := User(row[1], [row[0]], row[2]);
    FlatCons(RowOfPrincipal(user), row[0], []);
    FlatCons(RowsOfUser, user, []);
    assert [row[0], row[1], row[2]] == row;
  }

  lemma {:induction false} RowsOfUsers(rows: seq<Table.Row>)
    ensures RowsOf(Flat(UserOfRow, rows)) == Flat(KeepGrant, rows)
  {
    if rows != [] {
      var n := |rows| - 1;
      RowsOfUsers(rows[..n]);
      FlatAppend(RowsOfUser, Flat(UserOfRow, rows[..n]), UserOfRow(rows[n]));
      if IsGrant(rows[n]) {
        RowsOfSingle(rows[n]);
      }
    }
  }

  lemma KeptAtMost(rows: seq<Table.Row>)
    ensures |Flat(KeepGrant, rows)| <= |rows|
  {
  }

  lemma {:induction false} KeepAll(rows: seq<Table.Row>)
    ensures |Flat(KeepGrant, rows)| == |rows| <==> forall i :: 0 <= i < |rows| ==> IsGrant(rows[i])
    ensures |Flat(KeepGrant, rows)| == |rows| ==> Flat(KeepGrant, rows) == rows
  {
    hide IsGrant;
    if rows != [] {
      var n := |rows| - 1;
      KeepAll(rows[..n]);
      KeptAtMost(rows[..n]);
      assert forall i :: 0 <= i < n ==> rows[..n][i] == rows[i];
      assert rows == rows[..n] + [rows[n]];
    }
  }

  lemma RowsOfWidth(users: seq<User>, i: nat)
    requires i < |RowsOf(users)|
    ensures |RowsOf(users)[i]| == 3
  {
    RowsOfMember(users, RowsOf(users)[i]);
  }

  /** A written policy reads back, grant by grant and in order, exactly when it is lossless. */
  lemma ReadBack(users: seq<User>)
    ensures RowsOf(UsersOf(Bytes(users))) == RowsOf(users) <==> IsLossless(RowsOf(users))
  {
    hide Table.Rows, Table.Render, RowsOf;
    var rows := RowsOf(users);
    var read := Table.Rows(Table.Render(rows));
    RowsOfUsers(read);
    Table.RoundTrip(rows);
    KeepAll(rows);
    if !IsLossless(rows) && Flat(KeepGrant, read) == rows {
      forall i | 0 <= i < |rows| ensures Table.IsCleanRow(rows[i]) && IsGrant(rows[i]) {
        assert rows[i] in Flat(KeepGrant, read);
        FlatMember(KeepGrant, read, rows[i]);
        Table.RowsAreClean(Table.Render(rows), rows[i]);
      }
      Table.RowsAtMost(rows);
      KeptAtMost(read);
      KeepAll(read);
    }
  }

  /**
   What the set of grants must avoid: lost rows, and a stripped byte order mark unless the first row
   stands elsewhere too and what it reads as, if a grant, is there anyway.
   */
  predicate KeepsGrants(rows: seq<Table.Row>)
  {
    && (forall i :: 0 <= i < |rows| ==> Table.KeepsRow(rows[i]) && IsGrant(rows[i]))
    && (Table.KeepsStart(rows) || (rows[0] in rows[1..] && (IsGrant(Stray(rows)) ==> Stray(rows) in rows)))
  }

  /** What the first row reads as without its byte order mark. */
  function Stray(rows: seq<Table.Row>): Table.Row
    requires !Table.KeepsStart(rows)
  {
    Reread.RereadRow(Reread.Unmarked(rows[0]))
  }

  lemma LosslessKeepsGrants(rows: seq<Table.Row>)
    ensures IsLossless(rows) <==> KeepsGrants(rows) && Table.KeepsStart(rows)
  {
    hide Table.KeepsRow, IsGrant, Table.KeepsStart;
  }

  /** The rows that a printed list of clean grants reads as. */
  lemma GrantIsRead(rows: seq<Table.Row>, row: Table.Row)
    requires Reread.AreClean(rows)
    ensures row in Table.Rows(Table.Render(rows)) <==>
            row != [] && exists shown <- Reread.Shown(rows) :: row == Reread.RereadRow(shown)
  {
    hide Table.Rows, Table.Render, Reread.AreClean, Reread.Shown, Flat, Reread.RereadRow;
    Reread.TableRereads(rows);
    if row in Table.Rows(Table.Render(rows)) {
      FlatMember(Reread.RereadOf, Reread.Shown(rows), row);
    }
    if row != [] {
      forall shown <- Reread.Shown(rows) | row == Reread.RereadRow(shown)
        ensures row in Table.Rows(Table.Render(rows))
      {
        FlatHas(Reread.RereadOf, Reread.Shown(rows), shown, row);
      }
    }
  }

  /** Which grants are read from a table that keeps its rows. */
  lemma KeptRowsAreRead(rows: seq<Table.Row>, row: Table.Row)
    requires forall i :: 0 <= i < |rows| ==> Table.KeepsRow(rows[i])
    ensures row in Table.Rows(Table.Render(rows)) <==>
            row != [] && if Table.KeepsStart(rows) then row in rows else row in rows[1..] || row == Stray(rows)
  {
    hide Table.Rows, Table.Render, Table.KeepsRow, Reread.RereadRow, Table.IsCleanRow;
    forall i | 0 <= i < |rows| ensures Table.IsCleanRow(rows[i]) && Reread.RereadRow(rows[i]) == rows[i] {
      Table.KeptRowIsClean(rows[i]);
      Reread.RereadsItself(rows[i]);
    }
    GrantIsRead(rows, row);
    if Table.KeepsStart(rows) {
      if row in rows {
        assert row == Reread.RereadRow(row);
      }
    } else {
      assert Reread.Shown(rows)[0] == Reread.Unmarked(rows[0]);
      assert Reread.Unmarked(rows[0]) in Reread.Shown(rows);
      if row in rows[1..] {
        assert row in rows && row in Reread.Shown(rows);
      }
    }
  }

  lemma ReadGrants(users: seq<User>, row: Table.Row)
    ensures row in Grants(UsersOf(Bytes(users))) <==> row in Table.Rows(Table.Render(RowsOf(users))) && IsGrant(row)
  {
    hide Table.Rows, Table.Render, IsGrant, Flat;
    var read := Table.Rows(Table.Render(RowsOf(users)));
    RowsOfUsers(read);
    if row in Flat(KeepGrant, read) {
      FlatMember(KeepGrant, read, row);
    }
    if row in read && IsGrant(row) {
      FlatHas(KeepGrant, read, row, row);
    }
  }

  /** As a set, a written policy reads back exactly when it keeps its grants. */
  lemma ReadBackAsSet(users: seq<User>)
    ensures Grants(UsersOf(Bytes(users))) == Grants(users) <==> KeepsGrants(RowsOf(users))
  {
    hide Table.Rows, Table.Render, RowsOf, UsersOf, Bytes, Table.KeepsRow, Table.KeepsStart, Stray, KeepsGrants,
         IsGrant;
    var rows := RowsOf(users);
    if Grants(UsersOf(Bytes(users))) == Grants(users) {
      SameSetKeepsGrants(users);
    }
    if KeepsGrants(rows) {
      forall row ensures row in Grants(UsersOf(Bytes(users))) <==> row in Grants(users) {
        ReadGrants(users, row);
        KeptGrantsAreRead(rows, row);
      }
    }
  }

  lemma KeptGrantsAreRead(rows: seq<Table.Row>, row: Table.Row)
    requires KeepsGrants(rows)
    ensures row in Table.Rows(Table.Render(rows)) && IsGrant(row) <==> row in rows
  {
    hide Table.Rows, Table.Render, Table.KeepsRow, Table.KeepsStart, Stray;
    KeptRowsAreRead(rows, row);
    if row in rows && !Table.KeepsStart(rows) {
      assert row == rows[0] || row in rows[1..];
    }
  }

  lemma SameSetKeepsGrants(users: seq<User>)
    requires Grants(UsersOf(Bytes(users))) == Grants(users)
    ensures KeepsGrants(RowsOf(users))
  {
    hide Table.Rows, Table.Render, RowsOf, UsersOf, Bytes, Table.KeepsRow, Stray, IsGrant, Table.IsCleanRow;
    var rows := RowsOf(users);
    forall i | 0 <= i < |rows|
      ensures rows[i] in Table.Rows(Table.Render(rows)) && Table.IsCleanRow(rows[i]) && IsGrant(rows[i])
    {
      assert rows[i] in Grants(users);
      ReadGrants(users, rows[i]);
      Table.RowsAreClean(Table.Render(rows), rows[i]);
    }
    assert Reread.AreClean(rows);
    forall i | 0 <= i < |rows| ensures Table.KeepsRow(rows[i]) {
      Reread.ReadIsKept(rows, rows[i]);
    }
    if !Table.KeepsStart(rows) {
      KeptRowsAreRead(rows, rows[0]);
      StrayDiffers(rows);
      var stray := Stray(rows);
      if IsGrant(stray) {
        KeptRowsAreRead(rows, stray);
        GrantHasColumns(stray);
        ReadGrants(users, stray);
      }
    }
  }

  lemma GrantHasColumns(row: Table.Row)
    requires IsGrant(row)
    ensures row != []
  {
  }

  lemma StrayDiffers(rows: seq<Table.Row>)
    requires !Table.KeepsStart(rows) && Table.IsCleanRow(rows[0])
    ensures Stray(rows) != rows[0]
  {
    hide Reread.RereadRow;
    Reread.RereadsItself(rows[0]);
  }

  // ---------------------------------------------------------------- a file line by line

  /** The grants on a line. */
  function LineGrants(line: string): seq<Table.Row> { Flat(KeepGrant, Table.ParseLine(line)) }

  /** The lines of a file, as they are read. */
  function FileLines(content: string): seq<string> { Split(Table.StripBom(content), '\n') }

  lemma {:induction false} FlatOfFlat(lines: seq<string>)
    ensures Flat(KeepGrant, Flat(Table.ParseLine, lines)) == Flat(LineGrants, lines)
  {
    hide Table.ParseLine;
    if lines != [] {
      var n := |lines| - 1;
      FlatOfFlat(lines[..n]);
      FlatAppend(KeepGrant, Flat(Table.ParseLine, lines[..n]), Table.ParseLine(lines[n]));
    }
  }

  lemma {:induction false} LinesWithoutBom(content: string)
    ensures var lines := Split(content, '\n');
            Split(Table.StripBom(content), '\n') == [Table.StripBom(lines[0])] + lines[1..]
  {
    var lines := Split(content, '\n');
    if Table.StripBom(content) == content {
      SplitHeadIsPrefix(content, '\n');
      assert [lines[0]] + lines[1..] == lines;
    } else {
      var rest := Split(content[1..], '\n');
      assert lines[0] == [BOM] + rest[0] && lines[0][1..] == rest[0];
      assert [rest[0]] + rest[1..] == rest;
    }
  }

  lemma {:induction false} SameByLine(a: seq<string>, b: seq<string>)
    requires |a| == |b| && forall i :: 0 <= i < |a| ==> LineGrants(a[i]) == LineGrants(b[i])
    ensures Flat(LineGrants, a) == Flat(LineGrants, b)
  {
    hide LineGrants;
    if a != [] {
      SameByLine(a[..|a| - 1], b[..|b| - 1]);
    }
  }

  /** What is read from a file is read line by line. */
  lemma FileGrants(content: string)
    ensures RowsOf(UsersOf(content)) == Flat(LineGrants, FileLines(content))
    ensures |FileLines(content)| == |Split(content, '\n')|
  {
    hide Flat, Split, Table.ParseLine;
    LinesWithoutBom(content);
    FlatOfFlat(FileLines(content));
    RowsOfUsers(Table.Rows(content));
  }

  // ---------------------------------------------------------------- equal bytes, equal grants

  lemma {:induction false} RunRender(words: seq<string>, rows: seq<Table.Row>)
    requires forall i :: 0 <= i < |rows| ==> rows[i] != []
    ensures ShellQuote.Run(ShellQuote.Scan(ShellQuote.Gap, "", words), Table.Render(rows)) ==
            ShellQuote.Scan(ShellQuote.Gap, "", words + Flat(Columns, rows))
    decreases |rows|
  {
    hide ShellQuote.Run, ShellQuote.Step, ShellQuote.Join;
    var st := ShellQuote.Scan(ShellQuote.Gap, "", words);
    if rows == [] {
      ShellQuote.RunNothing(st);
      assert words + [] == words;
    } else {
      var row, rest := rows[0], rows[1..];
      Table.RenderCons(rows);
      assert Table.Render(rows) == (ShellQuote.Join(row) + "\n") + Table.Render(rest);
      ShellQuote.RunAppend(st, ShellQuote.Join(row) + "\n", Table.Render(rest));
      ShellQuote.RunLine(words, row);
      RunRender(words + row, rest);
      FlatCons(Columns, row, rest);
      assert [row] + rest == rows;
      assert words + row + Flat(Columns, rest) == words + (row + Flat(Columns, rest));
    }
  }

  function Columns(row: Table.Row): seq<string> { row }

  lemma {:induction false} SameColumns(a: seq<Table.Row>, b: seq<Table.Row>)
    requires forall i :: 0 <= i < |a| ==> |a[i]| == 3
    requires forall i :: 0 <= i < |b| ==> |b[i]| == 3
    requires Flat(Columns, a) == Flat(Columns, b)
    ensures a == b
  {
    if a != [] && b != [] {
      var n, m := |a| - 1, |b| - 1;
      var s := Flat(Columns, a);
      assert s[..|s| - 3] == Flat(Columns, a[..n]) && s[|s| - 3..] == a[n];
      assert s[..|s| - 3] == Flat(Columns, b[..m]) && s[|s| - 3..] == b[m];
      SameColumns(a[..n], b[..m]);
      assert a == a[..n] + [a[n]] && b == b[..m] + [b[m]];
    }
  }

  /** Two policies with the same bytes have the same grants in the same order, whatever their fields hold. */
  lemma BytesDetermineGrants(users: seq<User>, others: seq<User>)
    requires Bytes(users) == Bytes(others)
    ensures RowsOf(users) == RowsOf(others)
  {
    var a, b := RowsOf(users), RowsOf(others);
    forall i | 0 <= i < |a| ensures |a[i]| == 3 { RowsOfWidth(users, i); }
    forall i | 0 <= i < |b| ensures |b[i]| == 3 { RowsOfWidth(others, i); }
    hide ShellQuote.Run, Table.Render;
    RunRender([], a);
    RunRender([], b);
    assert [] + Flat(Columns, a) == Flat(Columns, a) && [] + Flat(Columns, b) == Flat(Columns, b);
    SameColumns(a, b);
  }

  /** Rewriting a file that was just written leaves it as it is exactly when it is lossless. */
  lemma PrintingIsStable(users: seq<User>)
    ensures Bytes(UsersOf(Bytes(users))) == Bytes(users) <==> IsLossless(RowsOf(users))
  {
    ReadBack(users);
    if Bytes(UsersOf(Bytes(users))) == Bytes(users) {
      BytesDetermineGrants(UsersOf(Bytes(users)), users);
    }
  }

  // ---------------------------------------------------------------- adding through the file

  /** The file after an add. */
  function AddToFile(content: string, principal: string, identity: string, issuer: string): string
  {
    Bytes(Added(UsersOf(content), principal, identity, issuer))
  }

  /** Every entry read from a file has one principal. */
  lemma UsersAreSingle(content: string, i: nat)
    requires i < |UsersOf(content)|
    ensures |UsersOf(content)[i].principals| == 1 && UsersOf(content)[i].identity != ""
  {
    var user := UsersOf(content)[i];
    FlatMember(UserOfRow, Table.Rows(content), user);
  }

  lemma {:induction false} RowsNotEmpty(users: seq<User>)
    requires users != [] && |users[0].principals| > 0
    ensures RowsOf(users) != [] && RowsOf(users)[0] == [users[0].principals[0], users[0].identity, users[0].issuer]
  {
    var user := users[0];
    assert users == [user] + users[1..];
    FlatCons(RowsOfUser, user, users[1..]);
    assert user.principals == [user.principals[0]] + user.principals[1..];
    FlatCons(RowOfPrincipal(user), user.principals[0], user.principals[1..]);
  }

  lemma NoRows()
    ensures RowsOf([]) == []
  {
  }

  /** The first row written is the old first row, or the new one if there was none. */
  lemma AddedStart(content: string, principal: string, identity: string, issuer: string)
    ensures var users := UsersOf(content);
            var rows := RowsOf(Added(users, principal, identity, issuer));
            rows != [] && rows[0] == (RowsOf(users) + [[principal, identity, issuer]])[0]
  {
    hide UsersOf, RowsOf;
    var users := UsersOf(content);
    var added := Added(users, principal, identity, issuer);
    if users != [] {
      UsersAreSingle(content, 0);
      RowsNotEmpty(users);
    } else {
      NoRows();
      assert added == [User(identity, [principal], issuer)];
    }
    RowsNotEmpty(added);
  }

  /** Whether an add is lossless shows before the call: in the grants of the file and the new one. */
  lemma AddedIsLossless(content: string, principal: string, identity: string, issuer: string)
    ensures var users := UsersOf(content);
            IsLossless(RowsOf(Added(users, principal, identity, issuer))) <==>
            IsLossless(RowsOf(users) + [[principal, identity, issuer]])
  {
    hide Added, RowsOf, UsersOf, IsLossless;
    var users := UsersOf(content);
    var grant := [principal, identity, issuer];
    var a, b := RowsOf(Added(users, principal, identity, issuer)), RowsOf(users) + [grant];
    AddedStart(content, principal, identity, issuer);
    AddedGrants(users, principal, identity, issuer);
    assert forall row :: row in a <==> row in b by {
      assert forall row :: row in a <==> row in Grants(Added(users, principal, identity, issuer));
      assert forall row :: row in RowsOf(users) <==> row in Grants(users);
    }
    if IsLossless(a) {
      SameMembersSameLoss(a, b);
    }
    if IsLossless(b) {
      SameMembersSameLoss(b, a);
    }
  }

  lemma SameMembersSameLoss(a: seq<Table.Row>, b: seq<Table.Row>)
    requires a != [] && b != [] && a[0] == b[0] && forall row :: row in b ==> row in a
    requires IsLossless(a)
    ensures IsLossless(b)
  {
    forall i | 0 <= i < |b| ensures Table.KeepsRow(b[i]) && IsGrant(b[i]) {
      assert b[i] in b;
      var j :| 0 <= j < |a| && a[j] == b[i];
    }
  }

  /**
   Adding a grant through the file. Re-reading gives the updated grants in order exactly when the old
   grants and the new one are lossless; it gives the old set of grants plus the new one exactly when
   the updated grants are kept, as lossless ones are.
   */
  lemma AddThroughFile(content: string, principal: string, identity: string, issuer: string)
    ensures var users := UsersOf(content);
            var grant := [principal, identity, issuer];
            var added := RowsOf(Added(users, principal, identity, issuer));
            var reread := UsersOf(AddToFile(content, principal, identity, issuer));
            && (RowsOf(reread) == added <==> IsLossless(RowsOf(users) + [grant]))
            && (Grants(reread) == Grants(users) + {grant} <==> KeepsGrants(added))
            && (IsLossless(RowsOf(users) + [grant]) ==> KeepsGrants(added))
  {
    hide UsersOf, RowsOf, Bytes, IsLossless, Added, Grants, KeepsGrants;
    var users := UsersOf(content);
    var added := Added(users, principal, identity, issuer);
    ReadBackAsSet(added);
    ReadBack(added);
    AddedIsLossless(content, principal, identity, issuer);
    LosslessKeepsGrants(RowsOf(added));
    AddedGrants(users, principal, identity, issuer);
  }

  /** A comment mark in the new principal: the grant is written and cannot be read. */
  lemma CommentMarkIsLost()
    ensures RowsOf(UsersOf(AddToFile("", "a#b", "c", "d"))) != RowsOf(Added(UsersOf(""), "a#b", "c", "d"))
  {
    AddThroughFile("", "a#b", "c", "d");
    hide UsersOf, RowsOf, Added, AddToFile;
    var rows := RowsOf(UsersOf("")) + [["a#b", "c", "d"]];
    var row := rows[|rows| - 1];
    assert '#' == row[0][1] && row[0] in row;
    assert !Table.IsClean(row[0]);
  }

  /** The file after `n` times the same add. */
  function AddTimes(n: nat, content: string, principal: string, identity: string, issuer: string): string
  {
    if n == 0 then content
    else AddToFile(AddTimes(n - 1, content, principal, identity, issuer), principal, identity, issuer)
  }

  lemma SameRowsSameBytes(users: seq<User>, others: seq<User>)
    requires RowsOf(users) == RowsOf(others)
    ensures Bytes(users) == Bytes(others)
  {
  }

  /** After the first lossless add, repeating it changes no byte. */
  lemma {:induction false} RepeatedAdd(n: nat, content: string, principal: string, identity: string, issuer: string)
    requires n > 0
    requires IsLossless(RowsOf(UsersOf(content)) + [[principal, identity, issuer]])
    ensures AddTimes(n, content, principal, identity, issuer) == AddToFile(content, principal, identity, issuer)
  {
    hide Bytes, UsersOf, RowsOf, IsLossless;
    if n == 1 {
      assert AddTimes(0, content, principal, identity, issuer) == content;
    } else {
      RepeatedAdd(n - 1, content, principal, identity, issuer);
      var added := Added(UsersOf(content), principal, identity, issuer);
      var reread := UsersOf(AddToFile(content, principal, identity, issuer));
      AddThroughFile(content, principal, identity, issuer);
      AddedGrants(UsersOf(content), principal, identity, issuer);
      RowsOfMember(reread, [principal, identity, issuer]);
      assert [principal, identity, issuer] in Grants(reread);
      assert RowsOf(reread) == RowsOf(added);
      SameRowsSameBytes(reread, added);
      assert Added(reread, principal, identity, issuer) == reread;
    }
  }
}
