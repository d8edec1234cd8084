/**
 Repeating an add (commands/add.go). The bytes stay the same if nothing is lost; they also do if what
 is written reads as all grants but the new one, which is put back in its place every time, and in no
 other case.
 */
module Repeating {
  import opened Text
  import ShellQuote
  import Table
  import Reread
  import Policy

  /** What the printed row reads as, if a grant. */
  function GrantsIn(row: Table.Row): seq<Table.Row> { Policy.LineGrants(ShellQuote.Join(row)) }

  function Unless(grant: Table.Row): Table.Row -> seq<Table.Row>
  {
    (row: Table.Row) => if row == grant then [] else [row]
  }

  function Others(rows: seq<Table.Row>, grant: Table.Row): seq<Table.Row> { Flat(Unless(grant), rows) }

  /** One entry for every row, as reading makes them. */
  function Singles(rows: seq<Table.Row>): seq<Policy.User> { Flat(Policy.UserOfRow, rows) }

  predicate AllKept(rows: seq<Table.Row>) { forall i :: 0 <= i < |rows| ==> Table.KeepsRow(rows[i]) }

  function Add(users: seq<Policy.User>, grant: Table.Row): seq<Policy.User>
    requires |grant| == 3
  {
    Policy.Added(users, grant[0], grant[1], grant[2])
  }

  /** The lines of the printed grants read as all of them but the new one, and an add puts that where it stands. */
  predicate IsPutBack(rows: seq<Table.Row>, grant: Table.Row)
    requires |grant| == 3
  {
    && Flat(Policy.LineGrants, Policy.FileLines(Table.Render(rows))) == Others(rows, grant)
    && Policy.RowsOf(Add(Singles(Others(rows, grant)), grant)) == rows
  }

  /** The grant reads as none, all others are kept, and an add to them puts it where it stands. */
  predicate IsLostInPlace(rows: seq<Table.Row>, grant: Table.Row)
    requires |grant| == 3
  {
    && GrantsIn(grant) == [] && AllKept(Others(rows, grant))
    && Policy.RowsOf(Add(Singles(Others(rows, grant)), grant)) == rows
  }

  // ---------------------------------------------------------------- reading line by line

  lemma {:induction false} GrantsOfLines(lines: seq<string>, rows: seq<Table.Row>)
    requires |lines| == |rows| && forall i :: 0 <= i < |rows| ==> lines[i] == ShellQuote.Join(rows[i])
    ensures Flat(Policy.LineGrants, lines) == Flat(GrantsIn, rows)
  {
    hide ShellQuote.Join, Policy.LineGrants;
    if rows != [] {
      GrantsOfLines(lines[..|lines| - 1], rows[..|rows| - 1]);
    }
  }

  lemma FileReads(rows: seq<Table.Row>)
    requires Table.KeepsStart(rows) && forall i :: 0 <= i < |rows| ==> Table.IsLine(rows[i])
    ensures Flat(Policy.KeepGrant, Table.Rows(Table.Render(rows))) == Flat(GrantsIn, rows)
  {
    hide Table.Render, Table.KeepsStart, Table.IsLine, Flat, ShellQuote.Join;
    var lines := Table.LinesOfFile(rows);
    Table.RowsOfLines(Table.Render(rows), lines);
    Policy.FlatOfFlat(lines);
    GrantsOfLines(lines, rows);
  }

  lemma {:induction false} SinglesOfKept(rows: seq<Table.Row>)
    ensures Flat(Policy.UserOfRow, rows) == Singles(Flat(Policy.KeepGrant, rows))
  {
    if rows != [] {
      var n := |rows| - 1;
      SinglesOfKept(rows[..n]);
      FlatAppend(Policy.UserOfRow, Flat(Policy.KeepGrant, rows[..n]), Policy.KeepGrant(rows[n]));
      FlatOne(Policy.UserOfRow, rows[n]);
      FlatNone(Policy.UserOfRow);
    }
  }

  /** What is read from a file has an entry for every grant. */
  lemma ReadSingles(content: string)
    ensures Policy.UsersOf(content) == Singles(Policy.RowsOf(Policy.UsersOf(content)))
  {
    hide Flat, Table.Rows, Policy.RowsOf;
    Policy.RowsOfUsers(Table.Rows(content));
    SinglesOfKept(Table.Rows(content));
  }

  /** A policy that was read from a printed one: the grants in its lines, an entry each. */
  lemma ReadAgain(users: seq<Policy.User>)
    requires var rows := Policy.RowsOf(users);
             Table.KeepsStart(rows) && forall i :: 0 <= i < |rows| ==> Table.IsLine(rows[i])
    ensures var read := Flat(GrantsIn, Policy.RowsOf(users));
            Policy.RowsOf(Policy.UsersOf(Policy.Bytes(users))) == read &&
                Policy.UsersOf(Policy.Bytes(users)) == Singles(read)
  {
    hide Table.KeepsStart, Table.IsLine, Flat, Table.Rows, Table.Render, Policy.RowsOf;
    var rows := Policy.RowsOf(users);
    FileReads(rows);
    Policy.RowsOfUsers(Table.Rows(Table.Render(rows)));
    ReadSingles(Policy.Bytes(users));
  }

  lemma GrantsInKept(row: Table.Row)
    requires Table.KeepsRow(row) && Policy.IsGrant(row)
    ensures GrantsIn(row) == [row]
  {
    Table.KeptRowIsClean(row);
    hide Table.KeepsRow, ShellQuote.Join, Table.ParseLine, Flat;
    Table.LineReadsBack(row);
    FlatOne(Policy.KeepGrant, row);
  }

  lemma GrantsInAreKept(row: Table.Row, read: Table.Row)
    requires Table.IsCleanRow(row) && read in GrantsIn(row)
    ensures Table.KeepsRow(read) && Policy.IsGrant(read)
  {
    hide Table.KeepsRow, ShellQuote.Join, Table.ParseLine, Flat, Reread.RereadRow, Policy.IsGrant;
    FlatMember(Policy.KeepGrant, Table.ParseLine(ShellQuote.Join(row)), read);
    Reread.LineRereads(row);
    Reread.RereadIsKept(row);
  }

  // ---------------------------------------------------------------- the others

  lemma {:induction false} OthersWithout(rows: seq<Table.Row>, grant: Table.Row)
    requires grant !in rows
    ensures Others(rows, grant) == rows
  {
    if rows != [] {
      OthersWithout(rows[..|rows| - 1], grant);
      assert rows == rows[..|rows| - 1] + [rows[|rows| - 1]];
    }
  }

  lemma OthersMember(rows: seq<Table.Row>, grant: Table.Row, row: Table.Row)
    ensures row in Others(rows, grant) <==> row in rows && row != grant
  {
    if row in Others(rows, grant) {
      FlatMember(Unless(grant), rows, row);
    }
    if row in rows && row != grant {
      FlatHas(Unless(grant), rows, row, row);
    }
  }

  /** A grant that is not there is put in at one place, and the others stay as they are. */
  lemma OthersOfAdded(users: seq<Policy.User>, grant: Table.Row)
    requires |grant| == 3 && grant !in Policy.RowsOf(users)
    ensures Others(Policy.RowsOf(Add(users, grant)), grant) == Policy.RowsOf(users)
  {
    hide Flat, Others, Policy.RowsOf;
    var a, c := AddedAt(users, grant);
    OthersAround(a, grant, c);
  }

  lemma AddedAt(users: seq<Policy.User>, grant: Table.Row) returns (a: seq<Table.Row>, c: seq<Table.Row>)
    requires |grant| == 3 && grant !in Policy.RowsOf(users)
    ensures Policy.RowsOf(users) == a + c && Policy.RowsOf(Add(users, grant)) == a + ([grant] + c)
  {
    hide Flat, Policy.RowsOf, Policy.RowsOfUser, Policy.Added;
    var before, at, behind := AddedEntry(users, grant);
    if at == [] {
      a, c := Policy.RowsOf(users), [];
      var single := Policy.User(grant[1], [grant[0]], grant[2]);
      RowsInParts(users, single, []);
      assert [single] + [] == [single];
      SingleRows(single, grant);
      Policy.NoRows();
    } else {
      var user := at[0];
      a, c := Policy.RowsOf(before) + Policy.RowsOfUser(user), Policy.RowsOf(behind);
      RowsInParts(before, user, behind);
      RowsInParts(before, user.(principals := user.principals + [grant[0]]), behind);
      GrownRows(user, grant[0], grant);
    }
  }

  /** The entry that an add makes grow, between the others, or none if the add makes a new one. */
  lemma AddedEntry(users: seq<Policy.User>, grant: Table.Row)
    returns (before: seq<Policy.User>, at: seq<Policy.User>, behind: seq<Policy.User>)
    requires |grant| == 3 && grant !in Policy.RowsOf(users)
    ensures |at| <= 1
    ensures at == [] ==> Add(users, grant) == users + [Policy.User(grant[1], [grant[0]], grant[2])]
    ensures at != [] ==>
              var user := at[0];
              && grant == [grant[0], user.identity, user.issuer] && users == before + ([user] + behind)
              && Add(users, grant) == before + ([user.(principals := user.principals + [grant[0]])] + behind)
  {
    var k := Policy.FirstMatch(users, grant[1], grant[2]);
    assert k < |users| ==> grant == [grant[0], users[k].identity, users[k].issuer];
    NotGranted(users, grant);
    hide Policy.FirstMatch, Policy.RowsOf, Policy.Added;
    if k < |users| {
      before, at, behind := users[..k], [users[k]], users[k + 1..];
      Updated(users, k, users[k]);
      Updated(users, k, users[k].(principals := users[k].principals + [grant[0]]));
      assert users[k := users[k]] == users;
    } else {
      before, at, behind := users, [], [];
    }
  }

  lemma NotGranted(users: seq<Policy.User>, grant: Table.Row)
    requires |grant| == 3 && grant !in Policy.RowsOf(users)
    ensures var k := Policy.FirstMatch(users, grant[1], grant[2]);
            Add(users, grant) ==
            if k < |users| then users[k := users[k].(principals := users[k].principals + [grant[0]])]
            else users + [Policy.User(grant[1], [grant[0]], grant[2])]
  {
    Policy.RowsOfMember(users, grant);
    hide Policy.FirstMatch, Policy.IsGranted, Policy.RowsOf;
  }

  lemma Updated(users: seq<Policy.User>, k: nat, user: Policy.User)
    requires k < |users|
    ensures users[k := user] == users[..k] + ([user] + users[k + 1..])
  {
  }

  lemma SingleRows(user: Policy.User, grant: Table.Row)
    requires |grant| == 3 && user.principals == [grant[0]] && grant == [grant[0], user.identity, user.issuer]
    ensures Policy.RowsOfUser(user) == [grant]
  {
    hide Flat;
    FlatOne(Policy.RowOfPrincipal(user), grant[0]);
  }

  lemma RowsInParts(before: seq<Policy.User>, at: Policy.User, behind: seq<Policy.User>)
    ensures Policy.RowsOf(before + ([at] + behind)) ==
            Policy.RowsOf(before) + Policy.RowsOfUser(at) + Policy.RowsOf(behind)
  {
    hide Flat;
    FlatAppend(Policy.RowsOfUser, before, [at] + behind);
    FlatCons(Policy.RowsOfUser, at, behind);
  }

  lemma GrownRows(user: Policy.User, principal: string, grant: Table.Row)
    requires grant == [principal, user.identity, user.issuer]
    ensures Policy.RowsOfUser(user.(principals := user.principals + [principal])) == Policy.RowsOfUser(user) + [grant]
  {
    hide Flat;
    var grown := user.(principals := user.principals + [principal]);
    FlatAppend(Policy.RowOfPrincipal(user), user.principals, [principal]);
    FlatOne(Policy.RowOfPrincipal(user), principal);
    assert Policy.RowOfPrincipal(grown) == Policy.RowOfPrincipal(user);
  }

  lemma OthersAround(a: seq<Table.Row>, grant: Table.Row, c: seq<Table.Row>)
    requires grant !in a && grant !in c
    ensures Others(a + ([grant] + c), grant) == a + c
  {
    hide Flat;
    FlatAppend(Unless(grant), a, [grant] + c);
    FlatCons(Unless(grant), grant, c);
    OthersWithout(a, grant);
    OthersWithout(c, grant);
  }

  /** The lines of kept rows read as themselves, and the grant's as it does. */
  lemma {:induction false} ReadsOthers(rows: seq<Table.Row>, grant: Table.Row)
    requires forall row <- rows :: row != grant ==> Table.KeepsRow(row) && Policy.IsGrant(row)
    ensures GrantsIn(grant) == [] ==> Flat(GrantsIn, rows) == Others(rows, grant)
    ensures |Flat(GrantsIn, rows)| >= |Others(rows, grant)|
    ensures GrantsIn(grant) != [] && grant in rows ==> |Flat(GrantsIn, rows)| > |Others(rows, grant)|
  {
    hide GrantsIn, Table.KeepsRow, Policy.IsGrant;
    if rows != [] {
      var n := |rows| - 1;
      ReadsOthers(rows[..n], grant);
      if rows[n] != grant {
        GrantsInKept(rows[n]);
        assert grant in rows ==> grant in rows[..n];
      }
    }
  }

  // ---------------------------------------------------------------- an add and its repetition

  /** Everything that was read is a clean grant. */
  lemma ReadIsGrant(content: string, row: Table.Row)
    requires row in Policy.RowsOf(Policy.UsersOf(content))
    ensures Table.IsCleanRow(row) && Policy.IsGrant(row)
  {
    hide Table.Rows, Flat, Policy.RowsOf, Table.IsCleanRow, Policy.IsGrant;
    Policy.RowsOfUsers(Table.Rows(content));
    FlatMember(Policy.KeepGrant, Table.Rows(content), row);
    Table.RowsAreClean(content, row);
  }

  lemma AddedRows(content: string, grant: Table.Row, row: Table.Row)
    requires |grant| == 3 && row in Policy.RowsOf(Add(Policy.UsersOf(content), grant)) && row != grant
    ensures Table.IsCleanRow(row) && Policy.IsGrant(row)
  {
    hide Table.IsCleanRow, Policy.IsGrant, Policy.RowsOf, Policy.UsersOf, Policy.Added;
    assert grant == [grant[0], grant[1], grant[2]];
    var users := Policy.UsersOf(content);
    Policy.AddedGrants(users, grant[0], grant[1], grant[2]);
    assert row in Policy.Grants(Add(users, grant));
    ReadIsGrant(content, row);
  }

  /** The same add twice, as the code does it. */
  function AddRow(content: string, grant: Table.Row): string
    requires |grant| == 3
  {
    Policy.AddToFile(content, grant[0], grant[1], grant[2])
  }

  /** Nothing to strip at the start and no line break in the new grant, which is clean unless it reads as no grant. */
  predicate IsOrderly(content: string, grant: Table.Row)
    requires |grant| == 3
  {
    && Table.KeepsStart(Policy.RowsOf(Add(Policy.UsersOf(content), grant))) && Table.IsLine(grant)
    && (Table.IsCleanRow(grant) || GrantsIn(grant) == [])
  }

  lemma OrderlyLines(content: string, grant: Table.Row)
    requires |grant| == 3 && IsOrderly(content, grant)
    ensures var rows := Policy.RowsOf(Add(Policy.UsersOf(content), grant));
            Table.KeepsStart(rows) && forall i :: 0 <= i < |rows| ==> Table.IsLine(rows[i])
  {
    hide Table.IsCleanRow, Policy.IsGrant, Policy.RowsOf, Policy.UsersOf, Policy.Added, Table.KeepsStart,
         Table.IsLine;
    var rows := Policy.RowsOf(Add(Policy.UsersOf(content), grant));
    forall i | 0 <= i < |rows| ensures Table.IsLine(rows[i]) {
      if rows[i] != grant {
        AddedRows(content, grant, rows[i]);
        Table.CleanIsLine(rows[i]);
      }
    }
  }

  /** Whatever is read after an add is kept. */
  lemma ReadAfterAddIsKept(content: string, grant: Table.Row, read: Table.Row)
    requires |grant| == 3 && IsOrderly(content, grant)
    requires read in Flat(GrantsIn, Policy.RowsOf(Add(Policy.UsersOf(content), grant)))
    ensures Table.KeepsRow(read)
  {
    hide Table.IsCleanRow, Policy.IsGrant, Policy.RowsOf, Policy.UsersOf, Policy.Added, Table.KeepsStart,
         Table.IsLine, GrantsIn, Flat, Table.KeepsRow;
    var rows := Policy.RowsOf(Add(Policy.UsersOf(content), grant));
    FlatMember(GrantsIn, rows, read);
    var row :| row in rows && read in GrantsIn(row);
    if row != grant {
      AddedRows(content, grant, row);
    }
    GrantsInAreKept(row, read);
  }

  /** A grant that is lost in place is put back where it was. */
  lemma LostInPlaceRepeats(content: string, grant: Table.Row)
    requires |grant| == 3 && IsOrderly(content, grant)
    requires IsLostInPlace(Policy.RowsOf(Add(Policy.UsersOf(content), grant)), grant)
    ensures AddRow(AddRow(content, grant), grant) == AddRow(content, grant)
  {
    hide Table.IsCleanRow, Policy.IsGrant, Policy.RowsOf, Policy.UsersOf, Policy.Added, Table.KeepsStart,
         Table.IsLine, GrantsIn, Flat, Table.KeepsRow, IsOrderly, Policy.Bytes, Others, Singles;
    var added := Add(Policy.UsersOf(content), grant);
    var rows := Policy.RowsOf(added);
    OrderlyLines(content, grant);
    ReadAgain(added);
    forall row <- rows | row != grant ensures Table.KeepsRow(row) && Policy.IsGrant(row) {
      AddedRows(content, grant, row);
      OthersMember(rows, grant, row);
    }
    ReadsOthers(rows, grant);
    Policy.SameRowsSameBytes(Add(Singles(Others(rows, grant)), grant), added);
  }

  /** And if an add that is not lossless repeats its bytes, the grant was lost in place. */
  lemma RepeatedIsLostInPlace(content: string, grant: Table.Row)
    requires |grant| == 3 && IsOrderly(content, grant)
    requires AddRow(AddRow(content, grant), grant) == AddRow(content, grant)
    ensures var rows := Policy.RowsOf(Add(Policy.UsersOf(content), grant));
            Policy.IsLossless(rows) || IsLostInPlace(rows, grant)
  {
    hide Table.IsCleanRow, Policy.IsGrant, Policy.RowsOf, Policy.UsersOf, Policy.Added, Table.KeepsStart,
         Table.IsLine, GrantsIn, Flat, Table.KeepsRow, Policy.Bytes, Others, Singles, Policy.IsLossless,
         Policy.IsGranted, IsOrderly;
    assert grant == [grant[0], grant[1], grant[2]];
    var added := Add(Policy.UsersOf(content), grant);
    var rows := Policy.RowsOf(added);
    var again := Policy.UsersOf(Policy.Bytes(added));
    var read := Policy.RowsOf(again);
    Policy.BytesDetermineGrants(Add(again, grant), added);
    OrderlyLines(content, grant);
    ReadAgain(added);
    if grant in read {
      AddedAgain(again, grant);
      Policy.ReadBack(added);
    } else {
      OthersOfAdded(again, grant);
      forall row <- rows | row != grant ensures Table.KeepsRow(row) && Policy.IsGrant(row) {
        OthersMember(rows, grant, row);
        ReadAfterAddIsKept(content, grant, row);
        AddedRows(content, grant, row);
      }
      ReadsOthers(rows, grant);
      Policy.AddedGrants(Policy.UsersOf(content), grant[0], grant[1], grant[2]);
      assert grant in Policy.Grants(added) && grant in rows;
      OthersAreKept(rows, grant);
    }
  }

  lemma OthersAreKept(rows: seq<Table.Row>, grant: Table.Row)
    requires forall row <- rows :: row != grant ==> Table.KeepsRow(row)
    ensures AllKept(Others(rows, grant))
  {
    hide Table.KeepsRow;
    var others := Others(rows, grant);
    forall i | 0 <= i < |others| ensures Table.KeepsRow(others[i]) {
      OthersMember(rows, grant, others[i]);
    }
  }

  lemma AddedAgain(users: seq<Policy.User>, grant: Table.Row)
    requires |grant| == 3 && grant in Policy.RowsOf(users)
    ensures Add(users, grant) == users
  {
    hide Policy.RowsOf;
    Policy.RowsOfMember(users, grant);
  }

  /**
   Repeating an add leaves the bytes as they are if and only if the grants are lossless or the new one
   is put back; for every file and every grant.
   */
  lemma RepeatsExactly(content: string, grant: Table.Row)
    requires |grant| == 3
    ensures var rows := Policy.RowsOf(Add(Policy.UsersOf(content), grant));
            AddRow(AddRow(content, grant), grant) == AddRow(content, grant) <==>
            Policy.IsLossless(rows) || IsPutBack(rows, grant)
  {
    hide Policy.RowsOf, Policy.UsersOf, Policy.Added, Policy.Bytes, Policy.IsLossless, Others, Singles, Flat,
         Policy.FileLines, Policy.IsGranted;
    assert grant == [grant[0], grant[1], grant[2]];
    var added := Add(Policy.UsersOf(content), grant);
    var rows, again := Policy.RowsOf(added), Policy.UsersOf(Policy.Bytes(added));
    assert Policy.Bytes(added) == Table.Render(rows) by { BytesOfRows(added); }
    Policy.FileGrants(Policy.Bytes(added));
    ReadSingles(Policy.Bytes(added));
    if AddRow(AddRow(content, grant), grant) == AddRow(content, grant) {
      Policy.BytesDetermineGrants(Add(again, grant), added);
      if grant in Policy.RowsOf(again) {
        AddedAgain(again, grant);
        Policy.ReadBack(added);
      } else {
        OthersOfAdded(again, grant);
      }
    }
    if IsPutBack(rows, grant) {
      Policy.SameRowsSameBytes(Add(again, grant), added);
    }
    if Policy.IsLossless(rows) {
      LosslessRepeats(content, grant);
    }
  }

  lemma BytesOfRows(users: seq<Policy.User>)
    ensures Policy.Bytes(users) == Table.Render(Policy.RowsOf(users))
  {
  }

  lemma LosslessRepeats(content: string, grant: Table.Row)
    requires |grant| == 3 && Policy.IsLossless(Policy.RowsOf(Add(Policy.UsersOf(content), grant)))
    ensures AddRow(AddRow(content, grant), grant) == AddRow(content, grant)
  {
    hide Policy.RowsOf, Policy.UsersOf, Policy.Added, Policy.IsLossless, Policy.AddToFile;
    assert grant == [grant[0], grant[1], grant[2]];
    Policy.AddedIsLossless(content, grant[0], grant[1], grant[2]);
    Policy.RepeatedAdd(2, content, grant[0], grant[1], grant[2]);
    TwoAdds(content, grant);
  }

  /** In an orderly case it can be judged row by row: the new grant is lost in place. */
  lemma RepeatsOrderly(content: string, grant: Table.Row)
    requires |grant| == 3 && IsOrderly(content, grant)
    ensures var rows := Policy.RowsOf(Add(Policy.UsersOf(content), grant));
            AddRow(AddRow(content, grant), grant) == AddRow(content, grant) <==>
            Policy.IsLossless(rows) || IsLostInPlace(rows, grant)
  {
    hide Policy.RowsOf, Policy.UsersOf, Policy.Added, Policy.Bytes, Policy.IsLossless, IsOrderly, IsLostInPlace;
    assert grant == [grant[0], grant[1], grant[2]];
    var rows := Policy.RowsOf(Add(Policy.UsersOf(content), grant));
    if AddRow(AddRow(content, grant), grant) == AddRow(content, grant) {
      RepeatedIsLostInPlace(content, grant);
    }
    if IsLostInPlace(rows, grant) {
      LostInPlaceRepeats(content, grant);
    }
    if Policy.IsLossless(rows) {
      LosslessRepeats(content, grant);
    }
  }

  /** Once repeated without a change, always repeated without a change. */
  lemma {:induction false} RepeatsForever(n: nat, content: string, grant: Table.Row)
    requires n > 0 && |grant| == 3 && AddRow(AddRow(content, grant), grant) == AddRow(content, grant)
    ensures Policy.AddTimes(n, content, grant[0], grant[1], grant[2]) == AddRow(content, grant)
  {
    hide Policy.AddToFile;
    if n > 1 {
      RepeatsForever(n - 1, content, grant);
    }
  }

  lemma TwoAdds(content: string, grant: Table.Row)
    requires |grant| == 3
    ensures Policy.AddTimes(2, content, grant[0], grant[1], grant[2]) == AddRow(AddRow(content, grant), grant)
  {
    hide Policy.AddToFile;
    assert Policy.AddTimes(1, content, grant[0], grant[1], grant[2]) == AddRow(content, grant);
  }
}
