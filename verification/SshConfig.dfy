/**
 The opkssh config text: the line that login puts in front (commands/login.go) and its removal by
 logout (commands/logout.go). The main results are that logout undoes login, exactly when it does,
 and that lines about other keys survive any number of removals.
 */
module SshConfig {
  import opened Text

  function IdentityLine(path: string): string { "IdentityFile " + path }

  /** Login: a substring test decides whether the line is needed. */
  function WithKey(config: string, path: string): string
  {
    if Contains(config, path) then config else IdentityLine(path) + "\n" + config
  }

  /** strings.ReplaceAll of carriage return, line feed by line feed. */
  function Normalized(s: string): string
  {
    if |s| < 2 then s
    else if s[0] == '\r' && s[1] == '\n' then "\n" + Normalized(s[2..])
    else [s[0]] + Normalized(s[1..])
  }

  predicate Names(line: string, path: string) { TrimSpace(line) == IdentityLine(path) }

  function UnlessNames(path: string): string -> seq<string>
  {
    (line: string) => if Names(line, path) then [] else [line]
  }

  /** The lines that do not name the key. */
  function Others(lines: seq<string>, path: string): seq<string> { Flat(UnlessNames(path), lines) }

  /** Logout: drop the lines that name the key. */
  function WithoutKey(config: string, path: string): string
  {
    Join(Others(Split(Normalized(config), '\n'), path), "\n")
  }

  method RemoveFromConfig(content: string, path: string) returns (newContent: string)
    ensures newContent == WithoutKey(content, path)
  {
    hide Normalized, TrimSpace;
    var identityLine := "IdentityFile " + path;
    var lines := Split(Normalized(content), '\n');
    var newLines: seq<string> := [];
    for i := 0 to |lines|
      invariant newLines == Others(lines[..i], path)
    {
      FlatStep(UnlessNames(path), lines, i);
      if TrimSpace(lines[i]) != identityLine {
        newLines := newLines + [lines[i]];
      }
    }
    assert lines[..|lines|] == lines;
    newContent := Join(newLines, "\n");
  }

  /** The edit: none if the path is there already, else one line in front; afterwards the path is there. */
  lemma WhatIsEdited(config: string, path: string)
    ensures Contains(config, path) ==> WithKey(config, path) == config
    ensures !Contains(config, path) ==> WithKey(config, path) == "IdentityFile " + path + "\n" + config
    ensures Contains(WithKey(config, path), path)
  {
    var s := "IdentityFile " + path + "\n" + config;
    assert s[13..13 + |path|] == path;
    ContainsAt(s, path, 13);
  }

  /** A line names a key if and only if it is, between white space, the key's line. */
  lemma WhatNames(line: string, path: string)
    requires path != "" && !IsSpace(path[|path| - 1])
    ensures Names(line, path) <==>
            exists lead, tail :: AllSpaces(lead) && AllSpaces(tail) && line == lead + ("IdentityFile " + path) + tail
  {
    CapitalIsVisible();
    hide IsSpace, TrimSpace;
    var lead, tail := TrimSpaceParts(line);
    assert line == lead + TrimSpace(line) + tail;
    forall before, behind
      | AllSpaces(before) && AllSpaces(behind) && line == before + ("IdentityFile " + path) + behind
      ensures Names(line, path)
    {
      TrimSpaceBetween(before, "IdentityFile " + path, behind);
    }
  }

  lemma CapitalIsVisible()
    ensures !IsSpace('I')
  {
  }

  // ---------------------------------------------------------------- lines

  /** A text has at least one line. */
  function OrBlank(lines: seq<string>): seq<string> { if lines == [] then [""] else lines }

  lemma {:induction false} OthersAreLines(lines: seq<string>, path: string, i: nat)
    requires i < |Others(lines, path)|
    ensures Others(lines, path)[i] in lines && !Names(Others(lines, path)[i], path)
  {
    var line := Others(lines, path)[i];
    FlatMember(UnlessNames(path), lines, line);
  }

  /** After a removal exactly the other lines are left, in order. */
  lemma LinesAfterRemoval(config: string, path: string)
    ensures Split(WithoutKey(config, path), '\n') == OrBlank(Others(Split(Normalized(config), '\n'), path))
  {
    hide Normalized, Names;
    var lines := Split(Normalized(config), '\n');
    var others := Others(lines, path);
    if others != [] {
      forall p <- others ensures '\n' !in p {
        var i :| 0 <= i < |others| && others[i] == p;
        OthersAreLines(lines, path, i);
      }
      SplitOfJoin(others, '\n');
    }
  }

  lemma {:induction false} OthersShorter(lines: seq<string>, path: string)
    ensures |Others(lines, path)| <= |lines|
    ensures (forall i :: 0 <= i < |lines| ==> !Names(lines[i], path)) <==> |Others(lines, path)| == |lines|
    ensures |Others(lines, path)| == |lines| ==> Others(lines, path) == lines
  {
    hide Names;
    if lines != [] {
      var n := |lines| - 1;
      OthersShorter(lines[..n], path);
      assert lines == lines[..n] + [lines[n]];
    }
  }

  predicate NamesSomewhere(config: string, path: string)
  {
    var lines := Split(Normalized(config), '\n');
    exists i :: 0 <= i < |lines| && Names(lines[i], path)
  }

  /** Removing a key changes nothing but line ends exactly when no line names it. */
  lemma RemovalIsIdentity(config: string, path: string)
    ensures WithoutKey(config, path) == Normalized(config) <==> !NamesSomewhere(config, path)
  {
    var lines := Split(Normalized(config), '\n');
    EmptyNamesNothing(path);
    hide Normalized, Names;
    OthersShorter(lines, path);
    JoinOfSplit(Normalized(config), '\n');
    LinesAfterRemoval(config, path);
  }

  lemma EmptyNamesNothing(path: string)
    ensures !Names("", path)
  {
  }

  // ---------------------------------------------------------------- logout undoes login

  /** A path as login builds it: no line breaks, and its last character is visible. */
  predicate IsKeyPath(path: string)
  {
    path != "" && '\n' !in path && '\r' !in path && !IsSpace(path[|path| - 1])
  }

  lemma NormalizedCons(c: char, s: string)
    requires c != '\r'
    ensures Normalized([c] + s) == [c] + Normalized(s)
  {
    assert ([c] + s)[1..] == s;
  }

  lemma {:induction false} NormalizedBehind(a: string, s: string)
    requires '\r' !in a
    ensures Normalized(a + s) == a + Normalized(s)
  {
    hide Normalized;
    if a == "" {
      assert a + s == s && a + Normalized(s) == Normalized(s);
    } else {
      assert a + s == [a[0]] + (a[1..] + s);
      NormalizedBehind(a[1..], s);
      NormalizedCons(a[0], a[1..] + s);
      assert [a[0]] + (a[1..] + Normalized(s)) == a + Normalized(s);
    }
  }

  lemma IdentityLineNames(path: string)
    requires IsKeyPath(path)
    ensures Names(IdentityLine(path), path) && '\n' !in IdentityLine(path) && '\r' !in IdentityLine(path)
  {
    TrimSpaceOfTrimmed(IdentityLine(path));
  }

  lemma OthersBehindKey(path: string, lines: seq<string>)
    requires IsKeyPath(path)
    ensures Others([IdentityLine(path)] + lines, path) == Others(lines, path)
  {
    IdentityLineNames(path);
    FlatCons(UnlessNames(path), IdentityLine(path), lines);
  }

  /** Removing the key from a config with its line in front is removing it from the config. */
  lemma RemovalBehindKey(config: string, path: string)
    requires IsKeyPath(path)
    ensures WithoutKey(IdentityLine(path) + "\n" + config, path) == WithoutKey(config, path)
  {
    IdentityLineNames(path);
    var line := IdentityLine(path);
    hide IdentityLine, Names, Flat;
    NormalizedBehind(line + "\n", config);
    SplitCons(line, Normalized(config), '\n');
    OthersBehindKey(path, Split(Normalized(config), '\n'));
  }

  lemma NamesContains(line: string, path: string)
    requires Names(line, path)
    ensures Contains(line, path)
  {
    hide TrimSpace;
    var id := IdentityLine(path);
    TrimSpaceIsInfix(line);
    assert id[|id| - |path|..|id| - |path| + |path|] == path;
    hide IdentityLine;
    ContainsAt(id, path, |id| - |path|);
    ContainsTransitive(line, id, path);
  }

  /** A line that names the key puts its path into the text. */
  lemma NamedIsContained(config: string, path: string)
    requires IsKeyPath(path) && NamesSomewhere(config, path)
    ensures Contains(config, path)
  {
    hide Normalized, Names, Split, OccursAt, Contains;
    var text := Normalized(config);
    var lines := Split(text, '\n');
    var i :| 0 <= i < |lines| && Names(lines[i], path);
    SplitPartIsInfix(text, '\n', i);
    NamesContains(lines[i], path);
    ContainsTransitive(text, lines[i], path);
    NormalizedContains(config, path, Position(text, path));
  }

  /** Line-break-free text found after normalising was there before. */
  lemma {:induction false} NormalizedContains(s: string, t: string, k: nat)
    requires OccursAt(Normalized(s), t, k) && '\n' !in t && '\r' !in t
    ensures Contains(s, t)
    decreases |s|
  {
    if t == "" {
      ContainsAt(s, t, 0);
    } else if |s| < 2 {
      ContainsAt(s, t, k);
    } else if k == 0 {
      NormalizedPrefix(s, t);
      ContainsAt(s, t, 0);
    } else {
      var n := if s[0] == '\r' && s[1] == '\n' then 2 else 1;
      var rest := Normalized(s[n..]);
      assert Normalized(s)[1..] == rest;
      OccursInTail(Normalized(s), t, k);
      NormalizedContains(s[n..], t, k - 1);
      assert s[n..][..] == s[n..];
      ContainsDrop(s, t, n);
    }
  }

  lemma OccursInTail(s: string, t: string, k: nat)
    requires k > 0 && s != "" && OccursAt(s, t, k)
    ensures OccursAt(s[1..], t, k - 1)
  {
    forall i | 0 <= i < |t| ensures s[1..][k - 1..k - 1 + |t|][i] == t[i] {
      assert t[i] == s[k..k + |t|][i] == s[k + i] == s[1..][k - 1 + i];
    }
    assert s[1..][k - 1..k - 1 + |t|] == t;
  }

  lemma ContainsDrop(s: string, t: string, n: nat)
    requires n <= |s| && Contains(s[n..], t)
    ensures Contains(s, t)
  {
    ContainsAt(s, s[n..], n);
    ContainsTransitive(s, s[n..], t);
  }

  lemma {:induction false} NormalizedPrefix(s: string, t: string)
    requires t <= Normalized(s) && '\n' !in t && '\r' !in t
    ensures t <= s
    decreases |s|
  {
    if |s| >= 2 && t != "" {
      assert t[0] == Normalized(s)[0] && t[0] in t;
      assert Normalized(s) == [s[0]] + Normalized(s[1..]);
      assert t[1..] <= Normalized(s)[1..];
      NormalizedPrefix(s[1..], t[1..]);
      assert t == [t[0]] + t[1..] && s == [s[0]] + s[1..];
    }
  }

  /**
   Logout undoes login: for every config and every key path, adding the key and removing it gives
   the config back, up to its line ends, exactly when the config had no line for that key.
   */
  lemma LogoutUndoesLogin(config: string, path: string)
    requires IsKeyPath(path)
    ensures WithoutKey(WithKey(config, path), path) == Normalized(config) <==> !NamesSomewhere(config, path)
    ensures !Contains(config, path) ==> !NamesSomewhere(config, path)
  {
    hide Normalized, NamesSomewhere;
    if NamesSomewhere(config, path) {
      NamedIsContained(config, path);
    }
    RemovalBehindKey(config, path);
    RemovalIsIdentity(config, path);
  }

  // ---------------------------------------------------------------- any number of removals

  /** The config after removing several keys, one after the other. */
  function WithoutKeys(config: string, paths: seq<string>): string
  {
    if paths == [] then config else WithoutKey(WithoutKeys(config, paths[..|paths| - 1]), paths[|paths| - 1])
  }

  /** A line without carriage returns at its end. */
  function StripCr(line: string): string
  {
    if line != "" && line[|line| - 1] == '\r' then StripCr(line[..|line| - 1]) else line
  }

  function StripLine(line: string): seq<string> { [StripCr(line)] }

  function Stripped(lines: seq<string>): seq<string> { Flat(StripLine, lines) }

  /** The lines of a text, whatever its line ends. */
  function Lines(config: string): seq<string> { Stripped(Split(config, '\n')) }

  predicate NamesAny(line: string, paths: seq<string>)
  {
    exists i :: 0 <= i < |paths| && Names(line, paths[i])
  }

  function UnlessNamesAny(paths: seq<string>): string -> seq<string>
  {
    (line: string) => if NamesAny(line, paths) then [] else [line]
  }

  lemma {:induction false} NamesStripped(line: string, path: string)
    ensures Names(StripCr(line), path) <==> Names(line, path)
  {
    if line != "" && line[|line| - 1] == '\r' {
      hide TrimSpace;
      TrimSpaceOfInit(line);
      NamesStripped(line[..|line| - 1], path);
    }
  }

  function DropCr(line: string): string
  {
    if line != "" && line[|line| - 1] == '\r' then line[..|line| - 1] else line
  }

  /** Normalising drops one carriage return at the end of every line but the last. */
  function DropEach(lines: seq<string>): seq<string>
  {
    if |lines| <= 1 then lines else [DropCr(lines[0])] + DropEach(lines[1..])
  }

  lemma DropCrCons(c: char, line: string)
    requires line != "" || c != '\r'
    ensures DropCr([c] + line) == [c] + DropCr(line)
  {
  }

  lemma {:induction false} LinesOfNormalized(s: string)
    ensures Split(Normalized(s), '\n') == DropEach(Split(s, '\n'))
    decreases |s|
  {
    if |s| < 2 {
      if s != "" {
        assert s[1..] == "";
      }
    } else if s[0] == '\r' && s[1] == '\n' {
      LinesOfNormalized(s[2..]);
      NormalizedCrLf(s);
    } else {
      LinesOfNormalized(s[1..]);
      NormalizedOther(s);
    }
  }

  /** A first line in front of the others: it loses a carriage return, they lose theirs. */
  lemma DropEachCons(line: string, rest: seq<string>)
    requires rest != []
    ensures DropEach([line] + rest) == [DropCr(line)] + DropEach(rest)
  {
    assert ([line] + rest)[1..] == rest;
  }

  lemma SplitOfCrLf(s: string)
    requires |s| >= 2 && s[0] == '\r' && s[1] == '\n'
    ensures Split(s, '\n') == ["\r"] + Split(s[2..], '\n')
  {
    hide Split;
    assert s == "\r" + ['\n'] + s[2..];
    SplitCons("\r", s[2..], '\n');
  }

  lemma NormalizedOfCrLf(s: string)
    requires |s| >= 2 && s[0] == '\r' && s[1] == '\n'
    ensures Split(Normalized(s), '\n') == [""] + Split(Normalized(s[2..]), '\n')
  {
    hide Split;
    var tail := Normalized(s[2..]);
    assert Normalized(s) == "" + ['\n'] + tail;
    SplitCons("", tail, '\n');
  }

  lemma NormalizedCrLf(s: string)
    requires |s| >= 2 && s[0] == '\r' && s[1] == '\n'
    requires Split(Normalized(s[2..]), '\n') == DropEach(Split(s[2..], '\n'))
    ensures Split(Normalized(s), '\n') == DropEach(Split(s, '\n'))
  {
    hide Split, Normalized, DropEach;
    SplitOfCrLf(s);
    NormalizedOfCrLf(s);
    DropEachCons("\r", Split(s[2..], '\n'));
  }

  lemma NormalizedOther(s: string)
    requires |s| >= 2 && !(s[0] == '\r' && s[1] == '\n')
    requires Split(Normalized(s[1..]), '\n') == DropEach(Split(s[1..], '\n'))
    ensures Split(Normalized(s), '\n') == DropEach(Split(s, '\n'))
  {
    hide Split, Normalized, DropEach;
    var tail, rest := Normalized(s[1..]), Split(s[1..], '\n');
    NormalizedStep(s);
    assert [s[0]] + s[1..] == s;
    if s[0] == '\n' {
      SplitBehind(s[0], tail, '\n');
      SplitBehind(s[0], s[1..], '\n');
      DropEachCons("", rest);
    } else {
      if s[1] != '\n' {
        SplitStarts(s[1..], '\n');
      }
      NormalizedInLine(s[0], tail, s[1..]);
    }
  }

  lemma NormalizedStep(s: string)
    requires |s| >= 2 && !(s[0] == '\r' && s[1] == '\n')
    ensures Normalized(s) == [s[0]] + Normalized(s[1..])
  {
  }

  lemma NormalizedInLine(c: char, tail: string, text: string)
    requires c != '\n' && !(c == '\r' && Split(text, '\n')[0] == "")
    requires Split(tail, '\n') == DropEach(Split(text, '\n'))
    ensures Split([c] + tail, '\n') == DropEach(Split([c] + text, '\n'))
  {
    hide Split, DropEach;
    SplitBehind(c, tail, '\n');
    SplitBehind(c, text, '\n');
    DropEachBehind(c, Split(text, '\n'));
  }

  /** A character in front of the first line, which is not a carriage return that ends it. */
  lemma DropEachBehind(c: char, lines: seq<string>)
    requires lines != [] && !(c == '\r' && lines[0] == "")
    ensures DropEach([[c] + lines[0]] + lines[1..]) == [[c] + DropEach(lines)[0]] + DropEach(lines)[1..]
  {
    var more := [[c] + lines[0]] + lines[1..];
    assert more[1..] == lines[1..];
    if |lines| > 1 {
      DropCrCons(c, lines[0]);
    }
  }

  lemma {:induction false} StrippedDropped(lines: seq<string>)
    ensures Stripped(DropEach(lines)) == Stripped(lines)
  {
    if |lines| > 1 {
      StrippedDropped(lines[1..]);
      FlatCons(StripLine, DropCr(lines[0]), DropEach(lines[1..]));
      assert lines == [lines[0]] + lines[1..];
      FlatCons(StripLine, lines[0], lines[1..]);
      assert StripCr(DropCr(lines[0])) == StripCr(lines[0]);
    }
  }

  lemma {:induction false} StrippedOthers(lines: seq<string>, path: string)
    ensures Stripped(Others(lines, path)) == Others(Stripped(lines), path)
  {
    hide Names, StripCr;
    if lines != [] {
      var n := |lines| - 1;
      StrippedOthers(lines[..n], path);
      NamesStripped(lines[n], path);
      FlatAppend(StripLine, Others(lines[..n], path), UnlessNames(path)(lines[n]));
      FlatAppend(UnlessNames(path), Stripped(lines[..n]), StripLine(lines[n]));
      FlatOne(UnlessNames(path), StripCr(lines[n]));
      FlatOne(StripLine, lines[n]);
    }
  }

  lemma LinesAfterOne(config: string, path: string)
    ensures Lines(WithoutKey(config, path)) == OrBlank(Others(Lines(config), path))
  {
    hide Normalized, Names, Split, WithoutKey, Flat;
    var lines := Split(Normalized(config), '\n');
    LinesAfterRemoval(config, path);
    LinesOfNormalized(config);
    StrippedDropped(Split(config, '\n'));
    StrippedOthers(lines, path);
    FlatOne(StripLine, "");
    StrippedLength(Others(lines, path));
  }

  lemma {:induction false} StrippedLength(lines: seq<string>)
    ensures |Stripped(lines)| == |lines|
  {
    if lines != [] {
      StrippedLength(lines[..|lines| - 1]);
    }
  }

  lemma {:induction false} OthersOfAll(lines: seq<string>, paths: seq<string>)
    requires paths != []
    ensures var n := |paths| - 1;
            Others(Flat(UnlessNamesAny(paths[..n]), lines), paths[n]) == Flat(UnlessNamesAny(paths), lines)
  {
    hide Names;
    var n := |paths| - 1;
    if lines != [] {
      var k := |lines| - 1;
      var line := lines[k];
      OthersOfAll(lines[..k], paths);
      FlatAppend(UnlessNames(paths[n]), Flat(UnlessNamesAny(paths[..n]), lines[..k]), UnlessNamesAny(paths[..n])(line));
      NamesAnySnoc(line, paths);
      FlatOne(UnlessNames(paths[n]), line);
    }
  }

  lemma NamesAnySnoc(line: string, paths: seq<string>)
    requires paths != []
    ensures NamesAny(line, paths) <==> NamesAny(line, paths[..|paths| - 1]) || Names(line, paths[|paths| - 1])
  {
    hide Names;
    var n := |paths| - 1;
    if NamesAny(line, paths[..n]) {
      var i :| 0 <= i < n && Names(line, paths[..n][i]);
      assert Names(line, paths[i]);
    }
    if NamesAny(line, paths) && !Names(line, paths[n]) {
      var i :| 0 <= i < |paths| && Names(line, paths[i]);
      assert Names(line, paths[..n][i]);
    }
  }

  lemma OthersOrBlank(lines: seq<string>, path: string)
    ensures OrBlank(Others(OrBlank(lines), path)) == OrBlank(Others(lines, path))
  {
    EmptyNamesNothing(path);
    FlatOne(UnlessNames(path), "");
  }

  /** After any number of removals the lines that name no removed key are left, all of them and in order. */
  lemma {:induction false} OtherLinesSurvive(config: string, paths: seq<string>)
    ensures Lines(WithoutKeys(config, paths)) == OrBlank(Flat(UnlessNamesAny(paths), Lines(config)))
  {
    hide Names, WithoutKey, Lines;
    if paths == [] {
      StrippedLines(config);
      NothingRemoved(Lines(config));
    } else {
      var n := |paths| - 1;
      OtherLinesSurvive(config, paths[..n]);
      LinesAfterOne(WithoutKeys(config, paths[..n]), paths[n]);
      OthersOrBlank(Flat(UnlessNamesAny(paths[..n]), Lines(config)), paths[n]);
      OthersOfAll(Lines(config), paths);
    }
  }

  /** Removing keys makes no difference between a config and the same config with one of them added. */
  lemma RemovedWithOthers(config: string, path: string, paths: seq<string>)
    requires IsKeyPath(path) && path in paths
    ensures Lines(WithoutKeys(WithKey(config, path), paths)) == Lines(WithoutKeys(config, paths))
  {
    hide Names, WithoutKeys, Flat, Split, NamesAny, IsKeyPath, Stripped;
    OtherLinesSurvive(config, paths);
    OtherLinesSurvive(WithKey(config, path), paths);
    if !Contains(config, path) {
      LinesBehindKey(config, path);
      NamesOne(path, paths);
      FlatCons(UnlessNamesAny(paths), IdentityLine(path), Lines(config));
    }
  }

  /** Order and repeats of the removed keys do not matter to the lines that are left. */
  lemma SameKeysSameLines(config: string, paths: seq<string>, others: seq<string>)
    requires forall path :: path in paths <==> path in others
    ensures Lines(WithoutKeys(config, paths)) == Lines(WithoutKeys(config, others))
  {
    hide Names, WithoutKeys, Flat, Lines;
    OtherLinesSurvive(config, paths);
    OtherLinesSurvive(config, others);
    SameNames(Lines(config), paths, others);
  }

  lemma {:induction false} SameNames(lines: seq<string>, paths: seq<string>, others: seq<string>)
    requires forall path :: path in paths <==> path in others
    ensures Flat(UnlessNamesAny(paths), lines) == Flat(UnlessNamesAny(others), lines)
  {
    hide Names, NamesAny;
    if lines != [] {
      SameNames(lines[..|lines| - 1], paths, others);
      var line := lines[|lines| - 1];
      if NamesAny(line, paths) {
        NamesAnyMore(line, paths, others);
      } else if NamesAny(line, others) {
        NamesAnyMore(line, others, paths);
      }
    }
  }

  lemma NamesAnyMore(line: string, paths: seq<string>, more: seq<string>)
    requires NamesAny(line, paths) && forall path <- paths :: path in more
    ensures NamesAny(line, more)
  {
    hide Names;
    var i :| 0 <= i < |paths| && Names(line, paths[i]);
    assert paths[i] in paths;
    var j :| 0 <= j < |more| && more[j] == paths[i];
  }

  lemma {:induction false} WithoutKeysAppend(config: string, a: seq<string>, b: seq<string>)
    ensures WithoutKeys(WithoutKeys(config, a), b) == WithoutKeys(config, a + b)
  {
    hide WithoutKey;
    if b == [] {
      assert a + b == a;
    } else {
      var n := |b| - 1;
      assert (a + b)[..|a + b| - 1] == a + b[..n];
      WithoutKeysAppend(config, a, b[..n]);
    }
  }

  /** Some line of the config names the key. */
  ghost predicate HasLine(config: string, path: string)
  {
    exists i :: 0 <= i < |Lines(config)| && Names(Lines(config)[i], path)
  }

  /** Removing one key more makes no difference to the lines exactly if no line names it. */
  lemma OneKeyMore(config: string, paths: seq<string>, path: string)
    requires path !in paths
    ensures Lines(WithoutKeys(config, paths)) == Lines(WithoutKeys(config, paths + [path])) <==> !HasLine(config, path)
  {
    EmptyNamesNothing(path);
    hide Names, WithoutKeys, Flat, Lines;
    OtherLinesSurvive(config, paths);
    OtherLinesSurvive(config, paths + [path]);
    OneKeyLess(Lines(config), paths, path);
  }

  /** The lines that survive one removal more: fewer exactly if some line names the key. */
  lemma {:induction false} OneKeyLess(lines: seq<string>, paths: seq<string>, path: string)
    requires path !in paths
    ensures var some, fewer := Flat(UnlessNamesAny(paths), lines), Flat(UnlessNamesAny(paths + [path]), lines);
            && |fewer| <= |some|
            && ((forall i :: 0 <= i < |lines| ==> !Names(lines[i], path)) ==> fewer == some)
            && ((exists i :: 0 <= i < |lines| && Names(lines[i], path)) ==>
                  |fewer| < |some| && exists i :: 0 <= i < |some| && Names(some[i], path))
  {
    hide Names, NamesAny;
    if lines != [] {
      var n := |lines| - 1;
      var line := lines[n];
      OneKeyLess(lines[..n], paths, path);
      NamesOneMore(line, paths, path);
      var some := Flat(UnlessNamesAny(paths), lines[..n]);
      if Names(line, path) {
        assert (some + [line])[|some|] == line;
      } else if exists i :: 0 <= i < |lines| && Names(lines[i], path) {
        assert exists i :: 0 <= i < |lines[..n]| && Names(lines[..n][i], path);
        var i :| 0 <= i < |some| && Names(some[i], path);
        assert Flat(UnlessNamesAny(paths), lines)[i] == some[i];
      }
    }
  }

  /** A line names one key at most. */
  lemma NamesOneMore(line: string, paths: seq<string>, path: string)
    requires path !in paths
    ensures NamesAny(line, paths + [path]) <==> NamesAny(line, paths) || Names(line, path)
    ensures !(NamesAny(line, paths) && Names(line, path))
  {
    hide TrimSpace;
    var more := paths + [path];
    assert more[|paths|] == path;
    if NamesAny(line, paths) {
      var i :| 0 <= i < |paths| && Names(line, paths[i]);
      assert more[i] == paths[i];
      assert IdentityLine(paths[i])[13..] == paths[i] && IdentityLine(path)[13..] == path;
    }
  }

  lemma LinesBehindKey(config: string, path: string)
    requires IsKeyPath(path)
    ensures Lines(IdentityLine(path) + "\n" + config) == [IdentityLine(path)] + Lines(config)
  {
    IdentityLineNames(path);
    var line := IdentityLine(path);
    hide IdentityLine, Names, Flat, Split;
    SplitCons(line, config, '\n');
    assert line + "\n" + config == line + ['\n'] + config;
    FlatCons(StripLine, line, Split(config, '\n'));
    assert line != "" ==> line[|line| - 1] in line;
  }

  lemma NamesOne(path: string, paths: seq<string>)
    requires IsKeyPath(path) && path in paths
    ensures NamesAny(IdentityLine(path), paths)
  {
    IdentityLineNames(path);
    hide Names;
    var i :| 0 <= i < |paths| && paths[i] == path;
  }

  lemma StrippedLines(config: string)
    ensures Lines(config) != []
  {
    StrippedLength(Split(config, '\n'));
  }

  lemma {:induction false} NothingRemoved(lines: seq<string>)
    ensures Flat(UnlessNamesAny([]), lines) == lines
  {
    if lines != [] {
      var n := |lines| - 1;
      NothingRemoved(lines[..n]);
      assert lines == lines[..n] + [lines[n]];
    }
  }
}
