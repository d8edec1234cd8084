/**
 The line that the verify command prints for sshd (commands/verify.go), and a reader of its option
 field in the manner of an authorized_keys file.
 */
module Verify {
  import opened Text
  import Enforcer

  predicate IsHead(c: char) { 'a' <= c <= 'z' || 'A' <= c <= 'Z' || '0' <= c <= '9' || c == '_' }

  predicate IsTail(c: char) { IsHead(c) || c == '.' || c == '+' || c == '@' || c == '-' }

  /** ^[a-zA-Z0-9_][a-zA-Z0-9._+@-]{0,127}\$?$ */
  predicate ValidPrincipal(p: string)
  {
    var name := NameOf(p);
    1 <= |name| <= 128 && IsHead(name[0]) && forall i :: 1 <= i < |name| ==> IsTail(name[i])
  }

  /** A principal without its dollar sign. */
  function NameOf(p: string): string { if p != "" && p[|p| - 1] == '$' then p[..|p| - 1] else p }

  /** Which principals are valid: a head, up to 127 further characters and perhaps a dollar sign. */
  lemma WhichPrincipals(p: string)
    ensures ValidPrincipal(p) <==>
            exists head: char, tail: string, end: string ::
              && p == [head] + tail + end && |tail| <= 127 && (end == "" || end == "$")
              && ('a' <= head <= 'z' || 'A' <= head <= 'Z' || '0' <= head <= '9' || head == '_')
              && forall c <- tail :: 'a' <= c <= 'z' || 'A' <= c <= 'Z' || '0' <= c <= '9' || c in "_.+@-"
  {
    if ValidPrincipal(p) {
      var name := NameOf(p);
      var end := if p[|p| - 1] == '$' then "$" else "";
      var head, tail := name[0], name[1..];
      assert name == [head] + tail;
      if p[|p| - 1] == '$' {
        assert p == name + "$";
      } else {
        assert p == name + "";
      }
      forall c <- tail ensures 'a' <= c <= 'z' || 'A' <= c <= 'Z' || '0' <= c <= '9' || c in "_.+@-" {
        var i :| 0 <= i < |tail| && tail[i] == c;
        assert IsTail(name[i + 1]);
      }
    }
    forall head: char, tail: string, end: string
      | && p == [head] + tail + end && |tail| <= 127 && (end == "" || end == "$")
        && ('a' <= head <= 'z' || 'A' <= head <= 'Z' || '0' <= head <= '9' || head == '_')
        && forall c <- tail :: 'a' <= c <= 'z' || 'A' <= c <= 'Z' || '0' <= c <= '9' || c in "_.+@-"
      ensures ValidPrincipal(p)
    {
      PrincipalIs(p, head, tail, end);
    }
  }

  lemma PrincipalIs(p: string, head: char, tail: string, end: string)
    requires p == [head] + tail + end && |tail| <= 127 && (end == "" || end == "$")
    requires 'a' <= head <= 'z' || 'A' <= head <= 'Z' || '0' <= head <= '9' || head == '_'
    requires forall c <- tail :: 'a' <= c <= 'z' || 'A' <= c <= 'Z' || '0' <= c <= '9' || c in "_.+@-"
    ensures ValidPrincipal(p)
  {
    var name := [head] + tail;
    if end == "" {
      assert p == name;
      assert p[|p| - 1] == (if tail == "" then head else tail[|tail| - 1]);
      assert tail != "" ==> tail[|tail| - 1] in tail;
    } else {
      assert p[..|p| - 1] == name && p[|p| - 1] == '$';
    }
    forall i | 1 <= i < |name| ensures IsTail(name[i]) {
      assert name[i] == tail[i - 1] && tail[i - 1] in tail;
    }
  }

  predicate AllValid(principals: seq<string>)
  {
    forall i :: 0 <= i < |principals| ==> ValidPrincipal(principals[i])
  }

  method ErrorOnUnsafePrincipal(principals: seq<string>) returns (unsafe: Option<string>)
    ensures unsafe == None <==> AllValid(principals)
    ensures unsafe.Some? ==> unsafe.value in principals && !ValidPrincipal(unsafe.value)
  {
    for i := 0 to |principals|
      invariant forall j :: 0 <= j < i ==> ValidPrincipal(principals[j])
    {
      if !ValidPrincipal(principals[i]) {
        return Some(principals[i]);
      }
    }
    return None;
  }

  const AUTHORITY := "cert-authority"
  const PRINCIPALS := "principals="

  /**
   The line for a login that the policy granted, or none if a principal is unsafe. It is one line,
   it has a principals option exactly if the list is not empty, and it reads back.
   */
  method AuthorizedKeysLine(principals: seq<string>, key: string) returns (line: Option<string>)
    ensures line.Some? <==> AllValid(principals)
    ensures line.Some? && principals == [] ==> line.value == "cert-authority " + key
    ensures line.Some? && principals != [] ==>
              line.value == "cert-authority,principals=\"" + Join(principals, ",") + "\" " + key
    ensures line.Some? && '\n' !in key ==> '\n' !in line.value
    ensures line.Some? && principals == [] ==> ReadLine(line.value) == Line([AUTHORITY], key)
    ensures line.Some? && principals != [] ==>
            ReadLine(line.value) == Line([AUTHORITY, PrincipalsOption(principals)], key)
    ensures line.Some? && principals != [] ==> ReadPrincipals(PrincipalsOption(principals)) == Some(principals)
  {
    hide IsOption, ReadLine, ReadPrincipals, AllValid, Join, PrincipalsOption;
    var unsafe := ErrorOnUnsafePrincipal(principals);
    if unsafe.Some? {
      return None;
    }
    var joined := Join(principals, ",");
    JoinedPrincipals(principals);
    if joined != "" {
      LineWithOption(principals, key);
      return Some(AUTHORITY + "," + PRINCIPALS + "\"" + joined + "\" " + key);
    }
    LineWithoutOption(key);
    return Some(AUTHORITY + " " + key);
  }

  lemma LineWithoutOption(key: string)
    ensures AUTHORITY + " " + key == "cert-authority " + key
    ensures ReadLine(AUTHORITY + " " + key) == Line([AUTHORITY], key)
    ensures '\n' !in key ==> '\n' !in AUTHORITY + " " + key
  {
    hide IsOption, ReadLine, Join;
    AuthorityIsOption();
    OptionsReadBack([AUTHORITY], key);
    JoinOne(AUTHORITY);
    NoLineFeed([]);
  }

  lemma StartOfLine()
    ensures AUTHORITY + "," + PRINCIPALS + "\"" == "cert-authority,principals=\""
  {
  }

  lemma OptionInLine(principals: seq<string>, key: string)
    ensures AUTHORITY + "," + PrincipalsOption(principals) + " " + key ==
            AUTHORITY + "," + PRINCIPALS + "\"" + Join(principals, ",") + "\" " + key
  {
    hide Join, AUTHORITY, PRINCIPALS;
    var joined := Join(principals, ",");
    assert PRINCIPALS + "\"" + joined + "\"" + " " + key == PRINCIPALS + "\"" + joined + "\" " + key;
  }

  lemma LineWithOption(principals: seq<string>, key: string)
    requires AllValid(principals) && principals != []
    ensures var line := AUTHORITY + "," + PRINCIPALS + "\"" + Join(principals, ",") + "\" " + key;
            && line == "cert-authority,principals=\"" + Join(principals, ",") + "\" " + key
            && ReadLine(line) == Line([AUTHORITY, PrincipalsOption(principals)], key)
            && ReadPrincipals(PrincipalsOption(principals)) == Some(principals)
            && ('\n' !in key ==> '\n' !in line)
  {
    hide IsOption, ReadLine, ReadPrincipals, AllValid, Join, PrincipalsOption;
    var option := PrincipalsOption(principals);
    var line := AUTHORITY + "," + PRINCIPALS + "\"" + Join(principals, ",") + "\" " + key;
    StartOfLine();
    OptionInLine(principals, key);
    AuthorityIsOption();
    PrincipalsIsOption(principals);
    NoLineFeed(principals);
    OptionReadsBack(principals);
    OptionsReadBack([AUTHORITY, option], key);
    JoinTwo(AUTHORITY, option);
  }

  // ---------------------------------------------------------------- reading a line

  /** The options of a line and what follows them. */
  datatype Line = Line(options: seq<string>, rest: string)

  /** Up to the first space outside double quotes. */
  function HeadField(s: string, quoted: bool): string
  {
    if s == "" || (!quoted && s[0] == ' ') then ""
    else [s[0]] + HeadField(s[1..], if s[0] == '\"' then !quoted else quoted)
  }

  /** Options are separated by commas outside double quotes. */
  function ReadLine(line: string): Line
  {
    var head := HeadField(line, false);
    Line(Enforcer.Sections(head, ','), if |head| < |line| then line[|head| + 1..] else "")
  }

  /** The list in a principals="a,b" option. */
  function ReadPrincipals(option: string): Option<seq<string>>
  {
    var start := PRINCIPALS + "\"";
    if HasPrefix(option, start) && HasSuffix(option[|start|..], "\"") then
      Some(Split(option[|start|..|option| - 1], ','))
    else None
  }

  function PrincipalsOption(principals: seq<string>): string
  {
    PRINCIPALS + "\"" + Join(principals, ",") + "\""
  }

  predicate IsSafe(c: char) { IsTail(c) || c == '$' || c == ',' }

  lemma ValidIsSafe(p: string)
    requires ValidPrincipal(p)
    ensures p != "" && ',' !in p && forall c <- p :: IsSafe(c)
  {
    var name := NameOf(p);
    forall i | 0 <= i < |p| ensures IsSafe(p[i]) && p[i] != ',' {
      if i < |name| {
        assert name[i] == p[i];
        assert i == 0 || IsTail(name[i]);
      }
    }
  }

  lemma {:induction false} JoinedPrincipals(principals: seq<string>)
    requires AllValid(principals)
    ensures Join(principals, ",") == "" <==> principals == []
    ensures forall c <- Join(principals, ",") :: IsSafe(c)
  {
    if principals != [] {
      ValidIsSafe(principals[0]);
      JoinedPrincipals(principals[1..]);
    }
  }

  lemma {:induction false} WholeAppend(a: string, b: string, sep: char, quoted: bool)
    requires Enforcer.IsWhole(a, sep, quoted) && Enforcer.IsWhole(b, sep, false)
    ensures Enforcer.IsWhole(a + b, sep, quoted)
    decreases |a|
  {
    if a == "" {
      assert a + b == b;
    } else {
      assert (a + b)[1..] == a[1..] + b;
      WholeAppend(a[1..], b, sep, if a[0] == '\"' then !quoted else quoted);
    }
  }

  lemma {:induction false} HeadFieldOf(a: string, rest: string, quoted: bool)
    requires Enforcer.IsWhole(a, ' ', quoted)
    ensures HeadField(a + " " + rest, quoted) == a
    decreases |a|
  {
    var s := a + " " + rest;
    if a != "" {
      assert s[1..] == a[1..] + " " + rest;
      HeadFieldOf(a[1..], rest, if a[0] == '\"' then !quoted else quoted);
    }
  }

  /** The option is one section, with its commas and nothing else in quotes. */
  lemma OptionIsWhole(principals: seq<string>, sep: char)
    requires AllValid(principals) && (sep == ',' || sep == ' ')
    ensures Enforcer.IsWhole(PrincipalsOption(principals), sep, false)
  {
    hide Enforcer.IsWhole;
    var joined := Join(principals, ",");
    JoinedPrincipals(principals);
    Enforcer.WholeQuoted(joined, sep);
    Enforcer.WholePlain(PRINCIPALS, sep);
    WholeAppend(PRINCIPALS, "\"" + joined + "\"", sep, false);
    assert PRINCIPALS + ("\"" + joined + "\"") == PrincipalsOption(principals);
  }

  lemma OptionReadsBack(principals: seq<string>)
    requires AllValid(principals) && principals != []
    ensures ReadPrincipals(PrincipalsOption(principals)) == Some(principals)
  {
    hide AllValid;
    var joined := Join(principals, ",");
    var option, start := PrincipalsOption(principals), PRINCIPALS + "\"";
    assert option == start + (joined + "\"");
    assert option[|start|..] == joined + "\"";
    assert option[|start|..|option| - 1] == joined;
    forall p <- principals ensures ',' !in p {
      ValidAt(principals, p);
    }
    SplitOfJoin(principals, ',');
  }

  lemma ValidAt(principals: seq<string>, p: string)
    requires AllValid(principals) && p in principals
    ensures ',' !in p
  {
    ValidIsSafe(p);
  }

  predicate IsOption(option: string)
  {
    option != "" && Enforcer.IsWhole(option, ' ', false) && Enforcer.IsWhole(option, ',', false)
  }

  lemma {:induction false} JoinedOptionsAreWhole(options: seq<string>)
    requires forall i :: 0 <= i < |options| ==> IsOption(options[i])
    ensures Enforcer.IsWhole(Join(options, ","), ' ', false)
  {
    if |options| == 0 {
    } else if |options| > 1 {
      JoinedOptionsAreWhole(options[1..]);
      var rest := Join(options[1..], ",");
      hide Enforcer.IsWhole;
      Enforcer.WholePlain(",", ' ');
      WholeAppend(",", rest, ' ', false);
      WholeAppend(options[0], "," + rest, ' ', false);
      assert options[0] + ("," + rest) == Join(options, ",");
    }
  }

  /** Any options, joined by commas and followed by a space and a text, read back. */
  lemma OptionsReadBack(options: seq<string>, rest: string)
    requires forall i :: 0 <= i < |options| ==> IsOption(options[i])
    ensures ReadLine(Join(options, ",") + " " + rest) == Line(options, rest)
  {
    JoinedOptionsAreWhole(options);
    hide Enforcer.IsWhole, Enforcer.Sections, Join, HeadField;
    var head := Join(options, ",");
    HeadFieldOf(head, rest, false);
    Enforcer.SectionsOfJoin(options, ',');
    assert (head + " " + rest)[|head| + 1..] == rest;
  }

  lemma AuthorityIsOption()
    ensures IsOption(AUTHORITY)
  {
    hide Enforcer.IsWhole;
    Enforcer.WholePlain(AUTHORITY, ' ');
    Enforcer.WholePlain(AUTHORITY, ',');
  }

  lemma PrincipalsIsOption(principals: seq<string>)
    requires AllValid(principals)
    ensures IsOption(PrincipalsOption(principals))
  {
    hide Enforcer.IsWhole;
    OptionIsWhole(principals, ' ');
    OptionIsWhole(principals, ',');
  }

  lemma JoinOne(a: string)
    ensures Join([a], ",") == a
  {
  }

  lemma JoinTwo(a: string, b: string)
    ensures Join([a, b], ",") == a + "," + b
  {
    assert [a, b][1..] == [b];
  }

  /** Safe characters include no line feed. */
  lemma NoLineFeed(principals: seq<string>)
    requires AllValid(principals)
    ensures '\n' !in PrincipalsOption(principals) && '\n' !in AUTHORITY
  {
    JoinedPrincipals(principals);
  }
}
