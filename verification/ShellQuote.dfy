/**
 A stand-in for the shellquote package, which is not part of the repository: splitting a line into
 words and joining words into a line with blanks, single quotes, double quotes and backslash, after
 section 2.2 (Quoting) of the POSIX.1-2017 Shell Command Language.
 */
module ShellQuote {
  import opened Text

  datatype Mode = Gap | GapEscape | Raw | RawEscape | Single | Double | DoubleEscape

  /** The scanner: where it is, the word under way and the words already closed. */
  datatype Scan = Scan(mode: Mode, word: string, words: seq<string>)

  datatype Cause = OpenEscape | OpenSingleQuote | OpenDoubleQuote

  datatype Parsed = Words(words: seq<string>) | Unterminated(cause: Cause)

  const START := Scan(Gap, "", [])

  function Step(st: Scan, c: char): Scan
  {
    match st.mode
    case Gap =>
      if IsBlank(c) then st
      else if c == '\\' then st.(mode := GapEscape)
      else if c == '\'' then st.(mode := Single)
      else if c == '\"' then st.(mode := Double)
      else st.(mode := Raw, word := [c])
    case GapEscape =>
      if c == '\n' then st.(mode := Gap) else st.(mode := Raw, word := [c])
    case Raw =>
      if IsBlank(c) then Scan(Gap, "", st.words + [st.word])
      else if c == '\\' then st.(mode := RawEscape)
      else if c == '\'' then st.(mode := Single)
      else if c == '\"' then st.(mode := Double)
      else st.(word := st.word + [c])
    case RawEscape =>
      if c == '\n' then st.(mode := Raw) else st.(mode := Raw, word := st.word + [c])
    case Single =>
      if c == '\'' then st.(mode := Raw) else st.(word := st.word + [c])
    case Double =>
      if c == '\"' then st.(mode := Raw)
      else if c == '\\' then st.(mode := DoubleEscape)
      else st.(word := st.word + [c])
    case DoubleEscape =>
      if c == '\n' then st.(mode := Double)
      else if c in "$`\"\\" then st.(mode := Double, word := st.word + [c])
      else st.(mode := Double, word := st.word + ['\\', c])
  }

  function Run(st: Scan, s: string): Scan
    decreases |s|
  {
    if s == [] then st else Run(Step(st, s[0]), s[1..])
  }

  function Finish(st: Scan): Parsed
  {
    match st.mode
    case Gap => Words(st.words)
    case Raw => Words(st.words + [st.word])
    case GapEscape => Unterminated(OpenEscape)
    case RawEscape => Unterminated(OpenEscape)
    case Single => Unterminated(OpenSingleQuote)
    case Double => Unterminated(OpenDoubleQuote)
    case DoubleEscape => Unterminated(OpenDoubleQuote)
  }

  function Split(s: string): Parsed { Finish(Run(START, s)) }

  // ---------------------------------------------------------------- printing

  predicate HasBlank(w: string) { exists c <- w :: IsBlank(c) }

  predicate IsSpecial(c: char) { c == '\\' || c == '\'' || c == '\"' || IsShellSyntax(c) }

  predicate IsShellSyntax(c: char) { c in "`${[|&;<>()*?!" }

  /** Backslash in front of a special character; a tilde is special at the start of a word. */
  function EscapeLead(c: char, atStart: bool): string
  {
    if IsSpecial(c) || (atStart && c == '~') then ['\\', c] else [c]
  }

  function Escaped(w: string, atStart: bool): string
  {
    if w == [] then [] else EscapeLead(w[0], atStart) + Escaped(w[1..], false)
  }

  /** A single quote is escaped outside of quotes, any other character stands inside. */
  function QuoteLead(c: char, open: bool): string
  {
    if c == '\'' then (if open then "'" else "") + "\\'" else (if open then "" else "'") + [c]
  }

  /** Single-quoted stretches, with every single quote escaped outside of them. */
  function Quoted(w: string, open: bool): string
  {
    if w == [] then (if open then "'" else "") else QuoteLead(w[0], open) + Quoted(w[1..], w[0] != '\'')
  }

  function QuoteWord(w: string): string
  {
    if w == "" then "''" else if HasBlank(w) then Quoted(w, false) else Escaped(w, true)
  }

  function Join(row: seq<string>): string
  {
    if row == [] then ""
    else if |row| == 1 then QuoteWord(row[0])
    else QuoteWord(row[0]) + " " + Join(row[1..])
  }

  // ---------------------------------------------------------------- reading back

  lemma {:induction false} RunAppend(st: Scan, a: string, b: string)
    ensures Run(st, a + b) == Run(Run(st, a), b)
    decreases |a|
  {
    if a == [] {
      assert a + b == b;
    } else {
      assert (a + b)[1..] == a[1..] + b;
      RunAppend(Step(st, a[0]), a[1..], b);
    }
  }

  lemma RunOne(st: Scan, c: char)
    ensures Run(st, [c]) == Step(st, c)
  {
    assert Run(Step(st, c), [c][1..]) == Step(st, c);
  }

  lemma RunTwo(st: Scan, c: char, d: char)
    ensures Run(st, [c, d]) == Step(Step(st, c), d)
  {
    assert [c, d] == [c] + [d];
    RunAppend(st, [c], [d]);
    RunOne(st, c);
    RunOne(Step(st, c), d);
  }

  predicate AtWord(st: Scan) { st.mode == Raw || (st.mode == Gap && st.word == "") }

  lemma RunEscapeLead(st: Scan, c: char, atStart: bool)
    requires AtWord(st) && !IsBlank(c)
    ensures Run(st, EscapeLead(c, atStart)) == st.(mode := Raw, word := st.word + [c])
  {
    hide Run, IsShellSyntax;
    RunOne(st, c);
    RunTwo(st, '\\', c);
  }

  lemma {:induction false} RunEscaped(st: Scan, w: string, atStart: bool)
    requires AtWord(st) && !HasBlank(w)
    ensures Run(st, Escaped(w, atStart)) == if w == "" then st else st.(mode := Raw, word := st.word + w)
    decreases |w|
  {
    if w != "" {
      hide Run, Step, IsSpecial, IsBlank;
      var c, rest := w[0], w[1..];
      assert !IsBlank(c) && !HasBlank(rest);
      hide HasBlank;
      RunAppend(st, EscapeLead(c, atStart), Escaped(rest, false));
      RunEscapeLead(st, c, atStart);
      var next := Run(st, EscapeLead(c, atStart));
      RunEscaped(next, rest, false);
      assert next.word + rest == st.word + w;
    }
  }

  lemma RunQuoteLead(st: Scan, c: char, open: bool)
    requires if open then st.mode == Single else AtWord(st)
    ensures Run(st, QuoteLead(c, open)) == st.(mode := if c == '\'' then Raw else Single, word := st.word + [c])
  {
    hide Run;
    if c != '\'' {
      if open {
        assert QuoteLead(c, open) == [c];
        RunOne(st, c);
      } else {
        assert QuoteLead(c, open) == ['\'', c];
        RunTwo(st, '\'', c);
      }
    } else if open {
      RunAppend(st, "'", "\\'");
      RunOne(st, '\'');
      RunTwo(st.(mode := Raw), '\\', '\'');
    } else {
      assert QuoteLead(c, open) == ['\\', '\''];
      RunTwo(st, '\\', '\'');
    }
  }

  lemma {:induction false} RunQuoted(st: Scan, w: string, open: bool)
    requires if open then st.mode == Single else AtWord(st)
    ensures Run(st, Quoted(w, open)) == if w == "" && !open then st else st.(mode := Raw, word := st.word + w)
    decreases |w|
  {
    if w == "" {
      hide Run;
      RunOne(st, '\'');
      RunNothing(st);
      assert st.word + w == st.word;
    } else {
      hide Run, Step, AtWord, QuoteLead;
      var c, rest := w[0], w[1..];
      RunAppend(st, QuoteLead(c, open), Quoted(rest, c != '\''));
      RunQuoteLead(st, c, open);
      var next := Run(st, QuoteLead(c, open));
      RunQuoted(next, rest, c != '\'');
      assert next.word + rest == st.word + w;
    }
  }

  lemma RunWord(words: seq<string>, w: string)
    ensures Run(Scan(Gap, "", words), QuoteWord(w)) == Scan(Raw, w, words)
  {
    var st := Scan(Gap, "", words);
    if w == "" {
      RunTwo(st, '\'', '\'');
    } else if HasBlank(w) {
      RunQuoted(st, w, false);
    } else {
      RunEscaped(st, w, true);
    }
  }

  lemma RunBlank(st: Scan, c: char)
    requires st.mode == Raw && IsBlank(c)
    ensures Run(st, [c]) == Scan(Gap, "", st.words + [st.word])
  {
    RunOne(st, c);
  }

  /** After a printed row the scanner holds its words: all but the last closed. */
  lemma {:induction false} RunJoin(words: seq<string>, row: seq<string>)
    requires row != []
    ensures Run(Scan(Gap, "", words), Join(row)) == Scan(Raw, row[|row| - 1], words + row[..|row| - 1])
    decreases |row|
  {
    hide Run, Step, QuoteWord;
    var st := Scan(Gap, "", words);
    RunWord(words, row[0]);
    if |row| > 1 {
      var tail := " " + Join(row[1..]);
      assert Join(row) == QuoteWord(row[0]) + tail;
      RunAppend(st, QuoteWord(row[0]), tail);
      RunAppend(Scan(Raw, row[0], words), " ", Join(row[1..]));
      RunBlank(Scan(Raw, row[0], words), ' ');
      RunJoin(words + [row[0]], row[1..]);
      assert words + [row[0]] + row[1..][..|row[1..]| - 1] == words + row[..|row| - 1];
    }
  }

  lemma RunNothing(st: Scan)
    ensures Run(st, "") == st
  {
  }

  /** A printed line, with its line feed, closes all its words. */
  lemma RunLine(words: seq<string>, row: seq<string>)
    requires row != []
    ensures Run(Scan(Gap, "", words), Join(row) + "\n") == Scan(Gap, "", words + row)
  {
    hide Run, Join, Step;
    RunJoin(words, row);
    var st := Scan(Raw, row[|row| - 1], words + row[..|row| - 1]);
    RunBlank(st, '\n');
    RunAppend(Scan(Gap, "", words), Join(row), "\n");
    assert words + row[..|row| - 1] + [row[|row| - 1]] == words + row;
  }

  /** Splitting a joined row returns the row, whatever its fields hold. */
  lemma SplitOfJoin(row: seq<string>)
    ensures Split(Join(row)) == Words(row)
  {
    hide Step, Run;
    if row == [] {
      RunNothing(START);
    } else {
      hide Join;
      var n := |row| - 1;
      RunJoin([], row);
      assert [] + row[..n] == row[..n];
      assert Run(START, Join(row)) == Scan(Raw, row[n], row[..n]);
      assert row[..n] + [row[n]] == row;
    }
  }

  // ---------------------------------------------------------------- what reading can produce

  /** All characters held by the scanner satisfy `p`. */
  ghost predicate Holds(st: Scan, p: char -> bool)
  {
    (Every(st.word, p)) && (forall w <- st.words :: Every(w, p))
  }

  lemma {:induction false} RunHolds(st: Scan, s: string, p: char -> bool)
    requires Holds(st, p) && p('\\') && Every(s, p)
    ensures Holds(Run(st, s), p)
    decreases |s|
  {
    if s != [] {
      assert Holds(Step(st, s[0]), p);
      RunHolds(Step(st, s[0]), s[1..], p);
    }
  }

  /** Reading invents no character. */
  lemma SplitHolds(s: string, p: char -> bool)
    requires p('\\') && Every(s, p)
    ensures Split(s).Words? ==> forall w <- Split(s).words :: Every(w, p)
  {
    RunHolds(START, s, p);
  }

  /** Printing adds nothing but backslashes, single quotes and spaces. */
  lemma {:induction false} EscapedHolds(w: string, atStart: bool, p: char -> bool)
    requires p('\\') && Every(w, p)
    ensures Every(Escaped(w, atStart), p)
  {
    if w != [] {
      EscapedHolds(w[1..], false, p);
    }
  }

  lemma {:induction false} QuotedHolds(w: string, open: bool, p: char -> bool)
    requires p('\\') && p('\'') && Every(w, p)
    ensures Every(Quoted(w, open), p)
  {
    if w != [] {
      QuotedHolds(w[1..], w[0] != '\'', p);
    }
  }

  lemma {:induction false} JoinHolds(row: seq<string>, p: char -> bool)
    requires p('\\') && p('\'') && p(' ')
    requires forall w <- row :: Every(w, p)
    ensures Every(Join(row), p)
  {
    if row != [] {
      EscapedHolds(row[0], true, p);
      QuotedHolds(row[0], false, p);
      if |row| > 1 {
        JoinHolds(row[1..], p);
      }
    }
  }

  // ---------------------------------------------------------------- counting odd characters

  /** White space that does not separate words, and the byte order mark. */
  predicate IsOdd(c: char) { (IsSpace(c) && !IsBlank(c)) || c == BOM }

  function Odds(s: string): nat
  {
    if s == [] then 0 else (if IsOdd(s[0]) then 1 else 0) + Odds(s[1..])
  }

  function OddsIn(words: seq<string>): nat
  {
    if words == [] then 0 else Odds(words[0]) + OddsIn(words[1..])
  }

  lemma {:induction false} OddsAppend(a: string, b: string)
    ensures Odds(a + b) == Odds(a) + Odds(b)
  {
    if a == [] {
      assert a + b == b;
    } else {
      assert (a + b)[1..] == a[1..] + b;
      OddsAppend(a[1..], b);
    }
  }

  lemma {:induction false} OddsInSnoc(ws: seq<string>, w: string)
    ensures OddsIn(ws + [w]) == OddsIn(ws) + Odds(w)
  {
    if ws == [] {
      assert ws + [w] == [w];
    } else {
      assert (ws + [w])[1..] == ws[1..] + [w];
      OddsInSnoc(ws[1..], w);
    }
  }

  function ScanOdds(st: Scan): nat { OddsIn(st.words) + Odds(st.word) }

  /** Between words there is no word under way. */
  predicate IsTidy(st: Scan) { st.mode == Gap || st.mode == GapEscape ==> st.word == "" }

  /**
   A step closes the word under way or adds to it: nothing, the character, or a backslash and the
   character. What is dropped is never odd.
   */
  lemma StepShape(st: Scan, c: char)
    requires IsTidy(st)
    ensures var t := Step(st, c);
            && IsTidy(t)
            && (|| (t == Scan(Gap, "", st.words + [st.word]) && !IsOdd(c))
                || (t.words == st.words && t.word == st.word && !IsOdd(c))
                || (t.words == st.words && t.word in {st.word + [c], st.word + ['\\'] + [c]}))
  {
    assert st.word + ['\\', c] == st.word + ['\\'] + [c];
    if st.mode in {Gap, GapEscape} {
      assert st.word + [c] == [c];
    }
  }

  lemma OddsOne(c: char)
    ensures Odds([c]) == if IsOdd(c) then 1 else 0
  {
  }

  lemma StepOdds(st: Scan, c: char)
    requires IsTidy(st)
    ensures IsTidy(Step(st, c)) && ScanOdds(Step(st, c)) == ScanOdds(st) + Odds([c])
  {
    hide Step, IsOdd, Odds, IsTidy, OddsIn;
    StepShape(st, c);
    OddsOne(c);
    OddsAppend(st.word, [c]);
    OddsAppend(st.word + ['\\'], [c]);
    OddsAppend(st.word, ['\\']);
    OddsInSnoc(st.words, st.word);
    BackslashIsNotOdd();
    assert Odds("") == 0 by { NoOdds(); }
  }

  lemma NoOdds()
    ensures Odds("") == 0
  {
  }

  lemma BackslashIsNotOdd()
    ensures Odds("\\") == 0
  {
  }

  lemma {:induction false} RunOdds(st: Scan, s: string)
    requires IsTidy(st)
    ensures IsTidy(Run(st, s)) && ScanOdds(Run(st, s)) == ScanOdds(st) + Odds(s)
    decreases |s|
  {
    hide Step, IsTidy, ScanOdds;
    if s != [] {
      StepOdds(st, s[0]);
      RunOdds(Step(st, s[0]), s[1..]);
      OddsAppend([s[0]], s[1..]);
      assert [s[0]] + s[1..] == s;
    }
  }

  /** Reading yields exactly the odd characters of the text. */
  lemma SplitOdds(s: string)
    ensures Split(s).Words? ==> OddsIn(Split(s).words) == Odds(s)
  {
    hide Run, Odds, OddsIn;
    RunOdds(START, s);
    var st := Run(START, s);
    OddsInSnoc(st.words, st.word);
    assert Odds("") == 0 && OddsIn([]) == 0 by { NoOdds(); NoOddsIn(); }
  }

  lemma NoOddsIn()
    ensures OddsIn([]) == 0
  {
  }

  lemma {:induction false} EscapedOdds(w: string, atStart: bool)
    ensures Odds(Escaped(w, atStart)) == Odds(w)
  {
    if w != [] {
      EscapedOdds(w[1..], false);
      OddsAppend(EscapeLead(w[0], atStart), Escaped(w[1..], false));
      OddsAppend(['\\'], [w[0]]);
      assert ['\\', w[0]] == ['\\'] + [w[0]];
    }
  }

  lemma {:induction false} QuotedOdds(w: string, open: bool)
    ensures Odds(Quoted(w, open)) == Odds(w)
  {
    if w != [] {
      QuotedOdds(w[1..], w[0] != '\'');
      OddsAppend(QuoteLead(w[0], open), Quoted(w[1..], w[0] != '\''));
      OddsAppend(if open then "'" else "", "\\'");
      OddsAppend(if open then "" else "'", [w[0]]);
    }
  }

  /** Printing keeps every odd character and adds none. */
  lemma {:induction false} JoinOdds(row: seq<string>)
    ensures Odds(Join(row)) == OddsIn(row)
  {
    if row != [] {
      EscapedOdds(row[0], true);
      QuotedOdds(row[0], false);
      if |row| > 1 {
        JoinOdds(row[1..]);
        OddsAppend(QuoteWord(row[0]) + " ", Join(row[1..]));
        OddsAppend(QuoteWord(row[0]), " ");
      }
    }
  }

  // ---------------------------------------------------------------- the ends of a printed row

  /** Printed as it is, up to backslashes: not empty and without a blank. */
  predicate IsBare(w: string) { w != "" && !HasBlank(w) }

  /** Characters that printing leaves alone. */
  ghost predicate IsOrdinary(p: char -> bool)
  {
    forall c :: p(c) ==> !IsSpecial(c) && c != '~' && !IsBlank(c)
  }

  lemma {:induction false} EscapedLast(w: string, atStart: bool)
    requires w != ""
    ensures var e := Escaped(w, atStart); e != "" && e[|e| - 1] == w[|w| - 1]
  {
    if |w| > 1 {
      EscapedLast(w[1..], false);
    }
  }

  lemma {:induction false} QuotedLast(w: string, open: bool)
    requires w != "" || open
    ensures var e := Quoted(w, open); e != "" && e[|e| - 1] == '\''
  {
    if w != "" {
      if |w| > 1 || w[0] != '\'' {
        QuotedLast(w[1..], w[0] != '\'');
      }
    }
  }

  /** The first character of a printed word is the word's own only if the word is bare. */
  lemma QuoteWordEnds(w: string, p: char -> bool)
    requires IsOrdinary(p)
    ensures var q := QuoteWord(w);
            q != "" && (p(q[0]) <==> IsBare(w) && p(w[0])) && (p(q[|q| - 1]) <==> IsBare(w) && p(w[|w| - 1]))
  {
    if IsBare(w) {
      EscapedLast(w, true);
    } else if w != "" {
      QuotedLast(w, false);
    }
  }

  lemma {:induction false} JoinEnds(row: seq<string>, p: char -> bool)
    requires row != []
    requires IsOrdinary(p)
    ensures var s, w, z := Join(row), row[0], row[|row| - 1];
            && s != "" && (p(s[0]) <==> IsBare(w) && p(w[0]))
            && (p(s[|s| - 1]) <==> IsBare(z) && p(z[|z| - 1]))
  {
    hide QuoteWord, IsBare, IsOrdinary;
    QuoteWordEnds(row[0], p);
    if |row| > 1 {
      JoinEnds(row[1..], p);
    }
  }

  lemma QuoteWordStartsAWord(w: string)
    ensures var q := QuoteWord(w); q != "" && !IsBlank(q[0]) && !IsBlank(q[|q| - 1])
  {
    if IsBare(w) {
      EscapedLast(w, true);
      assert w[0] in w && w[|w| - 1] in w;
    } else if w != "" {
      QuotedLast(w, false);
    }
  }

  lemma {:induction false} JoinStartsAWord(row: seq<string>)
    requires row != []
    ensures var s := Join(row); s != "" && !IsBlank(s[0]) && !IsBlank(s[|s| - 1])
  {
    hide QuoteWord;
    QuoteWordStartsAWord(row[0]);
    if |row| > 1 {
      JoinStartsAWord(row[1..]);
    }
  }

  // ---------------------------------------------------------------- a text that starts a word holds a word

  predicate IsBusy(st: Scan) { (st.mode != Gap && st.mode != GapEscape) || st.words != [] }

  lemma {:induction false} RunBusy(st: Scan, s: string)
    requires IsBusy(st)
    ensures IsBusy(Run(st, s))
    decreases |s|
  {
    if s != [] {
      RunBusy(Step(st, s[0]), s[1..]);
    }
  }

  /** Blanks, and backslashes that escape a line feed. */
  predicate IsBlankText(s: string)
    decreases |s|
  {
    || s == ""
    || (IsBlank(s[0]) && IsBlankText(s[1..]))
    || (|s| > 1 && s[0] == '\\' && s[1] == '\n' && IsBlankText(s[2..]))
  }

  /** A text has no words exactly when it is made of blanks and escaped line feeds. */
  lemma {:induction false} SplitOfBlanks(s: string)
    ensures Split(s) == Words([]) <==> IsBlankText(s)
    decreases |s|
  {
    hide Run, IsBusy;
    if s == "" {
      SplitNothing();
    } else if IsBlank(s[0]) {
      RunCons(START, s);
      SplitOfBlanks(s[1..]);
    } else if s[0] == '\\' && |s| == 1 {
      RunOne(START, s[0]);
      assert s == [s[0]];
    } else if s[0] == '\\' && s[1] == '\n' {
      assert s == [s[0], s[1]] + s[2..];
      RunAppend(START, [s[0], s[1]], s[2..]);
      RunTwo(START, s[0], s[1]);
      SplitOfBlanks(s[2..]);
    } else if s[0] == '\\' {
      assert s == [s[0], s[1]] + s[2..];
      RunAppend(START, [s[0], s[1]], s[2..]);
      RunTwo(START, s[0], s[1]);
      BusyHasAWord(Run(START, [s[0], s[1]]), s[2..]);
    } else {
      RunCons(START, s);
      BusyHasAWord(Step(START, s[0]), s[1..]);
    }
  }

  lemma BusyHasAWord(st: Scan, s: string)
    requires st.mode != Gap && st.mode != GapEscape
    ensures Finish(Run(st, s)) != Words([])
  {
    RunBusy(st, s);
  }

  lemma SplitHasAWord(s: string)
    requires s != "" && !IsBlank(s[0]) && '\n' !in s
    ensures Split(s).Words? ==> Split(s).words != []
  {
    SplitOfBlanks(s);
    assert |s| > 1 ==> s[1] in s;
  }

  // ---------------------------------------------------------------- where a text ends

  /** The mode, forgetting whether a word is under way. */
  function Coarse(mode: Mode): Mode
  {
    match mode case Gap => Raw case GapEscape => RawEscape case m => m
  }

  /** Without line feeds, how a text ends does not depend on whether a word was under way before it. */
  lemma {:induction false} RunCoarse(st: Scan, other: Scan, s: string)
    requires Coarse(st.mode) == Coarse(other.mode) && '\n' !in s
    ensures Coarse(Run(st, s).mode) == Coarse(Run(other, s).mode)
    decreases |s|
  {
    if s != [] {
      RunCoarse(Step(st, s[0]), Step(other, s[0]), s[1..]);
    }
  }

  lemma {:induction false} RunSpaces(st: Scan, s: string)
    requires Coarse(st.mode) == Raw && '\n' !in s && AllSpaces(s)
    ensures Coarse(Run(st, s).mode) == Raw
    decreases |s|
  {
    if s != [] {
      hide Run;
      var next := Step(st, s[0]);
      assert IsSpace(s[0]);
      assert Coarse(next.mode) == Raw;
      RunSpaces(next, s[1..]);
      assert Run(st, s) == Run(next, s[1..]) by { RunCons(st, s); }
    }
  }

  lemma RunCons(st: Scan, s: string)
    requires s != []
    ensures Run(st, s) == Run(Step(st, s[0]), s[1..])
  {
  }

  function CauseOf(p: Parsed): Option<Cause>
  {
    match p case Words(_) => None case Unterminated(c) => Some(c)
  }

  lemma SplitNothing()
    ensures Split("") == Words([])
  {
  }

  /** A byte order mark and spaces in front of a text do not change whether, and why, it fails to parse. */
  lemma SplitBehindBom(spaces: string, s: string)
    requires '\n' !in spaces && '\n' !in s && AllSpaces(spaces)
    ensures CauseOf(Split([BOM] + spaces + s)) == CauseOf(Split(s))
  {
    hide Run;
    var raw := Step(START, BOM);
    RunOne(START, BOM);
    assert [BOM] + spaces + s == [BOM] + (spaces + s);
    RunAppend(START, [BOM], spaces + s);
    RunAppend(raw, spaces, s);
    RunSpaces(raw, spaces);
    RunCoarse(Run(raw, spaces), START, s);
  }

  /** Printing keeps a byte order mark in front of a bare word. */
  lemma JoinBehindBom(row: seq<string>)
    requires row != [] && IsBare(row[0]) && row[0][0] != '~'
    ensures Join(row[0 := [BOM] + row[0]]) == [BOM] + Join(row)
    ensures IsBare([BOM] + row[0])
  {
    hide QuoteWord, IsBare;
    var w := [BOM] + row[0];
    QuoteWordBehindBom(row[0]);
    assert row[0 := w][1..] == row[1..];
  }

  lemma QuoteWordBehindBom(w: string)
    requires IsBare(w) && w[0] != '~'
    ensures IsBare([BOM] + w) && QuoteWord([BOM] + w) == [BOM] + QuoteWord(w)
  {
    hide Escaped, Quoted;
    EscapedBehindBom(w);
    assert forall c <- [BOM] + w :: c == BOM || c in w;
  }

  lemma EscapedBehindBom(w: string)
    requires w != "" && w[0] != '~'
    ensures Escaped([BOM] + w, true) == [BOM] + Escaped(w, true)
  {
    assert ([BOM] + w)[1..] == w;
    assert !IsSpecial(BOM);
    hide IsSpecial;
    assert Escaped(w, true) == Escaped(w, false);
  }
}
