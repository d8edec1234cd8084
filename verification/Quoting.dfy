/**
 How a line may be written (section 2.2, Quoting, of the POSIX.1-2017 Shell Command Language): every
 word as pieces that are plain, escaped, in single or in double quotes, and any blanks between the
 words. The reader of `ShellQuote` gives the words, however they are written, and knows what is open
 at the end of a line that does not parse.
 */
module Quoting {
  import opened Text
  import opened ShellQuote

  datatype Piece = Plain(text: string) | Escape(c: char) | InSingle(text: string) | InDouble(text: string)

  predicate IsSpellable(piece: Piece)
  {
    match piece
    case Plain(text) => text != "" && forall c <- text :: c !in " \t\n\\'\""
    case Escape(c) => c != '\n'
    case InSingle(text) => '\'' !in text
    case InDouble(text) => true
  }

  /** Inside double quotes a backslash goes in front of the four characters that mean something there. */
  function Doubled(text: string): string
  {
    if text == "" then ""
    else (if text[0] in "$`\"\\" then ['\\', text[0]] else [text[0]]) + Doubled(text[1..])
  }

  function Spell(piece: Piece): string
  {
    match piece
    case Plain(text) => text
    case Escape(c) => ['\\', c]
    case InSingle(text) => "'" + text + "'"
    case InDouble(text) => "\"" + Doubled(text) + "\""
  }

  function TextOf(piece: Piece): string
  {
    match piece
    case Plain(text) => text
    case Escape(c) => [c]
    case InSingle(text) => text
    case InDouble(text) => text
  }

  // ---------------------------------------------------------------- one piece

  lemma {:induction false} RunPlain(st: Scan, s: string)
    requires AtWord(st) && forall c <- s :: c !in " \t\n\\'\""
    ensures Run(st, s) == if s == "" then st else st.(mode := Raw, word := st.word + s)
    decreases |s|
  {
    if s != "" {
      hide Run;
      assert s[0] in s;
      RunCons(st, s);
      PlainStep(st, s[0]);
      RunPlain(Step(st, s[0]), s[1..]);
      assert st.word + [s[0]] + s[1..] == st.word + s;
      assert s[1..] == "" ==> [s[0]] == s;
    } else {
      RunNothing(st);
    }
  }

  lemma PlainStep(st: Scan, c: char)
    requires AtWord(st) && c !in " \t\n\\'\""
    ensures Step(st, c) == st.(mode := Raw, word := st.word + [c])
  {
  }

  lemma {:induction false} RunSingle(st: Scan, s: string)
    requires st.mode == Single && '\'' !in s
    ensures Run(st, s) == st.(word := st.word + s)
    decreases |s|
  {
    if s != "" {
      hide Run;
      RunCons(st, s);
      RunSingle(Step(st, s[0]), s[1..]);
      assert st.word + [s[0]] + s[1..] == st.word + s;
    } else {
      RunNothing(st);
      assert st.word + s == st.word;
    }
  }

  lemma {:induction false} RunDoubled(st: Scan, s: string)
    requires st.mode == Double
    ensures Run(st, Doubled(s)) == st.(word := st.word + s)
    decreases |s|
  {
    hide Run;
    if s != "" {
      var lead := if s[0] in "$`\"\\" then ['\\', s[0]] else [s[0]];
      RunAppend(st, lead, Doubled(s[1..]));
      DoubleLead(st, s[0]);
      RunDoubled(st.(word := st.word + [s[0]]), s[1..]);
      assert st.word + [s[0]] + s[1..] == st.word + s;
    } else {
      RunNothing(st);
      assert st.word + s == st.word;
    }
  }

  lemma DoubleLead(st: Scan, c: char)
    requires st.mode == Double
    ensures Run(st, if c in "$`\"\\" then ['\\', c] else [c]) == st.(word := st.word + [c])
  {
    hide Run;
    if c in "$`\"\\" {
      RunTwo(st, '\\', c);
    } else {
      RunOne(st, c);
    }
  }

  /** A piece adds its text to the word under way. */
  lemma RunPiece(st: Scan, piece: Piece)
    requires AtWord(st) && IsSpellable(piece)
    ensures Run(st, Spell(piece)) == st.(mode := Raw, word := st.word + TextOf(piece))
  {
    hide Run;
    match piece
    case Plain(text) => RunPlain(st, text);
    case Escape(c) => RunTwo(st, '\\', c);
    case InSingle(text) =>
      Around(st, "'", text, "'");
      RunSingle(st.(mode := Single), text);
      RunOne(st, '\'');
      RunOne(Run(st.(mode := Single), text), '\'');
    case InDouble(text) =>
      Around(st, "\"", Doubled(text), "\"");
      RunDoubled(st.(mode := Double), text);
      RunOne(st, '\"');
      RunOne(Run(st.(mode := Double), Doubled(text)), '\"');
  }

  lemma Around(st: Scan, a: string, s: string, b: string)
    ensures Run(st, a + s + b) == Run(Run(Run(st, a), s), b)
  {
    RunAppend(st, a + s, b);
    RunAppend(st, a, s);
  }

  /** Inside double quotes a backslash in front of any other character stays; in front of a line feed both go. */
  lemma BackslashInDouble(st: Scan, c: char)
    requires st.mode == Double
    ensures c !in "$`\"\\\n" ==> Run(st, ['\\', c]) == st.(word := st.word + ['\\', c])
    ensures Run(st, "\\\n") == st
  {
    hide Run;
    RunTwo(st, '\\', c);
    RunTwo(st, '\\', '\n');
  }

  /** Outside of quotes a backslash in front of a line feed goes with it, between words and inside one. */
  lemma ContinuedLine(st: Scan)
    requires AtWord(st)
    ensures Run(st, "\\\n") == st
  {
    hide Run;
    RunTwo(st, '\\', '\n');
  }

  // ---------------------------------------------------------------- words and lines

  type Word = seq<Piece>

  predicate IsWord(word: Word) { word != [] && forall i :: 0 <= i < |word| ==> IsSpellable(word[i]) }

  function SpellWord(word: Word): string
  {
    if word == [] then "" else Spell(word[0]) + SpellWord(word[1..])
  }

  function TextOfWord(word: Word): string
  {
    if word == [] then "" else TextOf(word[0]) + TextOfWord(word[1..])
  }

  lemma {:induction false} RunPieces(st: Scan, word: Word)
    requires AtWord(st) && forall i :: 0 <= i < |word| ==> IsSpellable(word[i])
    ensures Run(st, SpellWord(word)) ==
            if word == [] then st else st.(mode := Raw, word := st.word + TextOfWord(word))
    decreases |word|
  {
    hide Run, Spell, TextOf, IsSpellable;
    if word == [] {
      RunNothing(st);
    } else {
      RunAppend(st, Spell(word[0]), SpellWord(word[1..]));
      RunPiece(st, word[0]);
      var next := st.(mode := Raw, word := st.word + TextOf(word[0]));
      RunPieces(next, word[1..]);
      assert next.word + TextOfWord(word[1..]) == st.word + TextOfWord(word);
      assert word[1..] == [] ==> TextOfWord(word) == TextOf(word[0]) + "";
    }
  }

  /** Blanks: spaces, tabs and line feeds. */
  predicate AreBlanks(s: string) { forall c <- s :: c == ' ' || c == '\t' || c == '\n' }

  lemma {:induction false} RunBlanks(words: seq<string>, s: string)
    requires AreBlanks(s)
    ensures Run(Scan(Gap, "", words), s) == Scan(Gap, "", words)
    decreases |s|
  {
    if s != "" {
      hide Run;
      RunCons(Scan(Gap, "", words), s);
      assert s[0] in s && forall c <- s[1..] :: c in s;
      RunBlanks(words, s[1..]);
    }
  }

  /** A line: blanks, and after every word some blanks, at least one unless it is the last word. */
  function SpellLine(words: seq<Word>, gaps: seq<string>): string
    requires |gaps| == |words|
  {
    if words == [] then "" else SpellWord(words[0]) + gaps[0] + SpellLine(words[1..], gaps[1..])
  }

  function Texts(words: seq<Word>): seq<string>
  {
    if words == [] then [] else [TextOfWord(words[0])] + Texts(words[1..])
  }

  lemma RunWordAndGap(done: seq<string>, word: Word, gap: string)
    requires IsWord(word) && AreBlanks(gap)
    ensures Run(Scan(Gap, "", done), SpellWord(word) + gap) ==
            if gap == "" then Scan(Raw, TextOfWord(word), done) else Scan(Gap, "", done + [TextOfWord(word)])
  {
    hide Run, SpellWord, TextOfWord, IsSpellable;
    var st := Scan(Gap, "", done);
    RunAppend(st, SpellWord(word), gap);
    RunPieces(st, word);
    var raw := Scan(Raw, TextOfWord(word), done);
    assert "" + TextOfWord(word) == TextOfWord(word);
    if gap == "" {
      RunNothing(raw);
    } else {
      assert gap[0] in gap && gap == [gap[0]] + gap[1..] && forall c <- gap[1..] :: c in gap;
      RunAppend(raw, [gap[0]], gap[1..]);
      RunBlank(raw, gap[0]);
      RunBlanks(done + [TextOfWord(word)], gap[1..]);
    }
  }

  lemma TextsInOrder(done: seq<string>, words: seq<Word>)
    requires words != []
    ensures done + [TextOfWord(words[0])] + Texts(words[1..]) == done + Texts(words)
  {
    hide TextOfWord;
  }

  lemma RestOfLine(words: seq<Word>, gaps: seq<string>)
    requires |gaps| == |words| && words != []
    requires forall i :: 0 <= i < |words| ==> IsWord(words[i]) && AreBlanks(gaps[i])
    requires forall i :: 0 <= i < |words| - 1 ==> gaps[i] != ""
    ensures forall i :: 0 <= i < |words[1..]| ==> IsWord(words[1..][i]) && AreBlanks(gaps[1..][i])
    ensures forall i :: 0 <= i < |words[1..]| - 1 ==> gaps[1..][i] != ""
  {
    hide IsWord, AreBlanks;
  }

  lemma {:induction false} RunLine(done: seq<string>, words: seq<Word>, gaps: seq<string>)
    requires |gaps| == |words|
    requires forall i :: 0 <= i < |words| ==> IsWord(words[i]) && AreBlanks(gaps[i])
    requires forall i :: 0 <= i < |words| - 1 ==> gaps[i] != ""
    ensures Finish(Run(Scan(Gap, "", done), SpellLine(words, gaps))) == Words(done + Texts(words))
    decreases |words|
  {
    hide Run, SpellWord, TextOfWord, IsWord, AreBlanks;
    var st := Scan(Gap, "", done);
    if words == [] {
      RunNothing(st);
      assert done + Texts(words) == done;
    } else {
      var text, rest := SpellWord(words[0]) + gaps[0], SpellLine(words[1..], gaps[1..]);
      RunAppend(st, text, rest);
      RunWordAndGap(done, words[0], gaps[0]);
      if gaps[0] == "" {
        assert |words| == 1 && rest == "";
        RunNothing(Scan(Raw, TextOfWord(words[0]), done));
        assert Texts(words) == [TextOfWord(words[0])] + [];
      } else {
        hide Finish, SpellLine;
        RestOfLine(words, gaps);
        RunLine(done + [TextOfWord(words[0])], words[1..], gaps[1..]);
        TextsInOrder(done, words);
      }
    }
  }

  /** However its words are written and spaced, a line splits into their texts. */
  lemma LineReads(lead: string, words: seq<Word>, gaps: seq<string>)
    requires AreBlanks(lead) && |gaps| == |words|
    requires forall i :: 0 <= i < |words| ==> IsWord(words[i]) && AreBlanks(gaps[i])
    requires forall i :: 0 <= i < |words| - 1 ==> gaps[i] != ""
    ensures ShellQuote.Split(lead + SpellLine(words, gaps)) == Words(Texts(words))
  {
    hide Run, IsWord, AreBlanks;
    RunAppend(START, lead, SpellLine(words, gaps));
    RunBlanks([], lead);
    RunLine([], words, gaps);
    assert [] + Texts(words) == Texts(words);
  }

  // ---------------------------------------------------------------- lines that do not parse

  /** After any words, a quote that is not closed, or a backslash at the very end, is the cause of failure. */
  lemma OpenEnds(st: Scan, text: string)
    requires AtWord(st)
    ensures '\'' !in text ==> Finish(Run(st, "'" + text)) == Unterminated(OpenSingleQuote)
    ensures Finish(Run(st, "\"" + Doubled(text))) == Unterminated(OpenDoubleQuote)
    ensures Finish(Run(st, "\\")) == Unterminated(OpenEscape)
  {
    hide Run;
    RunAppend(st, "'", text);
    RunOne(st, '\'');
    if '\'' !in text {
      RunSingle(st.(mode := Single), text);
    }
    RunAppend(st, "\"", Doubled(text));
    RunOne(st, '\"');
    RunDoubled(st.(mode := Double), text);
    RunOne(st, '\\');
  }

  /** A line that breaks off inside a word. */
  lemma BrokenLine(lead: string, word: Word, text: string)
    requires AreBlanks(lead) && forall i :: 0 <= i < |word| ==> IsSpellable(word[i])
    ensures '\'' !in text ==> ShellQuote.Split(lead + SpellWord(word) + ("'" + text)) == Unterminated(OpenSingleQuote)
    ensures ShellQuote.Split(lead + SpellWord(word) + ("\"" + Doubled(text))) == Unterminated(OpenDoubleQuote)
    ensures ShellQuote.Split(lead + SpellWord(word) + "\\") == Unterminated(OpenEscape)
  {
    hide Run, IsSpellable, AreBlanks;
    RunAppend(START, lead, SpellWord(word));
    RunBlanks([], lead);
    RunPieces(START, word);
    RunAppend(START, lead + SpellWord(word), "'" + text);
    RunAppend(START, lead + SpellWord(word), "\"" + Doubled(text));
    RunAppend(START, lead + SpellWord(word), "\\");
    OpenEnds(Run(START, lead + SpellWord(word)), text);
  }

  // ---------------------------------------------------------------- how rows are printed

  /** Words without blanks or special characters are printed as they are, with blanks in single quotes. */
  lemma PrintedWord(w: string)
    requires w != "" && forall c <- w :: !IsSpecial(c) && c != '~'
    ensures !HasBlank(w) ==> QuoteWord(w) == w
    ensures HasBlank(w) ==> QuoteWord(w) == "'" + w + "'"
    ensures QuoteWord("") == "''"
  {
    EscapedPlain(w, true);
    QuotedPlain(w);
  }

  lemma {:induction false} EscapedPlain(w: string, atStart: bool)
    requires forall c <- w :: !IsSpecial(c) && c != '~'
    ensures Escaped(w, atStart) == w
  {
    hide IsSpecial;
    if w != "" {
      assert w[0] in w;
      EscapedPlain(w[1..], false);
    }
  }

  lemma QuotedPlain(w: string)
    requires w != "" && forall c <- w :: !IsSpecial(c)
    ensures Quoted(w, false) == "'" + w + "'"
  {
    assert w[0] in w && w[0] != '\'';
    QuotedOpen(w[1..]);
    assert "'" + [w[0]] + (w[1..] + "'") == "'" + w + "'";
  }

  lemma {:induction false} QuotedOpen(w: string)
    requires forall c <- w :: !IsSpecial(c)
    ensures Quoted(w, true) == w + "'"
  {
    if w != "" {
      assert w[0] in w && w[0] != '\'';
      QuotedOpen(w[1..]);
      assert [w[0]] + (w[1..] + "'") == w + "'";
    } else {
      assert w + "'" == "'";
    }
  }
}
