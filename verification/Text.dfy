/**
 The string operations that the modelled code takes from Go's `strings` package, on sequences of
 Unicode characters, together with the laws that the other modules use.
 */
module Text {

  datatype Option<+T> = None | Some(value: T)

  /** The byte order mark, one character once the text is decoded. */
  const BOM: char := '\U{FEFF}'

  // ---------------------------------------------------------------- splitting and joining

  /** `strings.Split` with a separator of one character. */
  function Split(s: string, sep: char): (parts: seq<string>)
    ensures |parts| > 0
    ensures forall p <- parts :: sep !in p
  {
    if s == [] then [[]]
    else if s[0] == sep then [[]] + Split(s[1..], sep)
    else
      var rest := Split(s[1..], sep);
      [[s[0]] + rest[0]] + rest[1..]
  }

  /** `strings.Join`. */
  function Join(parts: seq<string>, sep: string): string
  {
    if parts == [] then []
    else if |parts| == 1 then parts[0]
    else parts[0] + sep + Join(parts[1..], sep)
  }

  lemma {:induction false} SplitWithoutSeparator(s: string, sep: char)
    requires sep !in s
    ensures Split(s, sep) == [s]
  {
    if s != [] {
      SplitWithoutSeparator(s[1..], sep);
      assert [s[0]] + s[1..] == s;
    }
  }

  /** A separator-free text followed by a separator is the first part. */
  lemma {:induction false} SplitCons(a: string, b: string, sep: char)
    requires sep !in a
    ensures Split(a + [sep] + b, sep) == [a] + Split(b, sep)
  {
    var s := a + [sep] + b;
    if a == [] {
      assert s[1..] == b;
    } else {
      assert s[1..] == a[1..] + [sep] + b;
      SplitCons(a[1..], b, sep);
      assert [a[0]] + a[1..] == a;
      assert ([a[1..]] + Split(b, sep))[1..] == Split(b, sep);
    }
  }

  /** A character in front of a text: a part of its own or the start of the first part. */
  lemma SplitBehind(c: char, s: string, sep: char)
    ensures Split([c] + s, sep) ==
            if c == sep then [[]] + Split(s, sep) else [[c] + Split(s, sep)[0]] + Split(s, sep)[1..]
  {
    assert ([c] + s)[1..] == s;
  }

  lemma SplitStarts(s: string, sep: char)
    requires s != [] && s[0] != sep
    ensures Split(s, sep)[0] != []
  {
  }

  /** Splitting loses nothing. */
  lemma {:induction false} JoinOfSplit(s: string, sep: char)
    ensures Join(Split(s, sep), [sep]) == s
  {
    if s != [] {
      JoinOfSplit(s[1..], sep);
      var rest := Split(s[1..], sep);
      if s[0] == sep {
        assert ([[]] + rest)[1..] == rest;
        assert s == [sep] + s[1..];
      } else {
        var parts := [[s[0]] + rest[0]] + rest[1..];
        assert parts[1..] == rest[1..];
        assert Join(parts, [sep]) == [s[0]] + Join(rest, [sep]);
      }
    }
  }

  /** Joining separator-free parts loses nothing, as long as there is one part. */
  lemma {:induction false} SplitOfJoin(parts: seq<string>, sep: char)
    requires parts != []
    requires forall p <- parts :: sep !in p
    ensures Split(Join(parts, [sep]), sep) == parts
  {
    if |parts| == 1 {
      SplitWithoutSeparator(parts[0], sep);
    } else {
      SplitCons(parts[0], Join(parts[1..], [sep]), sep);
      SplitOfJoin(parts[1..], sep);
    }
  }

  /** Every part sits somewhere in the text. */
  lemma {:induction false} SplitPartIsInfix(s: string, sep: char, k: nat)
    requires k < |Split(s, sep)|
    ensures Contains(s, Split(s, sep)[k])
  {
    if k == 0 {
      SplitHeadIsPrefix(s, sep);
      ContainsAt(s, Split(s, sep)[0], 0);
    } else {
      var rest := Split(s[1..], sep);
      var j := if s[0] == sep then k - 1 else k;
      SplitPartIsInfix(s[1..], sep, j);
      var i := Position(s[1..], rest[j]);
      ContainsTail(s, rest[j], i);
    }
  }

  lemma {:induction false} SplitHeadIsPrefix(s: string, sep: char)
    ensures Split(s, sep)[0] <= s
  {
    if s != [] && s[0] != sep {
      SplitHeadIsPrefix(s[1..], sep);
    }
  }

  // ---------------------------------------------------------------- containment

  /** `strings.Contains`. */
  predicate Contains(s: string, t: string)
  {
    exists i :: 0 <= i <= |s| && OccursAt(s, t, i)
  }

  predicate OccursAt(s: string, t: string, i: int)
  {
    0 <= i && i + |t| <= |s| && s[i..i + |t|] == t
  }

  ghost function Position(s: string, t: string): (i: nat)
    requires Contains(s, t)
    ensures OccursAt(s, t, i)
  {
    var i :| 0 <= i <= |s| && OccursAt(s, t, i);
    i
  }

  lemma ContainsAt(s: string, t: string, i: int)
    requires OccursAt(s, t, i)
    ensures Contains(s, t)
  {
  }

  /** A text contains another if it stands somewhere between two others. */
  lemma WhatIsContained(s: string, t: string)
    ensures Contains(s, t) <==> exists before, behind :: s == before + t + behind
  {
    if Contains(s, t) {
      var i := Position(s, t);
      assert s == s[..i] + t + s[i + |t|..];
    }
    forall before, behind | s == before + t + behind ensures Contains(s, t) {
      OccursBetween(before, t, behind);
      ContainsAt(s, t, |before|);
    }
  }

  lemma OccursBetween(before: string, t: string, behind: string)
    ensures OccursAt(before + t + behind, t, |before|)
  {
    assert (before + t + behind)[|before|..|before| + |t|] == t;
  }

  lemma ContainsTail(s: string, t: string, i: nat)
    requires s != [] && OccursAt(s[1..], t, i)
    ensures Contains(s, t)
  {
    forall k | 0 <= k < |t| ensures s[i + 1..i + 1 + |t|][k] == t[k] {
      assert t[k] == s[1..][i..i + |t|][k] == s[1..][i + k];
    }
    assert s[i + 1..i + 1 + |t|] == t;
    ContainsAt(s, t, i + 1);
  }

  lemma ContainsTransitive(s: string, t: string, u: string)
    requires Contains(s, t) && Contains(t, u)
    ensures Contains(s, u)
  {
    var i, j := Position(s, t), Position(t, u);
    forall k | 0 <= k < |u| ensures s[i + j..i + j + |u|][k] == u[k] {
      assert u[k] == t[j..j + |u|][k] == t[j + k] == s[i..i + |t|][j + k];
    }
    assert s[i + j..i + j + |u|] == u;
    ContainsAt(s, u, i + j);
  }

  lemma SliceGrows(s: string, i: nat, j: nat)
    requires i <= j < |s|
    ensures s[i..j] + [s[j]] == s[i..j + 1]
  {
  }

  predicate HasPrefix(s: string, p: string) { p <= s }

  predicate HasSuffix(s: string, p: string)
  {
    |p| <= |s| && s[|s| - |p|..] == p
  }

  /** A file of a directory. */
  function PathIn(dir: string, name: string): string { dir + "/" + name }

  // ---------------------------------------------------------------- white space

  /** Space, tab and line feed: what separates words inside a row. */
  predicate IsBlank(c: char) { c == ' ' || c == '\t' || c == '\n' }

  /** `unicode.IsSpace`: what `strings.TrimSpace` removes at both ends. */
  predicate IsSpace(c: char)
  {
    || IsBlank(c) || c == '\r' || c == '\U{B}' || c == '\U{C}' || c == '\U{85}' || c == '\U{A0}'
    || c == '\U{1680}' || '\U{2000}' <= c <= '\U{200A}' || c == '\U{2028}' || c == '\U{2029}'
    || c == '\U{202F}' || c == '\U{205F}' || c == '\U{3000}'
  }

  /** The white space of the Unicode standard, character by character. */
  lemma WhatIsSpace(c: char)
    ensures IsSpace(c) <==>
            c in "\U{9}\U{A}\U{B}\U{C}\U{D}\U{20}\U{85}\U{A0}\U{1680}" ||
            c in "\U{2000}\U{2001}\U{2002}\U{2003}\U{2004}\U{2005}\U{2006}\U{2007}\U{2008}\U{2009}\U{200A}" ||
            c in "\U{2028}\U{2029}\U{202F}\U{205F}\U{3000}"
  {
  }

  ghost predicate AllSpaces(s: string) { forall c <- s :: IsSpace(c) }

  /** Where the leading spaces end. */
  function Lead(s: string): (n: nat)
    ensures n <= |s| && (forall i :: 0 <= i < n ==> IsSpace(s[i])) && (n < |s| ==> !IsSpace(s[n]))
  {
    if s != [] && IsSpace(s[0]) then 1 + Lead(s[1..]) else 0
  }

  /** Where the trailing spaces start. */
  function End(s: string): (n: nat)
    ensures n <= |s| && (forall i :: n <= i < |s| ==> IsSpace(s[i])) && (n > 0 ==> !IsSpace(s[n - 1]))
  {
    if s != [] && IsSpace(s[|s| - 1]) then End(s[..|s| - 1]) else |s|
  }

  /** `strings.TrimSpace`. */
  function TrimSpace(s: string): (r: string)
    ensures r == [] || (!IsSpace(r[0]) && !IsSpace(r[|r| - 1]))
  {
    if Lead(s) <= End(s) then s[Lead(s)..End(s)] else []
  }

  lemma TrimSpaceOfTrimmed(s: string)
    requires s == [] || (!IsSpace(s[0]) && !IsSpace(s[|s| - 1]))
    ensures TrimSpace(s) == s
  {
  }

  /** Where the trimmed text sits. */
  lemma TrimSpaceBounds(s: string) returns (i: nat, j: nat)
    ensures i <= j <= |s| && TrimSpace(s) == s[i..j]
    ensures s != [] && IsSpace(s[0]) ==> 0 < i
    ensures s != [] && IsSpace(s[|s| - 1]) && TrimSpace(s) != [] ==> j < |s|
  {
    hide IsSpace;
    i, j := Lead(s), End(s);
    if j < i {
      j := i;
    }
  }

  lemma EndIs(s: string, n: nat)
    requires n <= |s| && AllSpaces(s[n..]) && (n > 0 ==> !IsSpace(s[n - 1]))
    ensures End(s) == n
  {
    hide IsSpace, End;
    assert forall i :: n <= i < |s| ==> s[i] == s[n..][i - n];
  }

  lemma LeadIs(s: string, n: nat)
    requires n <= |s| && (forall i :: 0 <= i < n ==> IsSpace(s[i])) && (n < |s| ==> !IsSpace(s[n]))
    ensures Lead(s) == n
  {
    hide IsSpace, Lead;
  }

  /** A space at the end does not matter. */
  lemma TrimSpaceOfInit(s: string)
    requires s != [] && IsSpace(s[|s| - 1])
    ensures TrimSpace(s[..|s| - 1]) == TrimSpace(s)
  {
    var t := s[..|s| - 1];
    assert End(s) == End(t);
    hide IsSpace, Lead, End;
    if Lead(s) < |s| {
      LeadIs(t, Lead(s));
      assert Lead(s) <= End(s) ==> t[Lead(s)..End(s)] == s[Lead(s)..End(s)];
    } else {
      LeadIs(t, |t|);
    }
  }

  /** A text is the trimmed text between spaces. */
  lemma TrimSpaceParts(s: string) returns (lead: string, tail: string)
    ensures s == lead + TrimSpace(s) + tail && AllSpaces(lead) && AllSpaces(tail)
  {
    hide IsSpace, Lead, End;
    var i, j := Lead(s), End(s);
    if i <= j {
      lead, tail := s[..i], s[j..];
    } else {
      lead, tail := s, [];
    }
  }

  /** What stands between spaces and has none at its ends is the trimmed text. */
  lemma TrimSpaceBetween(lead: string, core: string, tail: string)
    requires AllSpaces(lead) && AllSpaces(tail)
    requires core != [] && !IsSpace(core[0]) && !IsSpace(core[|core| - 1])
    ensures TrimSpace(lead + core + tail) == core
  {
    hide IsSpace, Lead, End;
    var s := lead + core + tail;
    var i, j := |lead|, |lead| + |core|;
    assert s[i..j] == core && s[j..] == tail;
    assert s[i] == core[0] && s[j - 1] == core[|core| - 1];
    LeadIs(s, i);
    EndIs(s, j);
  }

  /** Spaces around a text do not matter. */
  lemma TrimSpaceAround(before: string, s: string, behind: string)
    requires AllSpaces(before) && AllSpaces(behind)
    ensures TrimSpace(before + s + behind) == TrimSpace(s)
  {
    hide IsSpace, TrimSpace;
    var lead, tail := TrimSpaceParts(s);
    var core := TrimSpace(s);
    if core == [] {
      assert AllSpaces(before + s + behind);
      TrimSpaceOfSpaces(before + s + behind);
    } else {
      TrimSpaceBetween(before + lead, core, tail + behind);
      assert (before + lead) + core + (tail + behind) == before + s + behind;
    }
  }

  lemma TrimSpaceOfSpaces(s: string)
    requires AllSpaces(s)
    ensures TrimSpace(s) == []
  {
    var i, j := TrimSpaceBounds(s);
    assert i < j ==> s[i] in s;
  }

  /** Trimming behind a visible character keeps the spaces between the two. */
  lemma TrimSpaceBehind(c: char, s: string) returns (spaces: string)
    requires !IsSpace(c)
    ensures TrimSpace([c] + s) == [c] + spaces + TrimSpace(s)
    ensures AllSpaces(spaces) && spaces <= s
  {
    hide IsSpace, TrimSpace;
    var lead, tail := TrimSpaceParts(s);
    var core := TrimSpace(s);
    if core == [] {
      spaces := [];
      TrimSpaceBetween([], [c], s);
      assert [] + [c] + s == [c] + s;
      assert [c] + [] + [] == [c];
    } else {
      spaces := lead;
      var t := [c] + lead + core;
      assert t[|t| - 1] == core[|core| - 1];
      TrimSpaceBetween([], t, tail);
      assert [] + t + tail == [c] + s;
    }
  }

  lemma TrimSpaceFree(s: string, c: char)
    requires c !in s
    ensures c !in TrimSpace(s)
  {
    var i, j := TrimSpaceBounds(s);
  }

  lemma TrimSpaceIsInfix(s: string)
    ensures Contains(s, TrimSpace(s))
  {
    var i, j := TrimSpaceBounds(s);
    ContainsAt(s, TrimSpace(s), i);
  }

  // ---------------------------------------------------------------- mapping and collecting

  ghost predicate Every(s: string, p: char -> bool) { forall c <- s :: p(c) }

  /** The results of `f` on every element, in order, in one sequence. */
  function Flat<A, B>(f: A -> seq<B>, xs: seq<A>): seq<B>
  {
    if xs == [] then [] else Flat(f, xs[..|xs| - 1]) + f(xs[|xs| - 1])
  }

  lemma FlatStep<A, B>(f: A -> seq<B>, xs: seq<A>, i: nat)
    requires i < |xs|
    ensures Flat(f, xs[..i + 1]) == Flat(f, xs[..i]) + f(xs[i])
  {
    assert xs[..i + 1][..i] == xs[..i];
  }

  lemma {:induction false} FlatAppend<A, B>(f: A -> seq<B>, xs: seq<A>, ys: seq<A>)
    ensures Flat(f, xs + ys) == Flat(f, xs) + Flat(f, ys)
  {
    if ys == [] {
      assert xs + ys == xs;
    } else {
      var n := |ys| - 1;
      assert (xs + ys)[..|xs + ys| - 1] == xs + ys[..n];
      FlatAppend(f, xs, ys[..n]);
    }
  }

  lemma FlatCons<A, B>(f: A -> seq<B>, x: A, xs: seq<A>)
    ensures Flat(f, [x] + xs) == f(x) + Flat(f, xs)
  {
    hide Flat;
    FlatAppend(f, [x], xs);
    FlatOne(f, x);
  }

  lemma FlatOne<A, B>(f: A -> seq<B>, x: A)
    ensures Flat(f, [x]) == f(x)
  {
    assert [x][..0] == [];
    assert [] + f(x) == f(x);
  }

  lemma FlatNone<A, B>(f: A -> seq<B>)
    ensures Flat(f, []) == []
  {
  }

  /** What is in the collection came from some element. */
  lemma {:induction false} FlatMember<A, B>(f: A -> seq<B>, xs: seq<A>, y: B)
    requires y in Flat(f, xs)
    ensures exists x :: x in xs && y in f(x)
  {
    var n := |xs| - 1;
    if y in f(xs[n]) {
      assert xs[n] in xs;
    } else {
      FlatMember(f, xs[..n], y);
      var x :| x in xs[..n] && y in f(x);
      assert x in xs;
    }
  }

  /** What some element gives is in the collection. */
  lemma {:induction false} FlatHas<A, B>(f: A -> seq<B>, xs: seq<A>, x: A, y: B)
    requires x in xs && y in f(x)
    ensures y in Flat(f, xs)
  {
    var n := |xs| - 1;
    if x != xs[n] {
      assert x in xs[..n];
      FlatHas(f, xs[..n], x, y);
    }
  }
}
