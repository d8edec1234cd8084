/**
 Logging out again (commands/logout.go) after a logout that broke off. The main result is when the
 second one completes what the first one began.
 */
module Retry {
  import opened Text
  import opened KeyStore
  import SshConfig
  import Logout

  /** The keys that a first run was done with, or will never be able to take up again. */
  function Lost(doomed: seq<string>, n: nat, stuck: set<string>): seq<string>
    requires n < |doomed|
  {
    if doomed[n] in stuck then doomed[..n] else doomed[..n + 1]
  }

  /** A second run finds the keys that were not lost, with the files that a broken run left. */
  lemma SelectedAgain(fs0: Fs, fs: Fs, all: seq<string>, doomed: seq<string>, n: nat, stuck: set<string>,
                      blocked: bool, key: string)
    requires Logout.AreSeparate(all) && Logout.IsBroken(fs0, fs, doomed, n, stuck, blocked) && key in all
    requires forall x :: x in doomed <==> x in all && Logout.IsSelected(fs0, x)
    ensures Logout.IsSelected(fs, key) <==> Logout.IsSelected(fs0, key) && key !in Lost(doomed, n, stuck)
  {
    var lost := Lost(doomed, n, stuck);
    forall other <- lost ensures other in all {
      assert other in doomed;
    }
    if key in lost {
      GoneIsNotSelected(fs0, fs, doomed, n, stuck, blocked, key);
    } else {
      forall other <- lost
        ensures other != key && key != CertPath(other) && other != CertPath(key) && CertPath(other) != CertPath(key)
      {
        SeparateAt(all, other, key);
        CertPathInjective(other, key);
      }
      KeptIsSame(fs0, fs, doomed, n, stuck, blocked, key);
    }
  }

  lemma SeparateAt(all: seq<string>, a: string, b: string)
    requires Logout.AreSeparate(all) && a in all && b in all
    ensures a != CertPath(b) && b != CertPath(a)
  {
    hide CertPath;
    var i, j :| 0 <= i < |all| && 0 <= j < |all| && all[i] == a && all[j] == b;
  }

  lemma GoneIsNotSelected(fs0: Fs, fs: Fs, doomed: seq<string>, n: nat, stuck: set<string>, blocked: bool, key: string)
    requires Logout.IsBroken(fs0, fs, doomed, n, stuck, blocked) && key in Lost(doomed, n, stuck)
    ensures key !in fs
  {
    hide CertPath;
    if key in doomed[..n] {
      assert key in Logout.Pairs(doomed[..n]);
    } else {
      assert key == doomed[n] && key in Logout.Pairs(doomed[..n + 1]);
    }
  }

  lemma KeptIsSame(fs0: Fs, fs: Fs, doomed: seq<string>, n: nat, stuck: set<string>, blocked: bool, key: string)
    requires Logout.IsBroken(fs0, fs, doomed, n, stuck, blocked)
    requires forall other <- Lost(doomed, n, stuck) ::
               other != key && key != CertPath(other) && other != CertPath(key) && CertPath(other) != CertPath(key)
    ensures Logout.IsSelected(fs, key) == Logout.IsSelected(fs0, key)
  {
    hide CertPath;
    var lost := Lost(doomed, n, stuck);
    assert key !in Logout.Pairs(lost) && CertPath(key) !in Logout.Pairs(lost);
    assert forall x <- doomed[..n] :: x in lost;
    assert doomed[..n + 1] == doomed[..n] + [doomed[n]];
    assert key !in Logout.Pairs(doomed[..n]) && CertPath(key) !in Logout.Pairs(doomed[..n]);
    assert SameAt(fs0, fs, key) && SameAt(fs0, fs, CertPath(key));
  }

  predicate SameAt(fs0: Fs, fs: Fs, path: string)
  {
    (path in fs0 <==> path in fs) && (path in fs0 ==> fs0[path] == fs[path])
  }

  // ---------------------------------------------------------------- the files

  /** What the second run deletes is what was not lost. */
  lemma DoomedAgain(fs0: Fs, fs: Fs, all: seq<string>, doomed: seq<string>, n: nat, stuck: set<string>, blocked: bool)
    requires Logout.AreSeparate(all) && Logout.IsBroken(fs0, fs, doomed, n, stuck, blocked)
    requires forall x :: x in doomed <==> x in all && Logout.IsSelected(fs0, x)
    ensures forall x :: x in Logout.Doomed(fs, all) <==> x in doomed && x !in Lost(doomed, n, stuck)
  {
    assert n < |doomed|;
    hide Logout.IsSelected, Logout.IsBroken, Logout.AreSeparate, CertPath, Lost;
    forall x ensures x in Logout.Doomed(fs, all) <==> x in doomed && x !in Lost(doomed, n, stuck) {
      Logout.DoomedAreListed(fs, all, x);
      if x in all {
        SelectedAgain(fs0, fs, all, doomed, n, stuck, blocked, x);
      }
    }
  }

  /**
   The files are complete after the second run if and only if the first one did not leave a
   certificate without its key.
   */
  lemma FilesAgain(fs0: Fs, fs: Fs, all: seq<string>, doomed: seq<string>, n: nat, stuck: set<string>, blocked: bool)
    requires Logout.AreSeparate(all) && Logout.IsDistinct(doomed) && Logout.IsBroken(fs0, fs, doomed, n, stuck, blocked)
    requires forall x :: x in doomed <==> x in all && Logout.IsSelected(fs0, x)
    ensures fs - Logout.Pairs(Logout.Doomed(fs, all)) == fs0 - Logout.Pairs(doomed) <==>
            doomed[n] in stuck || CertPath(doomed[n]) !in stuck
  {
    DoomedAgain(fs0, fs, all, doomed, n, stuck, blocked);
    var left, lost, key := Logout.Doomed(fs, all), Lost(doomed, n, stuck), doomed[n];
    assert key in doomed;
    assert Logout.IsSelected(fs0, key);
    hide Logout.IsSelected, Logout.Doomed;
    LostAndLeft(doomed, lost, left);
    if key in stuck || CertPath(key) !in stuck {
      assert fs == fs0 - Logout.Pairs(lost);
      hide Logout.Pairs;
      assert fs - Logout.Pairs(left) == fs0 - (Logout.Pairs(lost) + Logout.Pairs(left));
    } else {
      OrphanStays(fs0, all, doomed, n, left);
      assert CertPath(key) in fs0 by { Logout.SelectedIsThere(fs0, key); }
      assert CertPath(key) in fs - Logout.Pairs(left);
      assert CertPath(key) in Logout.Pairs(doomed);
    }
  }

  lemma LostAndLeft(doomed: seq<string>, lost: seq<string>, left: seq<string>)
    requires forall x :: x in left <==> x in doomed && x !in lost
    requires forall x <- lost :: x in doomed
    ensures Logout.Pairs(doomed) == Logout.Pairs(lost) + Logout.Pairs(left)
  {
    hide Logout.Pairs;
    Logout.PairsAppend(lost, left);
    Logout.PairsOfSameSet(doomed, lost + left);
  }

  /** No other key's pair holds the certificate. */
  lemma OrphanStays(fs0: Fs, all: seq<string>, doomed: seq<string>, n: nat, left: seq<string>)
    requires Logout.AreSeparate(all) && Logout.IsDistinct(doomed) && n < |doomed| && forall x <- doomed :: x in all
    requires forall x <- left :: x in doomed && x !in doomed[..n + 1]
    ensures CertPath(doomed[n]) !in Logout.Pairs(doomed[..n]) && CertPath(doomed[n]) !in Logout.Pairs(left)
    ensures CertPath(doomed[n]) != doomed[n]
  {
    var key := doomed[n];
    assert key != CertPath(key);
    forall other <- doomed[..n] ensures other != CertPath(key) && CertPath(other) != CertPath(key) {
      var i :| 0 <= i < n && doomed[i] == other;
      assert other in doomed && key in doomed;
      SeparateAt(all, other, key);
      CertPathInjective(other, key);
    }
    forall other <- left ensures other != CertPath(key) && CertPath(other) != CertPath(key) {
      assert key in doomed[..n + 1] by { assert doomed[..n + 1][n] == key; }
      assert other != key && key in doomed;
      SeparateAt(all, other, key);
      CertPathInjective(other, key);
    }
  }

  // ---------------------------------------------------------------- the config

  /** The keys of the opkssh directory whose lines are gone after both runs. */
  lemma LinesGone(fs0: Fs, fs: Fs, opk: seq<string>, first: seq<string>, second: seq<string>, n: nat,
                  stuck: set<string>,
                  blocked: bool, x: string)
    requires Logout.AreSeparate(opk) && Logout.IsDistinct(first + second)
    requires Logout.IsBroken(fs0, fs, first + second, n, stuck, blocked)
    requires second == Logout.Doomed(fs0, opk)
    requires forall y :: y in Logout.Doomed(fs, opk) <==> y in second && y !in Lost(first + second, n, stuck)
    ensures var key := (first + second)[n];
            x in second[..Logout.Beyond(n, |first|)] + Logout.Doomed(fs, opk) <==>
                x in second && (x != key || key in stuck)
  {
    var doomed, k := first + second, Logout.Beyond(n, |first|);
    var key := doomed[n];
    hide Logout.IsBroken, Logout.Doomed, Logout.IsSelected;
    if x in second[..k] {
      var i :| 0 <= i < k && second[i] == x;
      assert doomed[|first| + i] == x;
    }
    if x in second {
      var i :| 0 <= i < |second| && second[i] == x;
      assert doomed[|first| + i] == x;
      if x in Lost(doomed, n, stuck) && x != key {
        var j :| 0 <= j < n && doomed[j] == x;
        assert j == |first| + i && second[..k][i] == x;
      }
      if x == key && key !in stuck {
        assert doomed[..n + 1][n] == key;
      }
    }
  }

  /** The config after both runs, against the config without the lines of all keys. */
  lemma ConfigAgain(config: string, second: seq<string>, done: seq<string>, again: seq<string>, key: string,
                    isStuck: bool)
    requires forall x :: x in done + again <==> x in second && (x != key || isStuck)
    ensures SshConfig.Lines(SshConfig.WithoutKeys(SshConfig.WithoutKeys(config, done), again)) ==
            SshConfig.Lines(SshConfig.WithoutKeys(config, second)) <==>
            isStuck || key !in second || !SshConfig.HasLine(config, key)
  {
    hide SshConfig.Lines, SshConfig.WithoutKeys, SshConfig.HasLine;
    SshConfig.WithoutKeysAppend(config, done, again);
    if isStuck || key !in second {
      SshConfig.SameKeysSameLines(config, done + again, second);
    } else {
      SshConfig.SameKeysSameLines(config, done + again + [key], second);
      SshConfig.OneKeyMore(config, done + again, key);
    }
  }

  // ---------------------------------------------------------------- two runs

  /** The keys to delete in the order of the first run. */
  function InOrder(fs: Fs, sshDir: string, ecdsaFirst: bool, listing: Option<seq<Logout.Entry>>): seq<string>
  {
    Logout.Doomed(fs, Logout.DefaultSecrets(sshDir, ecdsaFirst))
        + Logout.Doomed(fs, Logout.OpksshSecrets(sshDir, listing))
  }

  lemma InOrderIsAll(fs: Fs, sshDir: string, ecdsaFirst: bool, listing: Option<seq<Logout.Entry>>)
    requires listing.Some? ==> Logout.AreEntries(listing.value)
    ensures var all, doomed := Logout.AllSecrets(sshDir, listing), InOrder(fs, sshDir, ecdsaFirst, listing);
            && (forall x :: x in doomed <==> x in all && Logout.IsSelected(fs, x))
            && Logout.IsDistinct(doomed) && Logout.AreSeparate(all)
            && Logout.AreSeparate(Logout.OpksshSecrets(sshDir, listing))
            && Logout.Pairs(doomed) == Logout.Pairs(Logout.Doomed(fs, all))
  {
    var all, doomed := Logout.AllSecrets(sshDir, listing), InOrder(fs, sshDir, ecdsaFirst, listing);
    var a, b := Logout.DefaultSecrets(sshDir, ecdsaFirst), Logout.OpksshSecrets(sshDir, listing);
    hide Logout.DefaultSecrets, Logout.OpksshSecrets, Logout.IsSelected, Logout.Doomed, Logout.IsKeyFile,
         Logout.AreEntries, Logout.Pairs, CertPath, Logout.AreSeparate;
    Logout.SameDefaults(sshDir, ecdsaFirst);
    Logout.SecretsAreSeparate(sshDir, ecdsaFirst, listing);
    Logout.AllAreSeparate(sshDir, listing);
    forall x ensures x in doomed <==> x in all && Logout.IsSelected(fs, x) {
      Logout.DoomedAreListed(fs, a, x);
      Logout.DoomedAreListed(fs, b, x);
    }
    forall x ensures x in doomed <==> x in Logout.Doomed(fs, all) {
      Logout.DoomedAreListed(fs, all, x);
    }
    Logout.PairsOfSameSet(doomed, Logout.Doomed(fs, all));
    Logout.DefaultsAreDistinct(sshDir, ecdsaFirst);
    Logout.OpksshAreKeyFiles(sshDir, listing);
    Logout.DoomedIsDistinct(fs, a);
    Logout.DoomedIsDistinct(fs, b);
    forall i, j | 0 <= i < |Logout.Doomed(fs, a)| && 0 <= j < |Logout.Doomed(fs, b)|
      ensures Logout.Doomed(fs, a)[i] != Logout.Doomed(fs, b)[j]
    {
      var x, y := Logout.Doomed(fs, a)[i], Logout.Doomed(fs, b)[j];
      Logout.DoomedAreListed(fs, a, x);
      Logout.DoomedAreListed(fs, b, y);
      Logout.DirectoriesDiffer(sshDir, x, y);
    }
  }

  /**
   A logout that breaks off and another one that meets no obstacle. The files are complete if and only
   if the key in hand was itself stuck or its certificate was not; the lines of the config are
   complete if and only if that key was stuck, or is none of the opkssh directory, or has no line.
   */
  method LogoutTwice(
    fs: Fs, config: Option<string>, stuck: set<string>, configWritable: bool, sshDir: string, ecdsaFirst: bool,
    ecdsaFirstAgain: bool, listing: Option<seq<Logout.Entry>>)
    returns (ok: bool, count: nat, files: Fs, text: Option<string>)
    requires listing.Some? ==> Logout.AreEntries(listing.value)
    ensures var doomed := InOrder(fs, sshDir, ecdsaFirst, listing);
            var opk := Logout.Doomed(fs, Logout.OpksshSecrets(sshDir, listing));
            && (ok ==> files == fs - Logout.Pairs(doomed) && text == Logout.ConfigAfter(config, opk))
            && (!ok ==>
                  && count < |doomed|
                  && (files == fs - Logout.Pairs(doomed) <==>
                     doomed[count] in stuck || CertPath(doomed[count]) !in stuck)
                  && (text == None <==> config == None)
                  && (config.Some? ==>
                        (SshConfig.Lines(text.value) == SshConfig.Lines(SshConfig.WithoutKeys(config.value, opk)) <==>
                         doomed[count] in stuck || doomed[count] !in opk ||
                             !SshConfig.HasLine(config.value, doomed[count]))))
  {
    hide Logout.Pairs, Logout.Doomed, Logout.AllSecrets, Logout.OpksshSecrets, Logout.DefaultSecrets,
         Logout.IsBroken, Logout.AreEntries, Logout.IsSelected, Logout.IsInside, Logout.AreSeparate,
         Logout.IsDistinct, CertPath, SshConfig.Lines, SshConfig.WithoutKeys, SshConfig.HasLine, Lost;
    InOrderIsAll(fs, sshDir, ecdsaFirst, listing);
    var logout := new Logout.LogoutCmd(fs, config, stuck, configWritable);
    count, ok := logout.Run("", sshDir, ecdsaFirst, listing);
    if ok {
      return ok, count, logout.fs, logout.config;
    }
    ghost var all, opk := Logout.AllSecrets(sshDir, listing), Logout.OpksshSecrets(sshDir, listing);
    ghost var first, second := Logout.Doomed(fs, Logout.DefaultSecrets(sshDir, ecdsaFirst)), Logout.Doomed(fs, opk);
    ghost var doomed := first + second;
    ghost var fs1, config1 := logout.fs, logout.config;
    ghost var blocked := count >= |first| && config.Some? && !configWritable;
    BrokenIndex(fs, fs1, doomed, count, stuck, blocked);
    var again := new Logout.LogoutCmd(logout.fs, logout.config, {}, true);
    var _, done := again.Run("", sshDir, ecdsaFirstAgain, listing);
    FilesAgain(fs, fs1, all, doomed, count, stuck, blocked);
    LinesAgain(fs, fs1, sshDir, listing, first, second, count, stuck, blocked);
    if config.Some? {
      ConfigAgain(config.value, second, second[..Logout.Beyond(count, |first|)], Logout.Doomed(fs1, opk), doomed[count],
                  doomed[count] in stuck);
    }
    return false, count, again.fs, again.config;
  }

  lemma BrokenIndex(fs0: Fs, fs: Fs, doomed: seq<string>, n: nat, stuck: set<string>, blocked: bool)
    requires Logout.IsBroken(fs0, fs, doomed, n, stuck, blocked)
    ensures n < |doomed|
  {
  }

  lemma LinesAgain(fs0: Fs, fs: Fs, sshDir: string, listing: Option<seq<Logout.Entry>>, first: seq<string>,
                   second: seq<string>,
                   n: nat, stuck: set<string>, blocked: bool)
    requires listing.Some? ==> Logout.AreEntries(listing.value)
    requires second == Logout.Doomed(fs0, Logout.OpksshSecrets(sshDir, listing)) && Logout.IsDistinct(first + second)
    requires var all := Logout.AllSecrets(sshDir, listing);
             && Logout.AreSeparate(all) && Logout.AreSeparate(Logout.OpksshSecrets(sshDir, listing))
             && forall x :: x in first + second <==> x in all && Logout.IsSelected(fs0, x)
    requires n < |first + second| && Logout.IsBroken(fs0, fs, first + second, n, stuck, blocked)
    ensures var key := (first + second)[n];
            var gone := second[..Logout.Beyond(n, |first|)] + Logout.Doomed(fs, Logout.OpksshSecrets(sshDir, listing));
            forall x :: x in gone <==> x in second && (x != key || key in stuck)
  {
    var all, opk := Logout.AllSecrets(sshDir, listing), Logout.OpksshSecrets(sshDir, listing);
    assert forall x <- opk :: x in all;
    hide Logout.Doomed, Logout.AllSecrets, Logout.OpksshSecrets, Logout.IsBroken, Logout.AreEntries,
         Logout.IsSelected, Logout.AreSeparate, Logout.IsDistinct, Lost;
    DoomedAgain(fs0, fs, all, first + second, n, stuck, blocked);
    forall x ensures x in Logout.Doomed(fs, opk) <==> x in second && x !in Lost(first + second, n, stuck) {
      Logout.DoomedAreListed(fs, opk, x);
      Logout.DoomedAreListed(fs0, opk, x);
      Logout.DoomedAreListed(fs, all, x);
    }
    forall x ensures x in second[..Logout.Beyond(n, |first|)] + Logout.Doomed(fs, opk) <==>
                     x in second && (x != (first + second)[n] || (first + second)[n] in stuck)
    {
      LinesGone(fs0, fs, opk, first, second, n, stuck, blocked, x);
    }
  }
}
