/**
 Removing keys (commands/logout.go). The main results say exactly which files a logout deletes, that
 the order in which it walks the default names does not matter, and what becomes of the config.
 */
module Logout {
  import opened Text
  import opened KeyStore
  import SshConfig

  /** The certificate is opkssh's and certifies this very key. */
  predicate IsSelected(fs: Fs, secret: string)
  {
    && Read(fs, CertPath(secret)).Some? && IsOpenpubkey(Read(fs, CertPath(secret)).value)
    && Read(fs, secret).Some? && Certifies(Read(fs, CertPath(secret)).value, Read(fs, secret).value)
  }

  /** A key and, beside it, a certificate for it with a comment that begins like those of opkssh; both can be read. */
  predicate IsOwnPair(fs: Fs, secret: string)
  {
    var cert := secret + "-cert.pub";
    && secret in fs && fs[secret].readable && fs[secret].content.SecretKey?
    && cert in fs && fs[cert].readable && fs[cert].content.Certificate?
    && "openpubkey" <= fs[cert].content.comment
    && fs[cert].content.key == fs[secret].content.key
  }

  lemma WhatIsSelected(fs: Fs, secret: string)
    ensures IsSelected(fs, secret) <==> IsOwnPair(fs, secret)
  {
  }

  function IfSelected(fs: Fs): string -> seq<string>
  {
    (secret: string) => if IsSelected(fs, secret) then [secret] else []
  }

  /** The keys to delete among those listed. */
  function Doomed(fs: Fs, secrets: seq<string>): seq<string> { Flat(IfSelected(fs), secrets) }

  /** Their files: the keys and the certificates. */
  function Pairs(secrets: seq<string>): set<string>
  {
    (set secret | secret in secrets) + (set secret | secret in secrets :: CertPath(secret))
  }

  /** No key twice, and no key is another's certificate. */
  predicate AreSeparate(secrets: seq<string>)
  {
    && (forall i, j :: 0 <= i < j < |secrets| ==> secrets[i] != secrets[j])
    && (forall i, j :: 0 <= i < |secrets| && 0 <= j < |secrets| ==> secrets[i] != CertPath(secrets[j]))
  }

  // ---------------------------------------------------------------- one key after others

  lemma DoomedAreListed(fs: Fs, secrets: seq<string>, secret: string)
    ensures secret in Doomed(fs, secrets) <==> secret in secrets && IsSelected(fs, secret)
  {
    hide IsSelected;
    if secret in Doomed(fs, secrets) {
      FlatMember(IfSelected(fs), secrets, secret);
    }
    if secret in secrets && IsSelected(fs, secret) {
      FlatHas(IfSelected(fs), secrets, secret, secret);
    }
  }

  /** Deleting the pairs of other keys does not touch a key's own pair. */
  lemma OtherPairs(fs: Fs, others: seq<string>, secret: string)
    requires secret !in others
    requires forall other <- others :: secret != CertPath(other) && other != CertPath(secret)
    ensures secret !in Pairs(others) && CertPath(secret) !in Pairs(others)
    ensures IsSelected(fs - Pairs(others), secret) == IsSelected(fs, secret)
  {
    forall other <- others ensures CertPath(other) != CertPath(secret) {
      CertPathInjective(other, secret);
    }
  }

  /** What the files look like after the keys in `done`: their selected pairs are gone. */
  predicate IsPast(fs0: Fs, fs: Fs, done: seq<string>) { fs == fs0 - Pairs(Doomed(fs0, done)) }

  lemma SelectedIsThere(fs: Fs, secret: string)
    requires IsSelected(fs, secret)
    ensures secret in fs && CertPath(secret) in fs
  {
  }

  lemma SelectedLater(fs0: Fs, fs: Fs, done: seq<string>, secret: string)
    requires IsPast(fs0, fs, done) && AreSeparate(done + [secret])
    ensures IsSelected(fs, secret) == IsSelected(fs0, secret)
    ensures Pairs(Doomed(fs0, done)) !! {secret, CertPath(secret)}
  {
    hide IsSelected, CertPath;
    var all := done + [secret];
    forall other <- Doomed(fs0, done)
      ensures other != secret && secret != CertPath(other) && other != CertPath(secret)
    {
      DoomedAreListed(fs0, done, other);
      var i :| 0 <= i < |done| && done[i] == other;
      assert all[i] == other && all[|done|] == secret;
    }
    OtherPairs(fs0, Doomed(fs0, done), secret);
  }

  lemma PairsSnoc(secrets: seq<string>, secret: string)
    ensures Pairs(secrets + [secret]) == Pairs(secrets) + {secret, CertPath(secret)}
  {
  }

  lemma DoomedSnoc(fs0: Fs, done: seq<string>, secret: string)
    ensures Doomed(fs0, done + [secret]) == if IsSelected(fs0, secret) then Doomed(fs0, done) + [secret]
            else Doomed(fs0, done)
  {
    assert (done + [secret])[..|done|] == done;
  }

  lemma PastMore(fs0: Fs, fs: Fs, done: seq<string>, secret: string)
    requires IsPast(fs0, fs, done)
    ensures IsPast(fs0, if IsSelected(fs0, secret) then fs - {secret} - {CertPath(secret)} else fs, done + [secret])
  {
    hide IsSelected, CertPath, Pairs;
    DoomedSnoc(fs0, done, secret);
    if IsSelected(fs0, secret) {
      PairsSnoc(Doomed(fs0, done), secret);
      assert fs0 - (Pairs(Doomed(fs0, done)) + {secret, CertPath(secret)}) == fs - {secret} - {CertPath(secret)};
    }
  }

  // ---------------------------------------------------------------- the code

  datatype Outcome = Removed | Skipped | Failed

  datatype Entry = Entry(name: string, isDir: bool)

  /** Entries of the opkssh directory that can be keys. */
  function SecretOf(dir: string): Entry -> seq<string>
  {
    (entry: Entry) =>
      if entry.isDir || entry.name == "config" || HasSuffix(entry.name, CERT_SUFFIX) then []
      else [PathIn(dir, entry.name)]
  }

  function Secrets(dir: string, entries: seq<Entry>): seq<string> { Flat(SecretOf(dir), entries) }

  class LogoutCmd {
    var fs: Fs
    var config: Option<string>
    const stuck: set<string>  // files that cannot be removed
    const configWritable: bool

    constructor (fs: Fs, config: Option<string>, stuck: set<string>, configWritable: bool)
      ensures this.fs == fs && this.config == config && this.stuck == stuck && this.configWritable == configWritable
    {
      this.fs, this.config, this.stuck, this.configWritable := fs, config, stuck, configWritable;
    }

    /** The secret key goes first; a missing file is no error. */
    method RemoveKeyPair(secret: string) returns (ok: bool)
      modifies this`fs
      ensures ok <==>
              (secret in old(fs) ==> secret !in stuck) && (CertPath(secret) in old(fs) ==> CertPath(secret) !in stuck)
      ensures ok ==> fs == old(fs) - {secret} - {CertPath(secret)}
      ensures !ok ==> fs == if secret in old(fs) && secret in stuck then old(fs) else old(fs) - {secret}
    {
      assert secret != CertPath(secret);
      if secret in fs && secret in stuck {
        return false;
      }
      fs := fs - {secret};
      if CertPath(secret) in fs && CertPath(secret) in stuck {
        return false;
      }
      fs := fs - {CertPath(secret)};
      return true;
    }

    /** The checks of both loops, and the removal. */
    method TryRemove(secret: string, ghost fs0: Fs, ghost done: seq<string>) returns (outcome: Outcome)
      requires IsPast(fs0, fs, done) && AreSeparate(done + [secret])
      modifies this`fs
      ensures outcome.Skipped? <==> !IsSelected(fs0, secret)
      ensures outcome.Failed? <==> IsSelected(fs0, secret) && !(stuck !! {secret, CertPath(secret)})
      ensures !outcome.Failed? ==> IsPast(fs0, fs, done + [secret])
      ensures outcome.Failed? ==> fs == Struck(old(fs), secret, stuck)
      ensures fs.Keys <= old(fs).Keys && fs - {secret, CertPath(secret)} == old(fs) - {secret, CertPath(secret)}
      ensures outcome.Skipped? ==> fs == old(fs)
    {
      hide IsPast, AreSeparate, Pairs, Doomed, IsOpenpubkey, Certifies;
      SelectedLater(fs0, fs, done, secret);
      PastMore(fs0, fs, done, secret);
      var cert := Read(fs, CertPath(secret));
      if cert == None {
        return Skipped;
      }
      if !IsOpenpubkey(cert.value) {
        return Skipped;
      }
      var key := Read(fs, secret);
      if key == None {
        return Skipped;
      }
      if !Certifies(cert.value, key.value) {
        return Skipped;
      }
      SelectedIsThere(fs, secret);
      hide IsSelected, CertPath, Read;
      var ok := RemoveKeyPair(secret);
      if !ok {
        return Failed;
      }
      return Removed;
    }

    /** A key named by the user. */
    method RemoveSpecificKey(secret: string) returns (ok: bool)
      modifies this`fs
      ensures ok <==> IsSelected(old(fs), secret) && stuck !! {secret, CertPath(secret)}
      ensures ok ==> fs == old(fs) - Pairs([secret])
      ensures fs - {secret, CertPath(secret)} == old(fs) - {secret, CertPath(secret)}
      ensures !IsSelected(old(fs), secret) ==> fs == old(fs)
    {
      hide IsSelected, CertPath, AreSeparate, Doomed, Pairs;
      NothingDone(fs);
      SingleIsSeparate(secret);
      DoomedSnoc(fs, [], secret);
      assert [] + [secret] == [secret];
      PairsSnoc([], secret);
      var outcome := TryRemove(secret, fs, []);
      return outcome.Removed?;
    }

    /** The default names, in the order given. */
    method RemoveDefaultSSHDirKeys(secrets: seq<string>) returns (count: nat, ok: bool)
      requires AreSeparate(secrets)
      modifies this`fs
      ensures ok <==> stuck !! Pairs(Doomed(old(fs), secrets))
      ensures ok ==> IsPast(old(fs), fs, secrets) && count == |Doomed(old(fs), secrets)|
      ensures !ok ==> IsBroken(old(fs), fs, Doomed(old(fs), secrets), count, stuck, false)
      ensures IsInside(old(fs), fs, Doomed(old(fs), secrets))
    {
      hide IsSelected, CertPath, AreSeparate, Doomed, Pairs, IsPast, IsInside, Struck;
      count := 0;
      NothingDone(fs);
      StaysInside(fs, fs, secrets, 0);
      assert secrets[..0] == [];
      for i := 0 to |secrets|
        invariant IsPast(old(fs), fs, secrets[..i]) && count == |Doomed(old(fs), secrets[..i])|
        invariant stuck !! Pairs(Doomed(old(fs), secrets[..i]))
      {
        assert secrets[..i + 1] == secrets[..i] + [secrets[i]];
        SeparatePrefix(secrets, i + 1);
        DoomedSnoc(old(fs), secrets[..i], secrets[i]);
        DoomedPrefix(old(fs), secrets, i + 1);
        ghost var before := fs;
        var outcome := TryRemove(secrets[i], old(fs), secrets[..i]);
        PairsSnoc(Doomed(old(fs), secrets[..i]), secrets[i]);
        if outcome.Failed? {
          FailedInside(old(fs), before, fs, secrets, i);
          BrokenAt(old(fs), before, fs, secrets, i, stuck, false);
          return count, false;
        }
        if outcome.Removed? {
          count := count + 1;
        }
      }
      assert secrets[..|secrets|] == secrets;
      StaysInside(old(fs), fs, secrets, |secrets|);
      return count, true;
    }

    /** The opkssh directory: after each pair its line leaves the config. */
    method RemoveOpkSSHDirKeys(dir: string, listing: Option<seq<Entry>>) returns (count: nat, ok: bool)
      requires listing.Some? ==> AreSeparate(Secrets(dir, listing.value))
      modifies this`fs, this`config
      ensures var doomed := if listing == None then [] else Doomed(old(fs), Secrets(dir, listing.value));
              && (ok <==> stuck !! Pairs(doomed) && (old(config).Some? && !configWritable ==> doomed == []))
              && (ok ==> fs == old(fs) - Pairs(doomed) && count == |doomed|)
              && count <= |doomed| && config == ConfigAfter(old(config), doomed[..count])
              && (!ok ==> IsBroken(old(fs), fs, doomed, count, stuck, old(config).Some? && !configWritable))
              && IsInside(old(fs), fs, doomed)
    {
      hide IsSelected, CertPath, AreSeparate, Doomed, Pairs, IsInside, Secrets, SshConfig.WithoutKeys, SecretOf,
           Flat, ConfigAfter, Struck, IsBroken;
      NothingDone(fs);
      StaysInside(fs, fs, [], 0);
      if listing == None {
        NoKeys(config);
        return 0, true;
      }
      count := 0;
      var entries := listing.value;
      ghost var all := Secrets(dir, entries);
      NoKeys(config);
      NoSecrets(dir);
      StaysInside(fs, fs, all, 0);
      assert entries[..0] == [];
      for i := 0 to |entries|
        invariant var done := Secrets(dir, entries[..i]);
                  && IsPast(old(fs), fs, done) && count == |Doomed(old(fs), done)|
                  && stuck !! Pairs(Doomed(old(fs), done))
                  && (old(config).Some? && !configWritable ==> Doomed(old(fs), done) == [])
                  && config == ConfigAfter(old(config), Doomed(old(fs), done))
      {
        ghost var done := Secrets(dir, entries[..i]);
        SecretsStep(dir, entries, i);
        SecretsPrefix(dir, entries, i + 1);
        var entry := entries[i];
        if entry.isDir {
          continue;
        }
        if entry.name == "config" || HasSuffix(entry.name, CERT_SUFFIX) {
          continue;
        }
        var secret := PathIn(dir, entry.name);
        assert all[..|done| + 1] == done + [secret] && all[..|done|] == done;
        SeparatePrefix(all, |done| + 1);
        DoomedSnoc(old(fs), done, secret);
        DoomedPrefix(old(fs), all, |done|);
        assert Doomed(old(fs), all)[..count] == Doomed(old(fs), done);
        DoomedPrefix(old(fs), all, |done| + 1);
        PairsSnoc(Doomed(old(fs), done), secret);
        ghost var before := fs;
        var outcome := TryRemove(secret, old(fs), done);
        if outcome.Failed? {
          FailedInside(old(fs), before, fs, all, |done|);
          BrokenAt(old(fs), before, fs, all, |done|, stuck, old(config).Some? && !configWritable);
          return count, false;
        }
        if outcome.Skipped? {
          continue;
        }
        ConfigStays(old(config), Doomed(old(fs), done));
        if config.Some? {
          if !configWritable {
            StaysInside(old(fs), fs, all, |done| + 1);
            BlockedAt(old(fs), fs, all, |done|, stuck);
            return count, false;
          }
          var text := SshConfig.RemoveFromConfig(config.value, secret);
          config := Some(text);
        }
        ConfigSnoc(old(config), Doomed(old(fs), done), secret);
        count := count + 1;
      }
      assert entries[..|entries|] == entries && all[..|all|] == all;
      StaysInside(old(fs), fs, all, |all|);
      assert Doomed(old(fs), all)[..count] == Doomed(old(fs), all);
      return count, true;
    }

    /**
     A whole logout, of one key that the user names or of all that can be found. The latter ends
     without a file error exactly if every doomed file can be removed, and then precisely the doomed
     pairs are gone, whichever way the default names were walked.
     */
    method Run(keyPath: string, sshDir: string, ecdsaFirst: bool, listing: Option<seq<Entry>>)
      returns (count: nat, ok: bool)
      requires listing.Some? ==> AreEntries(listing.value)
      modifies this`fs, this`config
      ensures keyPath != "" ==>
                && (ok <==> IsSelected(old(fs), keyPath) && stuck !! {keyPath, CertPath(keyPath)})
                && (ok ==> fs == old(fs) - Pairs([keyPath]) && count == 1)
                && (fs - {keyPath, CertPath(keyPath)} == old(fs) - {keyPath, CertPath(keyPath)})
                && config == old(config)
      ensures keyPath == "" ==>
              var doomed := Doomed(old(fs), AllSecrets(sshDir, listing));
              && (ok <==> stuck !! Pairs(doomed) &&
                          (old(config).Some? && !configWritable ==>
                              Doomed(old(fs), OpksshSecrets(sshDir, listing)) == []))
              && (ok ==> fs == old(fs) - Pairs(doomed) && count == |doomed|)
              && (ok ==> config == ConfigAfter(old(config), Doomed(old(fs), OpksshSecrets(sshDir, listing))))
              && IsInside(old(fs), fs, doomed)
      ensures keyPath == "" ==>
              var first := Doomed(old(fs), DefaultSecrets(sshDir, ecdsaFirst));
              var second := Doomed(old(fs), OpksshSecrets(sshDir, listing));
              var blocked := count >= |first| && old(config).Some? && !configWritable;
              && (forall secret <- AllSecrets(sshDir, listing) :: !IsOwnPair(old(fs), secret) ==>
                    && (secret in fs <==> secret in old(fs)) && (secret in fs ==> fs[secret] == old(fs)[secret])
                    && var cert := secret + "-cert.pub";
                       (cert in fs <==> cert in old(fs)) && (cert in fs ==> fs[cert] == old(fs)[cert]))
              && count <= |first + second|
              && config == ConfigAfter(old(config), second[..Beyond(count, |first|)])
              && (!ok ==> IsBroken(old(fs), fs, first + second, count, stuck, blocked))
    {
      hide IsOwnPair, IsSelected, CertPath, AreSeparate, Doomed, Pairs, IsInside, Secrets, SshConfig.WithoutKeys,
           AllSecrets, DefaultSecrets, Struck, IsBroken, ConfigAfter;
      if keyPath != "" {
        ok := RemoveSpecificKey(keyPath);
        return if ok then 1 else 0, ok;
      }
      var defaults := DefaultSecrets(sshDir, ecdsaFirst);
      ghost var opk := OpksshSecrets(sshDir, listing);
      SecretsAreSeparate(sshDir, ecdsaFirst, listing);
      RunDoomed(fs, sshDir, ecdsaFirst, listing);
      ghost var fs0 := fs;
      NoKeys(config);
      assert Doomed(fs0, opk)[..0] == [];
      var n, done := RemoveDefaultSSHDirKeys(defaults);
      if !done {
        InsideMore(fs0, fs, Doomed(fs0, defaults), Doomed(fs0, AllSecrets(sshDir, listing)));
        BrokenFirst(fs0, fs, Doomed(fs0, defaults), Doomed(fs0, opk), n, stuck);
        ForeignSurvives(fs0, fs, sshDir, listing);
        return n, false;
      }
      ghost var fs1 := fs;
      DoomedElsewhere(sshDir, ecdsaFirst, listing, fs0);
      NothingDone(fs0);
      NothingDone(fs1);
      var m, alsoDone := RemoveOpkSSHDirKeys(PathIn(sshDir, "opkssh"), listing);
      count, ok := n + m, alsoDone;
      assert m == |Doomed(fs0, opk)| ==> Doomed(fs0, opk)[..m] == Doomed(fs0, opk);
      TwoParts(fs0, fs1, fs, Doomed(fs0, defaults), Doomed(fs0, opk), Doomed(fs0, AllSecrets(sshDir, listing)));
      ForeignSurvives(fs0, fs, sshDir, listing);
      if !ok {
        BrokenSecond(fs0, fs1, fs, Doomed(fs0, defaults), Doomed(fs0, opk), m, stuck,
                     old(config).Some? && !configWritable);
      }
    }
  }

  function ConfigAfter(config: Option<string>, doomed: seq<string>): Option<string>
  {
    match config case None => None case Some(text) => Some(SshConfig.WithoutKeys(text, doomed))
  }

  /** How many of the keys counted come after the first `n`. */
  function Beyond(count: nat, n: nat): nat { if count <= n then 0 else count - n }

  // ---------------------------------------------------------------- where a run breaks off

  /** A pair of which a file cannot be removed: if it is the certificate, the key is gone. */
  function Struck(fs: Fs, secret: string, stuck: set<string>): Fs
  {
    if secret in stuck then fs else fs - {secret}
  }

  /**
   The first `n` keys are removed with their certificates and the next one is in hand: either a file
   of its pair is stuck, or the pair is gone and the config could not be written.
   */
  ghost predicate IsBroken(fs0: Fs, fs: Fs, doomed: seq<string>, n: nat, stuck: set<string>, blocked: bool)
  {
    && n < |doomed| && stuck !! Pairs(doomed[..n])
    && if stuck !! {doomed[n], CertPath(doomed[n])} then blocked && fs == fs0 - Pairs(doomed[..n + 1])
       else fs == Struck(fs0 - Pairs(doomed[..n]), doomed[n], stuck)
  }

  /**
   What a run that broke off leaves: the pairs before are gone, those behind untouched, and what of
   the one in hand.
   */
  lemma WhatIsLeft(fs0: Fs, fs: Fs, doomed: seq<string>, n: nat, stuck: set<string>, blocked: bool, i: nat)
    requires IsBroken(fs0, fs, doomed, n, stuck, blocked) && i < |doomed| && AreSeparate(doomed)
    requires forall secret <- doomed :: secret in fs0 && secret + "-cert.pub" in fs0
    ensures var secret, cert := doomed[i], doomed[i] + "-cert.pub";
            && (i < n ==> secret !in fs && cert !in fs)
            && (i > n ==> secret in fs && fs[secret] == fs0[secret] && cert in fs && fs[cert] == fs0[cert])
            && (i == n ==>
                  && (secret in fs <==> secret in stuck)
                  && (cert in fs <==> secret in stuck || cert in stuck)
                  && (secret in stuck || cert in stuck || blocked))
  {
    var secret := doomed[i];
    assert CertPath(secret) == secret + "-cert.pub" && secret != CertPath(secret);
    assert secret in doomed;
    forall j | 0 <= j < |doomed| && j != i
      ensures doomed[j] != secret && CertPath(doomed[j]) != secret && doomed[j] != CertPath(secret)
      ensures CertPath(doomed[j]) != CertPath(secret)
    {
      CertPathInjective(doomed[j], secret);
    }
    hide CertPath;
    if i < n {
      assert doomed[..n][i] == secret && doomed[..n + 1][i] == secret;
      assert secret in doomed[..n] && secret in doomed[..n + 1];
    } else {
      assert secret !in Pairs(doomed[..n]) && CertPath(secret) !in Pairs(doomed[..n]);
      if i > n {
        assert secret !in Pairs(doomed[..n + 1]) && CertPath(secret) !in Pairs(doomed[..n + 1]);
        assert doomed[n] != secret && doomed[n] != CertPath(secret);
      } else {
        assert doomed[..n + 1][n] == secret && secret in doomed[..n + 1];
      }
    }
  }

  lemma BrokenAt(fs0: Fs, before: Fs, fs: Fs, secrets: seq<string>, i: nat, stuck: set<string>, blocked: bool)
    requires i < |secrets| && IsPast(fs0, before, secrets[..i]) && IsSelected(fs0, secrets[i])
    requires stuck !! Pairs(Doomed(fs0, secrets[..i])) && !(stuck !! {secrets[i], CertPath(secrets[i])})
    requires fs == Struck(before, secrets[i], stuck)
    ensures IsBroken(fs0, fs, Doomed(fs0, secrets), |Doomed(fs0, secrets[..i])|, stuck, blocked)
  {
    hide IsSelected, CertPath, Pairs, Struck, Doomed;
    NextDoomed(fs0, secrets, i);
  }

  lemma BlockedAt(fs0: Fs, fs: Fs, secrets: seq<string>, i: nat, stuck: set<string>)
    requires i < |secrets| && IsPast(fs0, fs, secrets[..i + 1]) && IsSelected(fs0, secrets[i])
    requires stuck !! Pairs(Doomed(fs0, secrets[..i])) && stuck !! {secrets[i], CertPath(secrets[i])}
    ensures IsBroken(fs0, fs, Doomed(fs0, secrets), |Doomed(fs0, secrets[..i])|, stuck, true)
  {
    hide IsSelected, CertPath, Pairs, Struck, Doomed;
    NextDoomed(fs0, secrets, i);
  }

  /** The next key to delete. */
  lemma NextDoomed(fs0: Fs, secrets: seq<string>, i: nat)
    requires i < |secrets| && IsSelected(fs0, secrets[i])
    ensures var before, all := Doomed(fs0, secrets[..i]), Doomed(fs0, secrets);
            && |before| < |all| && all[..|before|] == before && all[|before|] == secrets[i]
            && all[..|before| + 1] == Doomed(fs0, secrets[..i + 1])
  {
    hide IsSelected, CertPath, Pairs;
    assert secrets[..i + 1] == secrets[..i] + [secrets[i]];
    DoomedSnoc(fs0, secrets[..i], secrets[i]);
    DoomedPrefix(fs0, secrets, i);
    DoomedPrefix(fs0, secrets, i + 1);
  }

  lemma BrokenFirst(fs0: Fs, fs: Fs, first: seq<string>, second: seq<string>, n: nat, stuck: set<string>)
    requires IsBroken(fs0, fs, first, n, stuck, false)
    ensures n < |first| && IsBroken(fs0, fs, first + second, n, stuck, false)
  {
    hide CertPath, Pairs, Struck;
    assert (first + second)[..n] == first[..n];
  }

  lemma BrokenSecond(fs0: Fs, fs1: Fs, fs: Fs, first: seq<string>, second: seq<string>, n: nat, stuck: set<string>,
                     blocked: bool)
    requires fs1 == fs0 - Pairs(first) && stuck !! Pairs(first) && IsBroken(fs1, fs, second, n, stuck, blocked)
    ensures IsBroken(fs0, fs, first + second, |first| + n, stuck, blocked)
  {
    var all := first + second;
    assert all[..|first| + n] == first + second[..n] && all[..|first| + n + 1] == first + second[..n + 1];
    PairsAppend(first, second[..n]);
    PairsAppend(first, second[..n + 1]);
    hide CertPath, Pairs, Struck;
    assert fs0 - Pairs(first) - Pairs(second[..n]) == fs0 - Pairs(all[..|first| + n]);
    assert fs0 - Pairs(first) - Pairs(second[..n + 1]) == fs0 - Pairs(all[..|first| + n + 1]);
  }

  /** What a directory listing is: distinct names without a slash. */
  predicate AreEntries(entries: seq<Entry>)
  {
    && (forall i :: 0 <= i < |entries| ==> '/' !in entries[i].name)
    && (forall i, j :: 0 <= i < j < |entries| ==> entries[i].name != entries[j].name)
  }

  function InDir(dir: string): string -> seq<string> { (name: string) => [PathIn(dir, name)] }

  /** allDefaultSSHKeyFileNames walks a map of two key types, in either order. */
  function DefaultSecrets(sshDir: string, ecdsaFirst: bool): seq<string>
  {
    Flat(InDir(sshDir), if ecdsaFirst then ECDSA_NAMES + ED25519_NAMES else ED25519_NAMES + ECDSA_NAMES)
  }

  function OpksshSecrets(sshDir: string, listing: Option<seq<Entry>>): seq<string>
  {
    if listing == None then [] else Secrets(PathIn(sshDir, "opkssh"), listing.value)
  }

  /** Everything a logout looks at. */
  function AllSecrets(sshDir: string, listing: Option<seq<Entry>>): seq<string>
  {
    DefaultSecrets(sshDir, true) + OpksshSecrets(sshDir, listing)
  }

  lemma ConfigStays(config: Option<string>, doomed: seq<string>)
    ensures ConfigAfter(config, doomed) == None <==> config == None
  {
  }

  lemma NoKeys(config: Option<string>)
    ensures ConfigAfter(config, []) == config
  {
  }

  lemma NoSecrets(dir: string)
    ensures Secrets(dir, []) == []
  {
  }

  lemma ConfigSnoc(config: Option<string>, doomed: seq<string>, secret: string)
    ensures ConfigAfter(config, doomed + [secret]) ==
            match ConfigAfter(config, doomed)
            case None => None
            case Some(text) => Some(SshConfig.WithoutKey(text, secret))
  {
    assert (doomed + [secret])[..|doomed|] == doomed;
  }

  lemma SecretsStep(dir: string, entries: seq<Entry>, i: nat)
    requires i < |entries|
    ensures Secrets(dir, entries[..i + 1]) ==
            var entry := entries[i];
            var done := Secrets(dir, entries[..i]);
            if entry.isDir || entry.name == "config" || HasSuffix(entry.name, CERT_SUFFIX) then done
            else done + [PathIn(dir, entry.name)]
  {
    FlatStep(SecretOf(dir), entries, i);
  }

  lemma SecretsPrefix(dir: string, entries: seq<Entry>, n: nat)
    requires n <= |entries|
    ensures Secrets(dir, entries[..n]) <= Secrets(dir, entries)
  {
    assert entries == entries[..n] + entries[n..];
    FlatAppend(SecretOf(dir), entries[..n], entries[n..]);
  }

  /** Only files of these pairs may be missing; all others are as they were. */
  predicate IsInside(fs0: Fs, fs: Fs, doomed: seq<string>)
  {
    fs.Keys <= fs0.Keys && fs - Pairs(doomed) == fs0 - Pairs(doomed)
  }

  lemma SingleIsSeparate(secret: string)
    ensures AreSeparate([secret])
  {
    assert secret != CertPath(secret);
  }

  lemma NothingDone(fs: Fs)
    ensures IsPast(fs, fs, []) && Doomed(fs, []) == [] && Pairs([]) == {}
  {
  }

  lemma SeparatePrefix(secrets: seq<string>, n: nat)
    requires AreSeparate(secrets) && n <= |secrets|
    ensures AreSeparate(secrets[..n])
  {
    hide CertPath;
  }

  lemma {:induction false} DoomedPrefix(fs0: Fs, secrets: seq<string>, n: nat)
    requires n <= |secrets|
    ensures Doomed(fs0, secrets[..n]) <= Doomed(fs0, secrets)
    ensures Pairs(Doomed(fs0, secrets[..n])) <= Pairs(Doomed(fs0, secrets))
  {
    hide IsSelected, CertPath;
    assert secrets == secrets[..n] + secrets[n..];
    FlatAppend(IfSelected(fs0), secrets[..n], secrets[n..]);
  }

  lemma StaysInside(fs0: Fs, fs: Fs, secrets: seq<string>, n: nat)
    requires n <= |secrets| && IsPast(fs0, fs, secrets[..n])
    ensures IsInside(fs0, fs, Doomed(fs0, secrets))
  {
    DoomedPrefix(fs0, secrets, n);
    hide Doomed, Pairs;
  }

  lemma FailedInside(fs0: Fs, before: Fs, fs: Fs, secrets: seq<string>, i: nat)
    requires i < |secrets| && IsPast(fs0, before, secrets[..i]) && IsSelected(fs0, secrets[i])
    requires fs.Keys <= before.Keys
    requires fs - {secrets[i], CertPath(secrets[i])} == before - {secrets[i], CertPath(secrets[i])}
    ensures IsInside(fs0, fs, Doomed(fs0, secrets))
  {
    StaysInside(fs0, before, secrets, i);
    DoomedAreListed(fs0, secrets, secrets[i]);
    hide IsSelected;
    var pairs := Pairs(Doomed(fs0, secrets));
    assert {secrets[i], CertPath(secrets[i])} <= pairs;
    hide CertPath, Pairs;
    var pair := {secrets[i], CertPath(secrets[i])};
    assert fs - pairs == (fs - pair) - pairs;
    assert before - pairs == (before - pair) - pairs;
  }

  // ---------------------------------------------------------------- a whole run

  predicate IsDistinct(xs: seq<string>) { forall i, j :: 0 <= i < j < |xs| ==> xs[i] != xs[j] }

  lemma {:induction false} SameSetSameLength(a: seq<string>, b: seq<string>)
    requires IsDistinct(a) && IsDistinct(b) && forall x :: x in a <==> x in b
    ensures |a| == |b|
  {
    var s := set x | x in a;
    assert s == set x | x in b;
    DistinctSize(a);
    DistinctSize(b);
  }

  lemma {:induction false} DistinctSize(a: seq<string>)
    requires IsDistinct(a)
    ensures |set x | x in a| == |a|
  {
    if a != [] {
      var n := |a| - 1;
      DistinctSize(a[..n]);
      assert (set x | x in a) == (set x | x in a[..n]) + {a[n]};
    }
  }

  lemma {:induction false} DoomedIsDistinct(fs: Fs, secrets: seq<string>)
    requires IsDistinct(secrets)
    ensures IsDistinct(Doomed(fs, secrets))
  {
    hide IsSelected;
    if secrets != [] {
      var n := |secrets| - 1;
      DoomedIsDistinct(fs, secrets[..n]);
      forall i | 0 <= i < |Doomed(fs, secrets[..n])| ensures Doomed(fs, secrets[..n])[i] != secrets[n] {
        DoomedAreListed(fs, secrets[..n], Doomed(fs, secrets[..n])[i]);
      }
    }
  }

  lemma PairsOfSameSet(a: seq<string>, b: seq<string>)
    requires forall x :: x in a <==> x in b
    ensures Pairs(a) == Pairs(b)
  {
  }

  /** The order of the listed keys does not matter: same files gone, same count. */
  lemma OrderDoesNotMatter(fs: Fs, a: seq<string>, b: seq<string>)
    requires IsDistinct(a) && IsDistinct(b) && forall x :: x in a <==> x in b
    ensures Pairs(Doomed(fs, a)) == Pairs(Doomed(fs, b)) && |Doomed(fs, a)| == |Doomed(fs, b)|
  {
    hide IsSelected, CertPath, Doomed;
    forall x ensures x in Doomed(fs, a) <==> x in Doomed(fs, b) {
      DoomedAreListed(fs, a, x);
      DoomedAreListed(fs, b, x);
    }
    PairsOfSameSet(Doomed(fs, a), Doomed(fs, b));
    DoomedIsDistinct(fs, a);
    DoomedIsDistinct(fs, b);
    SameSetSameLength(Doomed(fs, a), Doomed(fs, b));
  }

  /** The path of a key file in some directory. */
  ghost predicate IsKeyFile(path: string, dir: string)
  {
    exists name :: IsFileName(name) && path == PathIn(dir, name)
  }

  lemma DefaultNames(ecdsaFirst: bool)
    ensures AreNames(if ecdsaFirst then ECDSA_NAMES + ED25519_NAMES else ED25519_NAMES + ECDSA_NAMES)
  {
  }

  lemma {:induction false} NamesInDir(dir: string, names: seq<string>)
    requires AreNames(names)
    ensures var paths := Flat(InDir(dir), names);
            |paths| == |names| && forall i :: 0 <= i < |names| ==> paths[i] == PathIn(dir, names[i])
  {
    hide PathIn, IsFileName;
    if names != [] {
      NamesInDir(dir, names[..|names| - 1]);
    }
  }

  lemma DefaultsAreDistinct(sshDir: string, ecdsaFirst: bool)
    ensures var defaults := DefaultSecrets(sshDir, ecdsaFirst);
            IsDistinct(defaults) && forall path <- defaults :: IsKeyFile(path, sshDir)
  {
    hide PathIn, IsFileName, Flat, ECDSA_NAMES, ED25519_NAMES;
    var names := if ecdsaFirst then ECDSA_NAMES + ED25519_NAMES else ED25519_NAMES + ECDSA_NAMES;
    DefaultNames(ecdsaFirst);
    NamesInDir(sshDir, names);
    forall i, j | 0 <= i < j < |names| ensures PathIn(sshDir, names[i]) != PathIn(sshDir, names[j]) {
      PathInInjective(sshDir, names[i], names[j]);
    }
  }

  /** Both ways of walking the map of key types meet the same files. */
  lemma SameDefaults(sshDir: string, ecdsaFirst: bool)
    ensures forall path :: path in DefaultSecrets(sshDir, ecdsaFirst) <==> path in DefaultSecrets(sshDir, true)
  {
    hide PathIn, Flat, ECDSA_NAMES, ED25519_NAMES;
    FlatAppend(InDir(sshDir), ECDSA_NAMES, ED25519_NAMES);
    FlatAppend(InDir(sshDir), ED25519_NAMES, ECDSA_NAMES);
  }

  lemma {:induction false} SecretsAreKeyFiles(dir: string, entries: seq<Entry>)
    requires AreEntries(entries)
    ensures var secrets := Secrets(dir, entries);
            && IsDistinct(secrets)
            && forall path <- secrets ::
                 exists i :: 0 <= i < |entries| && IsFileName(entries[i].name) && path == PathIn(dir, entries[i].name)
  {
    hide PathIn;
    if entries != [] {
      var n := |entries| - 1;
      var before := entries[..n];
      SecretsAreKeyFiles(dir, before);
      assert entries[..n + 1] == entries;
      SecretsStep(dir, entries, n);
      var listed := Secrets(dir, before);
      hide Secrets;
      forall k | 0 <= k < |listed| ensures listed[k] != PathIn(dir, entries[n].name) {
        assert listed[k] in listed;
        var i :| 0 <= i < |before| && IsFileName(before[i].name) && listed[k] == PathIn(dir, before[i].name);
        PathInInjective(dir, entries[i].name, entries[n].name);
      }
      forall path <- Secrets(dir, entries)
        ensures exists i :: 0 <= i < |entries| && IsFileName(entries[i].name) && path == PathIn(dir, entries[i].name)
      {
        if path in listed {
          var i :| 0 <= i < |before| && IsFileName(before[i].name) && path == PathIn(dir, before[i].name);
          assert entries[i] == before[i];
        } else {
          assert path == PathIn(dir, entries[n].name) && IsFileName(entries[n].name);
        }
      }
    }
  }

  lemma OpksshAreKeyFiles(sshDir: string, listing: Option<seq<Entry>>)
    requires listing.Some? ==> AreEntries(listing.value)
    ensures var opk := OpksshSecrets(sshDir, listing);
            IsDistinct(opk) && forall path <- opk :: IsKeyFile(path, PathIn(sshDir, "opkssh"))
  {
    hide PathIn, IsFileName, Secrets;
    if listing.Some? {
      SecretsAreKeyFiles(PathIn(sshDir, "opkssh"), listing.value);
    }
  }

  /** A key in the ssh directory is not one in the opkssh directory below it. */
  lemma DirectoriesDiffer(sshDir: string, a: string, b: string)
    requires IsKeyFile(a, sshDir) && IsKeyFile(b, PathIn(sshDir, "opkssh"))
    ensures a != b
  {
    var n :| IsFileName(n) && a == PathIn(sshDir, n);
    var m :| IsFileName(m) && b == PathIn(PathIn(sshDir, "opkssh"), m);
    var below := "opkssh/" + m;
    assert b == PathIn(sshDir, below);
    assert below[6] == '/' && '/' in below;
    PathInInjective(sshDir, n, below);
  }

  lemma KeyFilesAreSeparate(a: seq<string>, dir: string)
    requires IsDistinct(a) && forall path <- a :: IsKeyFile(path, dir)
    ensures AreSeparate(a)
  {
    forall i, j | 0 <= i < |a| && 0 <= j < |a| ensures a[i] != CertPath(a[j]) {
      assert IsKeyFile(a[i], dir);
      var name :| IsFileName(name) && a[i] == PathIn(dir, name);
      NotACertPath(dir, name, a[j]);
    }
  }

  lemma SecretsAreSeparate(sshDir: string, ecdsaFirst: bool, listing: Option<seq<Entry>>)
    requires listing.Some? ==> AreEntries(listing.value)
    ensures AreSeparate(DefaultSecrets(sshDir, ecdsaFirst)) && AreSeparate(OpksshSecrets(sshDir, listing))
  {
    DefaultsAreDistinct(sshDir, ecdsaFirst);
    KeyFilesAreSeparate(DefaultSecrets(sshDir, ecdsaFirst), sshDir);
    OpksshAreKeyFiles(sshDir, listing);
    KeyFilesAreSeparate(OpksshSecrets(sshDir, listing), PathIn(sshDir, "opkssh"));
  }

  lemma PairsAppend(a: seq<string>, b: seq<string>)
    ensures Pairs(a + b) == Pairs(a) + Pairs(b)
  {
  }

  lemma RunDoomed(fs: Fs, sshDir: string, ecdsaFirst: bool, listing: Option<seq<Entry>>)
    ensures var doomed := Doomed(fs, AllSecrets(sshDir, listing));
            var first, second := Doomed(fs, DefaultSecrets(sshDir, ecdsaFirst)),
                Doomed(fs, OpksshSecrets(sshDir, listing));
            Pairs(doomed) == Pairs(first) + Pairs(second) && |doomed| == |first| + |second|
  {
    hide IsSelected, CertPath, PathIn, Flat, OpksshSecrets, DefaultSecrets, Pairs;
    var a, b := DefaultSecrets(sshDir, ecdsaFirst), DefaultSecrets(sshDir, true);
    DefaultsAreDistinct(sshDir, ecdsaFirst);
    DefaultsAreDistinct(sshDir, true);
    SameDefaults(sshDir, ecdsaFirst);
    OrderDoesNotMatter(fs, a, b);
    FlatAppend(IfSelected(fs), b, OpksshSecrets(sshDir, listing));
    PairsAppend(Doomed(fs, b), Doomed(fs, OpksshSecrets(sshDir, listing)));
  }

  lemma InsideMore(fs0: Fs, fs: Fs, small: seq<string>, big: seq<string>)
    requires IsInside(fs0, fs, small) && Pairs(small) <= Pairs(big)
    ensures IsInside(fs0, fs, big)
  {
    hide Pairs;
    assert fs - Pairs(big) == (fs - Pairs(small)) - Pairs(big);
    assert fs0 - Pairs(big) == (fs0 - Pairs(small)) - Pairs(big);
  }

  lemma TwoParts(fs0: Fs, fs1: Fs, fs: Fs, first: seq<string>, second: seq<string>, all: seq<string>)
    requires fs1 == fs0 - Pairs(first) && IsInside(fs1, fs, second) && Pairs(all) == Pairs(first) + Pairs(second)
    ensures IsInside(fs0, fs, all)
    ensures fs1 - Pairs(second) == fs0 - Pairs(all)
  {
    hide Pairs;
    assert fs - Pairs(all) == (fs - Pairs(second)) - Pairs(all);
    assert fs0 - Pairs(all) == ((fs0 - Pairs(first)) - Pairs(second)) - Pairs(all);
  }

  /** Removing the default keys does not change which opkssh keys are doomed. */
  lemma DoomedElsewhere(sshDir: string, ecdsaFirst: bool, listing: Option<seq<Entry>>, fs0: Fs)
    requires listing.Some? ==> AreEntries(listing.value)
    ensures var fs1 := fs0 - Pairs(Doomed(fs0, DefaultSecrets(sshDir, ecdsaFirst)));
            Doomed(fs1, OpksshSecrets(sshDir, listing)) == Doomed(fs0, OpksshSecrets(sshDir, listing))
  {
    hide IsSelected, Doomed, Pairs, DefaultSecrets, OpksshSecrets, CertPath;
    var defaults, opk := DefaultSecrets(sshDir, ecdsaFirst), OpksshSecrets(sshDir, listing);
    var first := Doomed(fs0, defaults);
    var fs1 := fs0 - Pairs(first);
    DefaultsAreDistinct(sshDir, ecdsaFirst);
    OpksshAreKeyFiles(sshDir, listing);
    forall secret <- opk ensures IsSelected(fs1, secret) == IsSelected(fs0, secret) {
      forall other <- first ensures other != secret && secret != CertPath(other) && other != CertPath(secret) {
        DoomedAreListed(fs0, defaults, other);
        Apart(sshDir, other, secret);
      }
      OtherPairs(fs0, first, secret);
    }
    SameSelection(fs0, fs1, opk);
  }

  lemma Apart(sshDir: string, a: string, b: string)
    requires IsKeyFile(a, sshDir) && IsKeyFile(b, PathIn(sshDir, "opkssh"))
    ensures a != b && b != CertPath(a) && a != CertPath(b)
  {
    DirectoriesDiffer(sshDir, a, b);
    var n :| IsFileName(n) && a == PathIn(sshDir, n);
    var m :| IsFileName(m) && b == PathIn(PathIn(sshDir, "opkssh"), m);
    NotACertPath(sshDir, n, b);
    NotACertPath(PathIn(sshDir, "opkssh"), m, a);
  }

  lemma {:induction false} SameSelection(fs0: Fs, fs1: Fs, secrets: seq<string>)
    requires forall secret <- secrets :: IsSelected(fs1, secret) == IsSelected(fs0, secret)
    ensures Doomed(fs1, secrets) == Doomed(fs0, secrets)
  {
    hide IsSelected;
    if secrets != [] {
      var n := |secrets| - 1;
      assert secrets[n] in secrets;
      SameSelection(fs0, fs1, secrets[..n]);
    }
  }

  lemma AllAreSeparate(sshDir: string, listing: Option<seq<Entry>>)
    requires listing.Some? ==> AreEntries(listing.value)
    ensures AreSeparate(AllSecrets(sshDir, listing)) &&
            IsDistinct(AllSecrets(sshDir, listing))
  {
    hide DefaultSecrets, OpksshSecrets, IsKeyFile, PathIn, CertPath, AreEntries;
    var a, b := DefaultSecrets(sshDir, true), OpksshSecrets(sshDir, listing);
    SecretsAreSeparate(sshDir, true, listing);
    DefaultsAreDistinct(sshDir, true);
    OpksshAreKeyFiles(sshDir, listing);
    forall i, j | 0 <= i < |a| && 0 <= j < |b|
      ensures a[i] != b[j] && b[j] != CertPath(a[i]) && a[i] != CertPath(b[j])
    {
      Apart(sshDir, a[i], b[j]);
    }
  }

  /** Whatever is not a pair of opkssh's keeps its key and its certificate. */
  lemma ForeignSurvives(fs0: Fs, fs: Fs, sshDir: string, listing: Option<seq<Entry>>)
    requires listing.Some? ==> AreEntries(listing.value)
    requires IsInside(fs0, fs, Doomed(fs0, AllSecrets(sshDir, listing)))
    ensures forall secret <- AllSecrets(sshDir, listing) :: !IsOwnPair(fs0, secret) ==>
              && (secret in fs <==> secret in fs0) && (secret in fs ==> fs[secret] == fs0[secret])
              && var cert := secret + "-cert.pub";
                 (cert in fs <==> cert in fs0) && (cert in fs ==> fs[cert] == fs0[cert])
  {
    hide AllSecrets, Doomed, AreEntries, IsSelected, IsOwnPair, IsInside;
    var all := AllSecrets(sshDir, listing);
    AllAreSeparate(sshDir, listing);
    forall secret <- all | !IsOwnPair(fs0, secret)
      ensures (secret in fs <==> secret in fs0) && (secret in fs ==> fs[secret] == fs0[secret])
      ensures var cert := secret + "-cert.pub";
              (cert in fs <==> cert in fs0) && (cert in fs ==> fs[cert] == fs0[cert])
    {
      NotDoomed(fs0, all, secret);
      InsideAt(fs0, fs, Doomed(fs0, all), secret);
      InsideAt(fs0, fs, Doomed(fs0, all), CertPath(secret));
    }
  }

  lemma NotDoomed(fs0: Fs, all: seq<string>, secret: string)
    requires AreSeparate(all) && secret in all && !IsOwnPair(fs0, secret)
    ensures secret !in Pairs(Doomed(fs0, all)) && CertPath(secret) !in Pairs(Doomed(fs0, all))
  {
    WhatIsSelected(fs0, secret);
    hide IsSelected, IsOwnPair, Doomed;
    DoomedAreListed(fs0, all, secret);
    forall other <- Doomed(fs0, all)
      ensures other != secret && CertPath(other) != secret && other != CertPath(secret) &&
              CertPath(other) != CertPath(secret)
    {
      DoomedAreListed(fs0, all, other);
      var i, j :| 0 <= i < |all| && 0 <= j < |all| && all[i] == other && all[j] == secret;
      CertPathInjective(other, secret);
    }
  }

  lemma InsideAt(fs0: Fs, fs: Fs, doomed: seq<string>, path: string)
    requires IsInside(fs0, fs, doomed) && path !in Pairs(doomed)
    ensures (path in fs <==> path in fs0) && (path in fs ==> fs[path] == fs0[path])
  {
    hide Pairs;
    var a, b := fs - Pairs(doomed), fs0 - Pairs(doomed);
    assert path in fs <==> path in a;
    assert path in fs0 <==> path in b;
    assert path in a ==> a[path] == fs[path];
    assert path in b ==> b[path] == fs0[path];
  }
}
