/**
 Login and logout together. Logout recognises whatever login wrote; it removes it exactly if it comes
 by the file, which it does not if the key's own name ends like that of a certificate.
 */
module Lifecycle {
  import opened Text
  import opened KeyStore
  import SshConfig
  import Agent
  import Login
  import Logout

  // ---------------------------------------------------------------- what login writes, logout recognises

  /** Every comment that login writes is one that logout recognises. */
  lemma CommentIsOpenpubkey(destination: Login.Destination, token: Login.Token)
    ensures HasPrefix(Login.CommentOf(destination, token), "openpubkey")
  {
    var lead := "openpubkey:";
    var s := "openpubkey: " + OrUnknown(token.issuer) + " " + OrUnknown(token.audience);
    assert s[..11] == lead;
    assert !IsSpace(s[0]) && !IsSpace(s[10]);
    hide IsSpace;
    assert Lead(s) == 0 && End(s) >= 11;
    assert TrimSpace(s)[..10] == s[..10] == "openpubkey";
  }

  /** A slot whose files, if there, can be read back. */
  predicate IsReadable(fs: Fs, secret: string)
  {
    && (secret in fs ==> fs[secret].readable)
    && (CertPath(secret) in fs ==> fs[CertPath(secret)].readable)
  }

  /** A pair that login wrote into such a slot is selected by logout. */
  lemma LogoutRecognisesLogin(fs: Fs, secret: string, mint: Login.Mint, destination: Login.Destination,
                              token: Login.Token)
    requires IsReadable(fs, secret)
    ensures Logout.IsSelected(Login.Written(fs, secret, mint, Login.CommentOf(destination, token)), secret)
  {
    CommentIsOpenpubkey(destination, token);
    hide Login.CommentOf;
    assert secret != CertPath(secret);
    var after := Login.Written(fs, secret, mint, Login.CommentOf(destination, token));
    assert Read(after, secret) == Some(SecretKey(mint.key));
  }

  // ---------------------------------------------------------------- which slots logout looks at

  /** The default names are looked at whatever the listing. */
  lemma DefaultIsListed(sshDir: string, name: string, listing: Option<seq<Logout.Entry>>)
    requires name in ["id_ecdsa", "id_ecdsa_sk", "id_ed25519", "id_ed25519_sk"]
    ensures PathIn(sshDir, name) in Logout.AllSecrets(sshDir, listing)
  {
    assert name in ECDSA_NAMES + ED25519_NAMES;
    hide PathIn, Flat, ECDSA_NAMES, ED25519_NAMES, Logout.OpksshSecrets;
    FlatHas(Logout.InDir(sshDir), ECDSA_NAMES + ED25519_NAMES, name, PathIn(sshDir, name));
  }

  /**
   A file of the opkssh directory is looked at exactly if it is listed and neither the config nor
   like a certificate.
   */
  lemma ListedInOpkssh(sshDir: string, name: string, listing: seq<Logout.Entry>)
    requires Logout.AreEntries(listing) && '/' !in name
    ensures PathIn(PathIn(sshDir, "opkssh"), name) in Logout.AllSecrets(sshDir, Some(listing)) <==>
            Logout.Entry(name, false) in listing && name != "config" && !HasSuffix(name, CERT_SUFFIX)
  {
    var dir := PathIn(sshDir, "opkssh");
    var path := PathIn(dir, name);
    NotADefault(sshDir, name);
    hide PathIn, HasSuffix, Logout.DefaultSecrets, Flat;
    if path in Logout.Secrets(dir, listing) {
      FlatMember(Logout.SecretOf(dir), listing, path);
      var entry :| entry in listing && path in Logout.SecretOf(dir)(entry);
      PathInInjective(dir, entry.name, name);
      assert entry == Logout.Entry(name, false);
    }
    if Logout.Entry(name, false) in listing && name != "config" && !HasSuffix(name, CERT_SUFFIX) {
      FlatHas(Logout.SecretOf(dir), listing, Logout.Entry(name, false), path);
    }
  }

  lemma NotADefault(sshDir: string, name: string)
    ensures PathIn(PathIn(sshDir, "opkssh"), name) !in Logout.DefaultSecrets(sshDir, true)
  {
    var below := "opkssh/" + name;
    assert PathIn(PathIn(sshDir, "opkssh"), name) == PathIn(sshDir, below) && '/' in below by {
      assert below[6] == '/';
    }
    Logout.DefaultsAreDistinct(sshDir, true);
    hide Logout.DefaultSecrets;
    if PathIn(sshDir, below) in Logout.DefaultSecrets(sshDir, true) {
      assert Logout.IsKeyFile(PathIn(sshDir, below), sshDir);
      var n :| IsFileName(n) && PathIn(sshDir, below) == PathIn(sshDir, n);
      PathInInjective(sshDir, n, below);
    }
  }

  /**
   So the key of a token, once its file is there, is looked at exactly if its name does not end like
   a certificate.
   */
  lemma OpksshIsListed(sshDir: string, token: Login.Token, listing: seq<Logout.Entry>)
    requires Logout.AreEntries(listing)
    ensures var name := KeyName(token.issuer, token.audience);
            Login.OpksshPath(sshDir, token) in Logout.AllSecrets(sshDir, Some(listing)) <==>
            Logout.Entry(name, false) in listing && !HasSuffix(name, CERT_SUFFIX)
  {
    hide KeyName, Logout.AllSecrets;
    KeyNameIsSafe(sshDir, token.issuer, token.audience);
    ListedInOpkssh(sshDir, KeyName(token.issuer, token.audience), listing);
  }

  /** Issuer https://a and audience cert.pub: no logout ever looks at the key. */
  lemma CertNamedKeyIsMissed(sshDir: string, listing: seq<Logout.Entry>)
    requires Logout.AreEntries(listing)
    ensures var token := Login.Token(Some("https://a"), Some("cert.pub"));
            Login.OpksshPath(sshDir, token) !in Logout.AllSecrets(sshDir, Some(listing))
  {
    var token := Login.Token(Some("https://a"), Some("cert.pub"));
    KeyNameOf("a", "cert.pub");
    assert "https://" + "a" == "https://a" && "a" + "-" + "cert.pub" == "a" + CERT_SUFFIX;
    assert HasSuffix("a" + CERT_SUFFIX, CERT_SUFFIX);
    hide KeyName, Logout.AllSecrets, HasSuffix, Login.OpksshPath;
    OpksshIsListed(sshDir, token, listing);
  }

  // ---------------------------------------------------------------- logout after login

  /** A key whose files are not those of the written pair is selected or not as before. */
  lemma OtherSelection(fs: Fs, secret: string, mint: Login.Mint, comment: string, other: string)
    requires other != secret && other != CertPath(secret) && secret != CertPath(other)
    ensures Logout.IsSelected(Login.Written(fs, secret, mint, comment), other) ==
            Logout.IsSelected(fs - Logout.Pairs([secret]), other)
  {
    CertPathInjective(other, secret);
  }

  lemma NotSelected(fs: Fs, secret: string)
    ensures !Logout.IsSelected(fs - Logout.Pairs([secret]), secret)
  {
    assert secret in [secret];
  }

  /** With the written pair, logout dooms one key more than without it. */
  lemma OneMoreDoomed(fs: Fs, secret: string, mint: Login.Mint, comment: string, secrets: seq<string>)
    requires Logout.AreSeparate(secrets) && Logout.IsDistinct(secrets) && secret in secrets
    requires Logout.IsSelected(Login.Written(fs, secret, mint, comment), secret)
    ensures var more := Logout.Doomed(Login.Written(fs, secret, mint, comment), secrets);
            var less := Logout.Doomed(fs - Logout.Pairs([secret]), secrets);
            && (forall x :: x in more <==> x == secret || x in less) && secret !in less
            && |more| == |less| + 1
  {
    hide Logout.IsSelected, Login.Written, Logout.Pairs, CertPath, Logout.Doomed;
    var after, clean := Login.Written(fs, secret, mint, comment), fs - Logout.Pairs([secret]);
    var more, less := Logout.Doomed(after, secrets), Logout.Doomed(clean, secrets);
    NotSelected(fs, secret);
    forall x ensures x in more <==> x == secret || x in less {
      Logout.DoomedAreListed(after, secrets, x);
      Logout.DoomedAreListed(clean, secrets, x);
      if x in secrets && x != secret {
        var i, j :| 0 <= i < |secrets| && 0 <= j < |secrets| && secrets[i] == x && secrets[j] == secret;
        OtherSelection(fs, secret, mint, comment, x);
      }
    }
    Logout.DoomedAreListed(clean, secrets, secret);
    Logout.DoomedIsDistinct(after, secrets);
    Logout.DoomedIsDistinct(clean, secrets);
    Logout.SameSetSameLength(more, less + [secret]);
  }

  /** A written pair that logout does not look at stays, even if its files look like those of other keys. */
  lemma MissedPairStays(fs: Fs, secret: string, mint: Login.Mint, comment: string, secrets: seq<string>)
    requires secret !in secrets
    ensures var pairs := Logout.Pairs(Logout.Doomed(Login.Written(fs, secret, mint, comment), secrets));
            secret !in pairs && CertPath(secret) !in pairs
  {
    var after := Login.Written(fs, secret, mint, comment);
    hide Logout.Doomed;
    assert secret != CertPath(secret);
    forall other <- Logout.Doomed(after, secrets)
      ensures other != secret && CertPath(other) != secret && other != CertPath(secret) &&
              CertPath(other) != CertPath(secret)
    {
      Logout.DoomedAreListed(after, secrets, other);
      CertPathInjective(other, secret);
    }
  }

  /**
   Logout after login. The pair is gone if and only if logout looks at it, and then the files are
   those that logout alone would have left without the pair.
   */
  lemma LogoutAfterLogin(
    fs: Fs, sshDir: string, listing: Option<seq<Logout.Entry>>, secret: string, mint: Login.Mint,
    destination: Login.Destination, token: Login.Token)
    requires listing.Some? ==> Logout.AreEntries(listing.value)
    requires IsReadable(fs, secret)
    ensures var all := Logout.AllSecrets(sshDir, listing);
            var after := Login.Written(fs, secret, mint, Login.CommentOf(destination, token));
            var end := after - Logout.Pairs(Logout.Doomed(after, all));
            var clean := fs - Logout.Pairs([secret]);
            && (secret in all <==> secret !in end) && (secret in all <==> CertPath(secret) !in end)
            && (secret in all ==> end == clean - Logout.Pairs(Logout.Doomed(clean, all)))
            && (secret in all ==> |Logout.Doomed(after, all)| == |Logout.Doomed(clean, all)| + 1)
  {
    var all := Logout.AllSecrets(sshDir, listing);
    var comment := Login.CommentOf(destination, token);
    var after := Login.Written(fs, secret, mint, comment);
    hide Logout.AllSecrets, Login.CommentOf, Logout.Doomed, Logout.AreEntries, Logout.IsSelected, IsReadable,
         Logout.AreSeparate, Logout.IsDistinct;
    if secret in all {
      LogoutRecognisesLogin(fs, secret, mint, destination, token);
      Logout.AllAreSeparate(sshDir, listing);
      OneMoreDoomed(fs, secret, mint, comment, all);
      var more, less := Logout.Doomed(after, all), Logout.Doomed(fs - Logout.Pairs([secret]), all);
      Logout.PairsOfSameSet(more, less + [secret]);
      Logout.PairsSnoc(less, secret);
      SameWithoutPair(fs, secret, mint, comment, Logout.Pairs(less));
    } else {
      MissedPairStays(fs, secret, mint, comment, all);
      assert secret != CertPath(secret);
    }
  }

  lemma SameWithoutPair(fs: Fs, secret: string, mint: Login.Mint, comment: string, pairs: set<string>)
    ensures Login.Written(fs, secret, mint, comment) - (pairs + {secret, CertPath(secret)}) ==
            fs - Logout.Pairs([secret]) - pairs
  {
    hide CertPath;
    assert Logout.Pairs([secret]) == {secret, CertPath(secret)} by {
      assert forall x :: x in [secret] <==> x == secret;
    }
  }

  // ---------------------------------------------------------------- the config

  /** The config is back to what it was, up to its line ends, exactly if it had no line for the key before. */
  lemma ConfigIsRestored(sshDir: string, token: Login.Token, config: string)
    requires '\n' !in sshDir && '\r' !in sshDir
    ensures var path := Login.OpksshPath(sshDir, token);
            var edited := Login.ConfigAfter(Login.OpksshDir, Some(config), path, Login.AllWritten);
            Logout.ConfigAfter(edited, [path]) == Some(SshConfig.Normalized(config)) <==>
            !SshConfig.NamesSomewhere(config, path)
  {
    var path := Login.OpksshPath(sshDir, token);
    OpksshIsKeyPath(sshDir, token);
    hide KeyName, SshConfig.NamesSomewhere, SshConfig.Normalized, SshConfig.IsKeyPath, Login.OpksshPath;
    SshConfig.LogoutUndoesLogin(config, path);
    hide SshConfig.WithKey, SshConfig.WithoutKey;
    OneKey(SshConfig.WithKey(config, path), path);
  }

  lemma OpksshIsKeyPath(sshDir: string, token: Login.Token)
    requires '\n' !in sshDir && '\r' !in sshDir
    ensures SshConfig.IsKeyPath(Login.OpksshPath(sshDir, token))
  {
    hide KeyName, SshConfig.IsKeyPath;
    var dir := PathIn(sshDir, "opkssh");
    assert '\n' !in dir && '\r' !in dir;
    KeyNameIsSafe(dir, token.issuer, token.audience);
  }

  lemma OneKey(config: string, path: string)
    ensures SshConfig.WithoutKeys(config, [path]) == SshConfig.WithoutKey(config, path)
  {
    assert [path][..0] == [];
    assert SshConfig.WithoutKeys(config, []) == config;
  }

  /**
   The keys of the opkssh directory that are gone: those that logout alone would delete and, if it is
   there, login's.
   */
  function Gone(clean: Fs, opk: seq<string>, secret: string): seq<string>
  {
    Logout.Doomed(clean, opk) + (if secret in opk then [secret] else [])
  }

  lemma DoomedInOpkssh(
    fs: Fs, sshDir: string, listing: Option<seq<Logout.Entry>>, secret: string, mint: Login.Mint, comment: string)
    requires listing.Some? ==> Logout.AreEntries(listing.value)
    requires secret in Logout.AllSecrets(sshDir, listing)
    requires Logout.IsSelected(Login.Written(fs, secret, mint, comment), secret)
    ensures var opk := Logout.OpksshSecrets(sshDir, listing);
            var doomed := Logout.Doomed(Login.Written(fs, secret, mint, comment), opk);
            && (forall x :: x in doomed <==> x in Gone(fs - Logout.Pairs([secret]), opk, secret))
            && Logout.IsDistinct(doomed)
  {
    var all, opk := Logout.AllSecrets(sshDir, listing), Logout.OpksshSecrets(sshDir, listing);
    assert forall x <- opk :: x in all;
    var after, clean := Login.Written(fs, secret, mint, comment), fs - Logout.Pairs([secret]);
    hide Logout.AllSecrets, Logout.OpksshSecrets, Login.Written, Logout.Doomed, Logout.IsSelected,
         Logout.AreEntries, Logout.Pairs, Logout.AreSeparate, Logout.IsDistinct;
    Logout.AllAreSeparate(sshDir, listing);
    OneMoreDoomed(fs, secret, mint, comment, all);
    forall x ensures x in Logout.Doomed(after, opk) <==> x in Gone(clean, opk, secret) {
      Logout.DoomedAreListed(after, opk, x);
      Logout.DoomedAreListed(after, all, x);
      Logout.DoomedAreListed(clean, opk, x);
      Logout.DoomedAreListed(clean, all, x);
    }
    Logout.OpksshAreKeyFiles(sshDir, listing);
    Logout.DoomedIsDistinct(after, opk);
  }

  /** The config after both: as if login had not put its line there. */
  lemma ConfigAfterBoth(
    fs: Fs, sshDir: string, listing: Option<seq<Logout.Entry>>, secret: string, mint: Login.Mint,
    destination: Login.Destination, token: Login.Token, config: string)
    requires listing.Some? ==> Logout.AreEntries(listing.value)
    requires IsReadable(fs, secret) && secret in Logout.AllSecrets(sshDir, listing)
    requires destination.OpksshDir? ==> secret == Login.OpksshPath(sshDir, token) && SshConfig.IsKeyPath(secret)
    ensures var opk := Logout.OpksshSecrets(sshDir, listing);
            var doomed := Logout.Doomed(Login.Written(fs, secret, mint, Login.CommentOf(destination, token)), opk);
            var clean := fs - Logout.Pairs([secret]);
            && SshConfig.Lines(SshConfig.WithoutKeys(Edited(destination, config, secret), doomed)) ==
               SshConfig.Lines(SshConfig.WithoutKeys(config, Gone(clean, opk, secret)))
            && (destination.OpksshDir? && Logout.Doomed(clean, opk) == [] ==> doomed == [secret])
  {
    hide Login.OpksshPath, SshConfig.IsKeyPath, Logout.AllSecrets, Logout.OpksshSecrets, Login.Written,
         Login.CommentOf, SshConfig.Lines, SshConfig.WithoutKeys, SshConfig.WithKey, Logout.IsSelected, IsReadable,
         Logout.AreEntries, Logout.Pairs, Logout.IsDistinct, Logout.Doomed, Gone, Edited;
    var opk, comment := Logout.OpksshSecrets(sshDir, listing), Login.CommentOf(destination, token);
    var doomed := Logout.Doomed(Login.Written(fs, secret, mint, comment), opk);
    var clean := fs - Logout.Pairs([secret]);
    LogoutRecognisesLogin(fs, secret, mint, destination, token);
    DoomedInOpkssh(fs, sshDir, listing, secret, mint, comment);
    if destination.OpksshDir? {
      InOpkssh(sshDir, token, listing);
    }
    GoneKeys(clean, opk, secret, doomed);
    LinesOfBoth(destination, config, secret, doomed, Gone(clean, opk, secret));
  }

  function Edited(destination: Login.Destination, config: string, secret: string): string
  {
    if destination.OpksshDir? then SshConfig.WithKey(config, secret) else config
  }

  lemma GoneKeys(clean: Fs, opk: seq<string>, secret: string, doomed: seq<string>)
    requires Logout.IsDistinct(doomed) && forall x :: x in doomed <==> x in Gone(clean, opk, secret)
    ensures secret in opk ==> secret in doomed
    ensures secret in opk && Logout.Doomed(clean, opk) == [] ==> doomed == [secret]
  {
    hide Logout.Doomed, Logout.IsDistinct;
    if secret in opk && Logout.Doomed(clean, opk) == [] {
      assert Gone(clean, opk, secret) == [secret];
      hide Gone;
      SingleElement(doomed, secret);
    }
  }

  lemma LinesOfBoth(destination: Login.Destination, config: string, secret: string, doomed: seq<string>,
                    gone: seq<string>)
    requires forall x :: x in doomed <==> x in gone
    requires destination.OpksshDir? ==> secret in doomed && SshConfig.IsKeyPath(secret)
    ensures SshConfig.Lines(SshConfig.WithoutKeys(Edited(destination, config, secret), doomed)) ==
            SshConfig.Lines(SshConfig.WithoutKeys(config, gone))
  {
    hide SshConfig.Lines, SshConfig.WithoutKeys, SshConfig.WithKey, SshConfig.IsKeyPath;
    SshConfig.SameKeysSameLines(config, doomed, gone);
    if destination.OpksshDir? {
      SshConfig.RemovedWithOthers(config, secret, doomed);
    }
  }

  lemma InOpkssh(sshDir: string, token: Login.Token, listing: Option<seq<Logout.Entry>>)
    requires Login.OpksshPath(sshDir, token) in Logout.AllSecrets(sshDir, listing)
    ensures Login.OpksshPath(sshDir, token) in Logout.OpksshSecrets(sshDir, listing)
  {
    hide KeyName, Logout.DefaultSecrets, Logout.OpksshSecrets;
    NotADefault(sshDir, KeyName(token.issuer, token.audience));
  }

  lemma SingleElement(xs: seq<string>, x: string)
    requires Logout.IsDistinct(xs) && x in xs && forall y <- xs :: y == x
    ensures xs == [x]
  {
    Logout.DistinctSize(xs);
    assert (set y | y in xs) == {x};
  }

  // ---------------------------------------------------------------- from login to logout

  /**
   A login with its refreshes, and then a logout that can remove and rewrite what it wants. If login
   succeeded from a steady and readable slot, its pair is gone if and only if logout looks at the
   slot, which `DefaultIsListed` and `OpksshIsListed` decide; then the files are those that logout
   alone would have left without the pair, one pair more is counted, and the line of the key has left
   no trace in the config. With no other key to remove, files and config are restored.
   */
  method LoginThenLogout(
    destination: Login.Destination, sshDir: string, fs: Fs, config: Option<string>, first: Login.Mint,
    refreshes: seq<Login.Mint>, agent: Agent.AgentSession, ecdsaFirst: bool, listing: Option<seq<Logout.Entry>>)
    returns (ok: bool, files: Fs, text: Option<string>, count: nat)
    requires destination.DefaultDir? ==> AreNames(destination.names)
    requires listing.Some? ==> Logout.AreEntries(listing.value)
    modifies agent
    ensures var slot := Login.Slot(destination, sshDir, fs, config, first.token);
            ok && Login.IsSteady(destination, sshDir, fs) && !agent.printKey && slot.Some? &&
                IsReadable(fs, slot.value) ==>
              IsRestored(destination, sshDir, fs, config, listing, slot.value, files, text, count)
    ensures ok && Login.IsSteady(destination, sshDir, fs) && !agent.printKey ==>
              Login.Slot(destination, sshDir, fs, config, first.token).Some?
  {
    hide Login.Slot, Login.IsSteady, IsReadable, Logout.AreEntries, AreNames, Logout.AllSecrets, Login.Written,
         Logout.Doomed, Login.EndsWell, Login.KeepsTaken, IsRestored, Logout.Pairs, Logout.IsInside,
         Logout.IsBroken, Logout.Beyond, Login.CommentOf, Login.IsOffered, Login.IsJoined, Logout.ConfigAfter,
         Login.ConfigAfter, Logout.OpksshSecrets, Logout.IsSelected, CertPath;
    var login := new Login.LoginCmd(destination, sshDir, fs, config, agent);
    ok := login.LoginWithRefresh(first, refreshes);
    if !ok {
      return false, login.fs, login.config, 0;
    }
    ghost var last := if refreshes == [] then first else refreshes[|refreshes| - 1];
    var logout := new Logout.LogoutCmd(login.fs, login.config, {}, true);
    var n, done := logout.Run("", sshDir, ecdsaFirst, listing);
    ghost var slot := Login.Slot(destination, sshDir, fs, config, first.token);
    if Login.IsSteady(destination, sshDir, fs) && !agent.printKey && slot.Some? && IsReadable(fs, slot.value) {
      BothRestore(destination, sshDir, fs, config, first.token, last, listing, slot.value);
    }
    return true, logout.fs, logout.config, n;
  }

  /** What is left of a login after a logout. */
  ghost predicate IsRestored(
    destination: Login.Destination, sshDir: string, fs: Fs, config: Option<string>, listing: Option<seq<Logout.Entry>>,
    secret: string, files: Fs, text: Option<string>, count: nat)
  {
    var all, opk := Logout.AllSecrets(sshDir, listing), Logout.OpksshSecrets(sshDir, listing);
    var clean := fs - Logout.Pairs([secret]);
    var others := Logout.Doomed(clean, all);
    && (secret in all <==> secret !in files) && (secret in all <==> CertPath(secret) !in files)
    && (secret in all ==> files == clean - Logout.Pairs(others) && count == |others| + 1)
    && (text == None <==> config == None)
    && (secret in all && config.Some? && (destination.OpksshDir? ==> SshConfig.IsKeyPath(secret)) ==>
          SshConfig.Lines(text.value) == SshConfig.Lines(SshConfig.WithoutKeys(config.value, Gone(clean, opk, secret))))
    && (secret in all && others == [] ==> files == clean)
    && (secret in all && others == [] && destination.OpksshDir? && config.Some? && SshConfig.IsKeyPath(secret) ==>
          (text == Some(SshConfig.Normalized(config.value)) <==> !SshConfig.NamesSomewhere(config.value, secret)))
  }

  /** What it comes to, for the pair, for every other file, and for the config where nothing else is removed. */
  lemma WhatIsRestored(
    destination: Login.Destination, sshDir: string, fs: Fs, config: Option<string>, listing: Option<seq<Logout.Entry>>,
    secret: string, files: Fs, text: Option<string>, count: nat, path: string)
    requires IsRestored(destination, sshDir, fs, config, listing, secret, files, text, count)
    ensures var cert := secret + "-cert.pub";
            && (secret in files <==> secret !in Logout.AllSecrets(sshDir, listing))
            && (cert in files <==> secret !in Logout.AllSecrets(sshDir, listing))
            && (secret !in files && path in files ==>
                  path != secret && path != cert && path in fs && files[path] == fs[path])
            && (secret !in files && count == 1 && path != secret && path != cert ==>
                  (path in files <==> path in fs))
            && (secret !in files && count == 1 && destination.OpksshDir? && config.Some? &&
                SshConfig.IsKeyPath(secret) && !Contains(config.value, secret) ==>
                  text == Some(SshConfig.Normalized(config.value)))
  {
    hide Logout.AllSecrets, SshConfig.IsKeyPath, SshConfig.Normalized, Logout.OpksshSecrets, Logout.Doomed,
         SshConfig.NamesSomewhere, SshConfig.Lines, SshConfig.WithoutKeys, Gone, Contains;
    if config.Some? && SshConfig.IsKeyPath(secret) && SshConfig.NamesSomewhere(config.value, secret) {
      SshConfig.NamedIsContained(config.value, secret);
    }
  }

  lemma BothRestore(
    destination: Login.Destination, sshDir: string, fs: Fs, config: Option<string>, token: Login.Token,
    mint: Login.Mint,
    listing: Option<seq<Logout.Entry>>, secret: string)
    requires listing.Some? ==> Logout.AreEntries(listing.value)
    requires Login.Slot(destination, sshDir, fs, config, token) == Some(secret) && IsReadable(fs, secret)
    ensures var after := Login.Written(fs, secret, mint, Login.CommentOf(destination, token));
            var doomed := Logout.Doomed(after, Logout.AllSecrets(sshDir, listing));
            IsRestored(destination, sshDir, fs, config, listing, secret, after - Logout.Pairs(doomed),
                       Logout.ConfigAfter(Login.ConfigAfter(destination, config, secret, Login.AllWritten),
                                          Logout.Doomed(after, Logout.OpksshSecrets(sshDir, listing))),
                       |doomed|)
  {
    var all, opk := Logout.AllSecrets(sshDir, listing), Logout.OpksshSecrets(sshDir, listing);
    var clean := fs - Logout.Pairs([secret]);
    hide Login.Written, Login.CommentOf, Logout.AllSecrets, Logout.OpksshSecrets, IsReadable, Logout.AreEntries,
         SshConfig.IsKeyPath, SshConfig.Lines, SshConfig.WithoutKeys, SshConfig.WithKey, SshConfig.Normalized,
         SshConfig.NamesSomewhere, Login.OpksshPath, CertPath, Gone, Logout.Pairs;
    assert destination.OpksshDir? ==> secret == Login.OpksshPath(sshDir, token);
    hide Login.Slot;
    LogoutAfterLogin(fs, sshDir, listing, secret, mint, destination, token);
    NothingMore(clean, opk, all, sshDir, listing);
    hide Logout.Doomed;
    if secret in all && config.Some? && (destination.OpksshDir? ==> SshConfig.IsKeyPath(secret)) {
      ConfigAfterBoth(fs, sshDir, listing, secret, mint, destination, token, config.value);
      if destination.OpksshDir? {
        SshConfig.LogoutUndoesLogin(config.value, secret);
        OneKey(SshConfig.WithKey(config.value, secret), secret);
      }
    }
    NoPairs(clean);
  }

  lemma NothingMore(fs: Fs, opk: seq<string>, all: seq<string>, sshDir: string, listing: Option<seq<Logout.Entry>>)
    requires all == Logout.AllSecrets(sshDir, listing) && opk == Logout.OpksshSecrets(sshDir, listing)
    ensures Logout.Doomed(fs, all) == [] ==> Logout.Doomed(fs, opk) == []
  {
    hide Logout.DefaultSecrets, Logout.OpksshSecrets, Logout.IsSelected, Flat;
    FlatAppend(Logout.IfSelected(fs), Logout.DefaultSecrets(sshDir, true), opk);
  }

  lemma NoPairs(fs: Fs)
    ensures fs - Logout.Pairs([]) == fs
  {
  }
}
