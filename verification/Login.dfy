/**
 Writing keys at login and at every refresh (commands/login.go). The main result is that a run keeps
 to the slot that its first write chose and leaves all other files alone.
 */
module Login {
  import opened Text
  import opened KeyStore
  import SshConfig
  import Agent

  /** Where keys go: the -i argument, the opkssh directory, or the first free default name. */
  datatype Destination = Explicit(path: string) | OpksshDir | DefaultDir(names: seq<string>)

  datatype Token = Token(issuer: Option<string>, audience: Option<string>)

  /** A write that fails leaves the file as it was, or cut short or otherwise spoiled. */
  datatype Io =
    | AllWritten | ConfigFails(text: Option<string>)
    | SecretFails(left: Option<Content>) | CertFails(left: Option<Content>)

  /**
   A key pair and certificate made from a token: how long it was waited for, how its writes go, and how
   the agent takes it.
   */
  datatype Mint = Mint(token: Token, key: int, serial: int, io: Io, wait: nat, attempt: Agent.Try)

  // ---------------------------------------------------------------- slots

  /** A default name can be used if no key is there or one that opkssh wrote. */
  predicate IsFree(fs: Fs, secret: string)
  {
    || secret !in fs
    || (Read(fs, CertPath(secret)).Some? && Comment(Read(fs, CertPath(secret)).value) == Some("openpubkey"))
  }

  /** A certificate or public key that can be read and has exactly the comment that login writes there. */
  predicate IsOurs(fs: Fs, cert: string)
  {
    && cert in fs && fs[cert].readable
    && match fs[cert].content
       case Certificate(_, _, comment) => comment == "openpubkey"
       case PublicKey(_, comment) => comment == "openpubkey"
       case _ => false
  }

  /** A default name can be used exactly if it has no key, or beside the key a certificate of ours. */
  lemma WhatIsFree(fs: Fs, dir: string, name: string)
    ensures IsFree(fs, PathIn(dir, name)) <==>
            dir + "/" + name !in fs || IsOurs(fs, dir + "/" + name + "-cert.pub")
  {
    assert CertPath(PathIn(dir, name)) == dir + "/" + name + "-cert.pub";
  }

  /** The first name that can be used is chosen, and none exactly if none can. */
  lemma {:induction false} WhatIsChosen(fs: Fs, dir: string, names: seq<string>)
    ensures FirstFree(fs, dir, names) == None <==>
            forall i :: 0 <= i < |names| ==> !IsFree(fs, PathIn(dir, names[i]))
    ensures FirstFree(fs, dir, names).Some? ==>
              exists k :: 0 <= k < |names| && FirstFree(fs, dir, names).value == dir + "/" + names[k] &&
                IsFree(fs, PathIn(dir, names[k])) &&
                forall i :: 0 <= i < k ==> !IsFree(fs, PathIn(dir, names[i]))
  {
    hide IsFree;
    if names != [] && !IsFree(fs, PathIn(dir, names[0])) {
      WhatIsChosen(fs, dir, names[1..]);
      if FirstFree(fs, dir, names).Some? {
        var k :| 0 <= k < |names[1..]| && FirstFree(fs, dir, names).value == dir + "/" + names[1..][k] &&
                 IsFree(fs, PathIn(dir, names[1..][k])) &&
                 forall i :: 0 <= i < k ==> !IsFree(fs, PathIn(dir, names[1..][i]));
        assert names[k + 1] == names[1..][k];
        forall i | 0 <= i < k + 1 ensures !IsFree(fs, PathIn(dir, names[i])) {
          assert i > 0 ==> names[i] == names[1..][i - 1];
        }
      } else {
        forall i | 0 <= i < |names| ensures !IsFree(fs, PathIn(dir, names[i])) {
          assert i > 0 ==> names[i] == names[1..][i - 1];
        }
      }
    }
  }

  function FirstFree(fs: Fs, dir: string, names: seq<string>): Option<string>
  {
    if names == [] then None
    else if IsFree(fs, PathIn(dir, names[0])) then Some(PathIn(dir, names[0]))
    else FirstFree(fs, dir, names[1..])
  }

  lemma DefaultNamesAreNames()
    ensures AreNames(ECDSA_NAMES) && AreNames(ED25519_NAMES)
  {
  }

  /** A certificate that was left behind without its key and cannot be read back. */
  predicate IsBlindSpot(fs: Fs, secret: string)
  {
    secret !in fs && CertPath(secret) in fs && !fs[CertPath(secret)].readable
  }

  function Written(fs: Fs, secret: string, mint: Mint, comment: string): Fs
  {
    Put(Put(fs, secret, SecretKey(mint.key)), CertPath(secret), Certificate(mint.key, mint.serial, comment))
  }

  lemma WrittenSlot(fs: Fs, secret: string, mint: Mint)
    requires IsFree(fs, secret)
    ensures IsFree(Written(fs, secret, mint, "openpubkey"), secret) <==> !IsBlindSpot(fs, secret)
  {
    assert secret != CertPath(secret);
  }

  /** A file map with nothing but such a certificate for the first name: the next write goes elsewhere. */
  lemma RefreshMovesOn(dir: string, mint: Mint, left: Content)
    ensures var secret := PathIn(dir, "id_ecdsa");
            var fs := map[CertPath(secret) := Node(left, false)];
            FirstFree(fs, dir, ECDSA_NAMES) == Some(secret) &&
            FirstFree(Written(fs, secret, mint, "openpubkey"), dir, ECDSA_NAMES) != Some(secret)
  {
    var secret := PathIn(dir, "id_ecdsa");
    var fs := map[CertPath(secret) := Node(left, false)];
    assert secret != CertPath(secret);
    DefaultNamesAreNames();
    RefreshFindsSlot(fs, dir, ECDSA_NAMES, mint);
  }

  lemma OtherSlot(fs: Fs, after: Fs, secret: string, dir: string, name: string)
    requires forall path :: path != secret && path != CertPath(secret) ==>
                              (path in fs <==> path in after) && (path in fs ==> fs[path] == after[path])
    requires PathIn(dir, name) != secret && PathIn(dir, name) != CertPath(secret)
    requires CertPath(PathIn(dir, name)) != secret
    ensures IsFree(after, PathIn(dir, name)) == IsFree(fs, PathIn(dir, name))
  {
    var other := PathIn(dir, name);
    assert other == CertPath(other)[..|other|] && secret == CertPath(secret)[..|secret|];
  }

  /** Files other than the pair are the same. */
  predicate SameOutside(fs: Fs, after: Fs, secret: string)
  {
    fs - {secret, CertPath(secret)} == after - {secret, CertPath(secret)}
  }

  lemma SameOutsideAt(fs: Fs, after: Fs, secret: string, path: string)
    requires SameOutside(fs, after, secret) && path != secret && path != CertPath(secret)
    ensures (path in fs <==> path in after) && (path in fs ==> fs[path] == after[path])
  {
    var a, b := fs - {secret, CertPath(secret)}, after - {secret, CertPath(secret)};
    assert path in fs <==> path in a;
    assert path in after <==> path in b;
    assert path in a ==> a[path] == fs[path];
    assert path in b ==> b[path] == after[path];
  }

  /**
   Slot stability. After changes to the slot's pair alone, the search finds the same slot again
   exactly if that slot is still free.
   */
  lemma {:induction false} SlotIsStable(fs: Fs, after: Fs, dir: string, names: seq<string>)
    requires AreNames(names) && FirstFree(fs, dir, names).Some?
    requires SameOutside(fs, after, FirstFree(fs, dir, names).value)
    ensures var secret := FirstFree(fs, dir, names).value;
            FirstFree(after, dir, names) == Some(secret) <==> IsFree(after, secret)
    decreases |names|
  {
    hide IsFree, SameOutside, PathIn;
    var secret := FirstFree(fs, dir, names).value;
    var first := PathIn(dir, names[0]);
    if IsFree(fs, first) {
      if FirstFree(after, dir, names) == Some(secret) {
        FirstFreeIsFree(after, dir, names);
      }
    } else {
      SlotIsStable(fs, after, dir, names[1..]);
      var k := FirstFreeIsListed(fs, dir, names[1..]);
      assert secret == PathIn(dir, names[k + 1]);
      if first == secret {
        PathInInjective(dir, names[0], names[k + 1]);
      }
      NotACertPath(dir, names[0], secret);
      NotACertPath(dir, names[k + 1], first);
      forall path | path != secret && path != CertPath(secret)
        ensures (path in fs <==> path in after) && (path in fs ==> fs[path] == after[path])
      {
        SameOutsideAt(fs, after, secret, path);
      }
      OtherSlot(fs, after, secret, dir, names[0]);
    }
  }

  lemma {:induction false} FirstFreeIsListed(fs: Fs, dir: string, names: seq<string>) returns (k: nat)
    requires FirstFree(fs, dir, names).Some?
    ensures k < |names| && FirstFree(fs, dir, names) == Some(PathIn(dir, names[k]))
  {
    hide IsFree, PathIn;
    if IsFree(fs, PathIn(dir, names[0])) {
      k := 0;
    } else {
      k := FirstFreeIsListed(fs, dir, names[1..]);
      k := k + 1;
    }
  }

  lemma {:induction false} FirstFreeIsFree(fs: Fs, dir: string, names: seq<string>)
    requires FirstFree(fs, dir, names).Some?
    ensures IsFree(fs, FirstFree(fs, dir, names).value)
  {
    hide IsFree, PathIn;
    if !IsFree(fs, PathIn(dir, names[0])) {
      FirstFreeIsFree(fs, dir, names[1..]);
    }
  }

  // ---------------------------------------------------------------- the code

  /** The secret key path that a write goes to. */
  function Slot(destination: Destination, sshDir: string, fs: Fs, config: Option<string>, token: Token): Option<string>
  {
    match destination
    case Explicit(path) => Some(path)
    case OpksshDir => if config == None then None else Some(OpksshPath(sshDir, token))
    case DefaultDir(names) => FirstFree(fs, sshDir, names)
  }

  function OpksshPath(sshDir: string, token: Token): string
  {
    PathIn(PathIn(sshDir, "opkssh"), KeyName(token.issuer, token.audience))
  }

  /** The comment behind the certificate, as it is parsed back. */
  function CommentOf(destination: Destination, token: Token): string
  {
    if destination.OpksshDir? then TrimSpace("openpubkey: " + OrUnknown(token.issuer) + " " + OrUnknown(token.audience))
    else "openpubkey"
  }

  function ConfigAfter(destination: Destination, config: Option<string>, secret: string, io: Io): Option<string>
  {
    if !destination.OpksshDir? || config == None then config
    else if io.ConfigFails? then Spoiled(config, io.text)
    else Some(SshConfig.WithKey(config.value, secret))
  }

  function Spoiled(config: Option<string>, text: Option<string>): Option<string>
  {
    if text.Some? then text else config
  }

  function Leave(fs: Fs, path: string, left: Option<Content>): Fs
  {
    if left.Some? then Put(fs, path, left.value) else fs
  }

  function FsAfter(fs: Fs, secret: string, mint: Mint, comment: string): Fs
  {
    match mint.io
    case AllWritten => Written(fs, secret, mint, comment)
    case SecretFails(left) => Leave(fs, secret, left)
    case CertFails(left) => Leave(Put(fs, secret, SecretKey(mint.key)), CertPath(secret), left)
    case ConfigFails(_) => fs
  }

  /** Only the opkssh directory has a config to write. */
  function Effective(destination: Destination, io: Io): Io
  {
    if io.ConfigFails? && !destination.OpksshDir? then AllWritten else io
  }

  /** The search for a default name does not start at a certificate that was left behind unreadable. */
  predicate IsSteady(destination: Destination, sshDir: string, fs: Fs)
  {
    destination.DefaultDir? ==>
      var slot := FirstFree(fs, sshDir, destination.names);
      slot.Some? ==> !IsBlindSpot(fs, slot.value)
  }

  /** The default names that are taken keep their key and their certificate. */
  predicate KeepsTaken(destination: Destination, sshDir: string, fs0: Fs, fs: Fs)
  {
    destination.DefaultDir? ==>
      forall i :: 0 <= i < |destination.names| ==>
        (!IsFree(fs0, PathIn(sshDir, destination.names[i])) ==> SamePair(fs0, fs, PathIn(sshDir, destination.names[i])))
  }

  /** What is not login's keeps its key and its certificate. */
  lemma ForeignStays(destination: Destination, sshDir: string, fs0: Fs, fs: Fs)
    requires KeepsTaken(destination, sshDir, fs0, fs)
    ensures destination.DefaultDir? ==>
              forall i :: 0 <= i < |destination.names| ==>
                var path := sshDir + "/" + destination.names[i];
                var cert := path + "-cert.pub";
                path in fs0 && !IsOurs(fs0, cert) ==>
                  && path in fs && fs[path] == fs0[path]
                  && (cert in fs <==> cert in fs0) && (cert in fs ==> fs[cert] == fs0[cert])
  {
    hide IsFree, IsOurs;
    if destination.DefaultDir? {
      forall i | 0 <= i < |destination.names|
        ensures var path := sshDir + "/" + destination.names[i];
                var cert := path + "-cert.pub";
                path in fs0 && !IsOurs(fs0, cert) ==>
                  && path in fs && fs[path] == fs0[path]
                  && (cert in fs <==> cert in fs0) && (cert in fs ==> fs[cert] == fs0[cert])
      {
        WhatIsFree(fs0, sshDir, destination.names[i]);
        assert PathIn(sshDir, destination.names[i]) == sshDir + "/" + destination.names[i];
      }
    }
  }

  predicate SameAt(fs0: Fs, fs: Fs, path: string)
  {
    (path in fs0 <==> path in fs) && (path in fs0 ==> fs0[path] == fs[path])
  }

  predicate SamePair(fs0: Fs, fs: Fs, secret: string)
  {
    SameAt(fs0, fs, secret) && SameAt(fs0, fs, CertPath(secret))
  }

  class LoginCmd {
    const destination: Destination
    const sshDir: string
    const printKey: bool
    var fs: Fs
    var config: Option<string>
    var token: Token
    const agent: Agent.AgentSession
    ghost var slots: seq<string>

    constructor (destination: Destination, sshDir: string, fs: Fs, config: Option<string>, agent: Agent.AgentSession)
      ensures this.destination == destination && this.sshDir == sshDir && this.printKey == agent.printKey
      ensures this.fs == fs && this.config == config && this.agent == agent && slots == []
    {
      this.destination, this.sshDir, this.printKey, this.fs, this.config :=
        destination, sshDir, agent.printKey, fs, config;
      this.agent := agent;
      token, slots := Token(None, None), [];
    }

    method WriteKeys(secret: string, mint: Mint, comment: string) returns (ok: bool)
      modifies this`fs, this`slots
      ensures slots == old(slots) + [secret]
      ensures fs == FsAfter(old(fs), secret, mint.(io := if mint.io.ConfigFails? then AllWritten else mint.io), comment)
      ensures ok <==> mint.io.AllWritten? || mint.io.ConfigFails?
    {
      slots := slots + [secret];
      if mint.io.SecretFails? {
        fs := Leave(fs, secret, mint.io.left);
        return false;
      }
      fs := Put(fs, secret, SecretKey(mint.key));
      if mint.io.CertFails? {
        fs := Leave(fs, CertPath(secret), mint.io.left);
        return false;
      }
      fs := Put(fs, CertPath(secret), Certificate(mint.key, mint.serial, comment));
      return true;
    }

    /** The loop over the default names. */
    method WriteKeysToSSHDir(names: seq<string>, mint: Mint) returns (ok: bool)
      modifies this`fs, this`slots
      ensures match FirstFree(old(fs), sshDir, names)
              case None => !ok && fs == old(fs) && slots == old(slots)
              case Some(secret) =>
                && slots == old(slots) + [secret]
                && fs == FsAfter(old(fs), secret, mint.(io := if mint.io.ConfigFails? then AllWritten else mint.io),
                   "openpubkey")
                && (ok <==> mint.io.AllWritten? || mint.io.ConfigFails?)
    {
      for i := 0 to |names|
        invariant fs == old(fs) && slots == old(slots)
        invariant FirstFree(fs, sshDir, names) == FirstFree(fs, sshDir, names[i..])
      {
        assert names[i..][0] == names[i] && names[i..][1..] == names[i + 1..];
        var secret := PathIn(sshDir, names[i]);
        if secret !in fs {
          ok := WriteKeys(secret, mint, "openpubkey");
          return;
        } else if CertPath(secret) !in fs {
          continue;
        } else {
          var cert := Read(fs, CertPath(secret));
          if cert == None {
            continue;
          }
          var comment := Comment(cert.value);
          if comment == None {
            continue;
          }
          if comment.value == "openpubkey" {
            ok := WriteKeys(secret, mint, "openpubkey");
            return;
          }
        }
      }
      return false;
    }

    method WriteKeysToOpkSSHDir(mint: Mint) returns (ok: bool)
      modifies this`fs, this`config, this`slots
      ensures config == ConfigAfter(OpksshDir, old(config), OpksshPath(sshDir, token), mint.io)
      ensures if old(config) == None || mint.io.ConfigFails? then !ok && fs == old(fs) && slots == old(slots)
              else && slots == old(slots) + [OpksshPath(sshDir, token)]
                   && fs == FsAfter(old(fs), OpksshPath(sshDir, token), mint, CommentOf(OpksshDir, token))
                   && (ok <==> mint.io.AllWritten?)
    {
      var path := PathIn(PathIn(sshDir, "opkssh"), KeyName(token.issuer, token.audience));
      var comment := TrimSpace("openpubkey: " + OrUnknown(token.issuer) + " " + OrUnknown(token.audience));
      if config == None {
        return false;
      }
      var text := config.value;
      if !Contains(text, path) {
        text := SshConfig.IdentityLine(path) + "\n" + text;
      }
      if mint.io.ConfigFails? {
        config := Spoiled(config, mint.io.text);
        return false;
      }
      config := Some(text);
      ok := WriteKeys(path, mint, comment);
    }

    /** Every destination: one slot, its pair and the config, and nothing else. */
    method WriteKeysToDestination(mint: Mint) returns (ok: bool)
      modifies this`fs, this`config, this`slots
      ensures match Slot(destination, sshDir, old(fs), old(config), token)
              case None => !ok && fs == old(fs) && config == old(config) && slots == old(slots)
              case Some(secret) =>
                && config == ConfigAfter(destination, old(config), secret, mint.io)
                && slots == old(slots) + (if Effective(destination, mint.io).ConfigFails? then [] else [secret])
                && fs == FsAfter(old(fs), secret, mint.(io := Effective(destination, mint.io)),
                   CommentOf(destination, token))
                && (ok <==> Effective(destination, mint.io).AllWritten?)
    {
      hide Slot, OpksshPath, CommentOf, Contains;
      SlotOf(destination, sshDir, fs, config, token);
      if destination.Explicit? {
        ok := WriteKeys(destination.path, mint, "openpubkey");
      } else if destination.OpksshDir? {
        ok := WriteKeysToOpkSSHDir(mint);
      } else {
        ok := WriteKeysToSSHDir(destination.names, mint);
      }
    }

    /**
     A login and any number of refreshes. The token of the login, not the refreshed ones, names the
     slot. From a steady start every write goes to the slot that the files chose at the start, all
     files outside its pair keep their content and the config is edited at most once; a successful
     run leaves what its last write alone would have left. From any start a default name that held a
     key of someone else keeps it. The agent is offered every certificate after it was written.
     */
    method LoginWithRefresh(login: Mint, refreshes: seq<Mint>) returns (ok: bool)
      requires destination.DefaultDir? ==> AreNames(destination.names)
      requires printKey == agent.printKey
      modifies this`fs, this`config, this`slots, this`token, agent
      ensures KeepsTaken(destination, sshDir, old(fs), fs)
      ensures destination.DefaultDir? ==>
                forall i :: 0 <= i < |destination.names| ==>
                  var path := sshDir + "/" + destination.names[i];
                  var cert := path + "-cert.pub";
                  path in old(fs) && !IsOurs(old(fs), cert) ==>
                    && path in fs && fs[path] == old(fs)[path]
                    && (cert in fs <==> cert in old(fs)) && (cert in fs ==> fs[cert] == old(fs)[cert])
      ensures IsOffered(agent.addKeyToAgent && !printKey, [login] + refreshes, ok, old(agent.st), agent.st,
                        agent.Secs())
      ensures IsSteady(destination, sshDir, old(fs)) ==>
                && AllInto(old(slots), slots, Slot(destination, sshDir, old(fs), old(config), login.token))
                && EndsWell(destination, sshDir, login.token, old(fs), old(config), fs, config, [login] + refreshes)
      ensures IsSteady(destination, sshDir, old(fs)) && ok && (refreshes != [] || !printKey) ==>
                var slot := Slot(destination, sshDir, old(fs), old(config), login.token);
                var last := ([login] + refreshes)[|refreshes|];
                slot.Some? && IsDone(destination, login.token, slot.value, last, old(fs), old(config), fs, config)
      ensures IsSteady(destination, sshDir, old(fs)) && ok && agent.addKeyToAgent && !printKey ==>
                var slot := Slot(destination, sshDir, old(fs), old(config), login.token);
                slot.Some? && IsJoined([login] + refreshes, old(agent.st), agent.st, agent.Secs(), fs, slot.value)
    {
      hide Slot, IsFree, SameOutside, CommentOf, IsBlindSpot, AreNames, SshConfig.WithKey, IsSteady, IsDone,
           OnTrack, EndsWell, KeepsTaken, Events, Agent.Run, Agent.Step, Agent.Lifetime, IsJoined, AllInto,
           IsOffered;
      token := login.token;
      ghost var gate, lifetime := agent.addKeyToAgent && !printKey, agent.Secs();
      ghost var steady := IsSteady(destination, sshDir, fs);
      ghost var mints := [login] + refreshes;
      if steady {
        StartOnTrack(destination, sshDir, token, fs, config);
      }
      OnTrackEndsWell(destination, sshDir, token, fs, config, fs, config, mints);
      TakenAtStart(destination, sshDir, fs);
      ghost var slot := Slot(destination, sshDir, fs, config, token);
      NothingOffered(gate, mints, agent.st, lifetime);
      NothingWritten(slots, slot);
      if printKey {
        Offer(login, mints, 0, old(agent.st));
      } else {
        ok := WriteAndOffer(login, old(fs), old(config), old(slots), mints, 0, old(agent.st));
        ForeignStays(destination, sshDir, old(fs), fs);
        if !ok {
          return;
        }
      }
      for i := 0 to |refreshes|
        invariant token == login.token && slot == Slot(destination, sshDir, old(fs), old(config), token)
        invariant KeepsTaken(destination, sshDir, old(fs), fs)
        invariant steady ==> OnTrack(destination, sshDir, token, old(fs), old(config), fs, config)
        invariant steady ==> EndsWell(destination, sshDir, token, old(fs), old(config), fs, config, mints)
        invariant steady ==> AllInto(old(slots), slots, slot)
        invariant agent.st == Agent.Run(old(agent.st), Events(gate, mints[..i + 1]), lifetime)
        invariant i == 0 && printKey ==> fs == old(fs) && config == old(config)
        invariant steady && (i > 0 || !printKey) ==>
                    slot.Some? && IsDone(destination, token, slot.value, mints[i], old(fs), old(config), fs, config)
      {
        ghost var fs1, config1 := fs, config;
        ok := WriteAndOffer(refreshes[i], old(fs), old(config), old(slots), mints, i + 1, old(agent.st));
        if !ok {
          ForeignStays(destination, sshDir, old(fs), fs);
          return;
        }
        if steady {
          if i > 0 || !printKey {
            DoneTwice(destination, token, slot.value, mints[i], mints[i + 1], old(fs), old(config), fs1, config1, fs,
                config);
          }
        }
      }
      assert mints[..|mints|] == mints;
      ForeignStays(destination, sshDir, old(fs), fs);
      AllOffered(gate, mints, old(agent.st), agent.st, lifetime);
      if steady && gate {
        Joined(destination, token, slot.value, mints, old(fs), old(config), fs, config, old(agent.st), agent.st,
            lifetime);
      }
      return true;
    }

    /** A printed key is offered, if at all, without being written. */
    method Offer(mint: Mint, ghost mints: seq<Mint>, ghost n: nat, ghost st0: Agent.State)
      requires printKey == agent.printKey && n < |mints| && mint == mints[n]
      requires agent.st == Agent.Run(st0, Events(agent.addKeyToAgent && !printKey, mints[..n]), agent.Secs())
      modifies agent
      ensures agent.st == Agent.Run(st0, Events(agent.addKeyToAgent && !printKey, mints[..n + 1]), agent.Secs())
    {
      hide Events, Agent.Run, Agent.Step, Agent.Lifetime;
      ghost var before := agent.st;
      agent.Wait(mint.wait);
      ghost var waited := agent.st;
      agent.MaybeAddCertToAgent(mint.serial, mint.attempt);
      Offered(agent.addKeyToAgent && !printKey, mints, n, st0, before, waited, agent.st, agent.Secs());
    }

    /** One turn of a run: wait, write and then offer to the agent. */
    method WriteAndOffer(
      mint: Mint, ghost fs0: Fs, ghost config0: Option<string>, ghost slots0: seq<string>, ghost mints: seq<Mint>,
      ghost n: nat, ghost st0: Agent.State)
      returns (ok: bool)
      requires destination.DefaultDir? ==> AreNames(destination.names)
      requires KeepsTaken(destination, sshDir, fs0, fs) && n < |mints| && mint == mints[n]
      requires printKey == agent.printKey
      requires agent.st == Agent.Run(st0, Events(agent.addKeyToAgent && !printKey, mints[..n]), agent.Secs())
      modifies this`fs, this`config, this`slots, agent
      ensures KeepsTaken(destination, sshDir, fs0, fs)
      ensures var slot := Slot(destination, sshDir, fs0, config0, token);
              old(OnTrack(destination, sshDir, token, fs0, config0, fs, config) && AllInto(slots0, slots, slot)) ==>
                && AllInto(slots0, slots, slot)
                && EndsWell(destination, sshDir, token, fs0, config0, fs, config, mints)
                && (ok ==> OnTrack(destination, sshDir, token, fs0, config0, fs, config))
                && (ok ==> slot.Some? && IsDone(destination, token, slot.value, mint, old(fs), old(config), fs, config))
      ensures if ok then
                agent.st == Agent.Run(st0, Events(agent.addKeyToAgent && !printKey, mints[..n + 1]), agent.Secs())
              else IsOffered(agent.addKeyToAgent && !printKey, mints, false, st0, agent.st, agent.Secs())
    {
      hide Events, Agent.Run, Agent.Step, Agent.Lifetime, Slot, OnTrack, AllInto, EndsWell, IsDone, KeepsTaken,
           IsOffered, AreNames;
      ghost var gate, before := agent.addKeyToAgent && !printKey, agent.st;
      agent.Wait(mint.wait);
      ghost var waited := agent.st;
      Waited(gate, mints, n, st0, before, waited, agent.Secs());
      assert mint in mints;
      ok := Write(mint, fs0, config0, slots0, mints);
      if ok {
        agent.MaybeAddCertToAgent(mint.serial, mint.attempt);
        Offered(gate, mints, n, st0, before, waited, agent.st, agent.Secs());
      }
    }

    /** One write of a run; what it keeps of a steady run, and what it keeps of any run. */
    method Write(mint: Mint, ghost fs0: Fs, ghost config0: Option<string>, ghost slots0: seq<string>,
                 ghost mints: seq<Mint>)
      returns (ok: bool)
      requires destination.DefaultDir? ==> AreNames(destination.names)
      requires KeepsTaken(destination, sshDir, fs0, fs) && mint in mints
      modifies this`fs, this`config, this`slots
      ensures KeepsTaken(destination, sshDir, fs0, fs)
      ensures var slot := Slot(destination, sshDir, fs0, config0, token);
              old(OnTrack(destination, sshDir, token, fs0, config0, fs, config) && AllInto(slots0, slots, slot)) ==>
                && AllInto(slots0, slots, slot)
                && EndsWell(destination, sshDir, token, fs0, config0, fs, config, mints)
                && (ok ==> OnTrack(destination, sshDir, token, fs0, config0, fs, config))
                && (ok ==> slot.Some? && IsDone(destination, token, slot.value, mint, old(fs), old(config), fs, config))
    {
      hide Slot, IsFree, SameOutside, CommentOf, IsBlindSpot, AreNames, SshConfig.WithKey, KeepsTaken, EndsWell;
      ghost var fs1, config1 := fs, config;
      ok := WriteKeysToDestination(mint);
      ghost var slot := Slot(destination, sshDir, fs1, config1, token);
      if slot.Some? {
        WriteStaysInside(fs1, slot.value, mint);
        StillTaken(destination, sshDir, fs0, fs1, fs, config1, token);
      }
      if OnTrack(destination, sshDir, token, fs0, config0, fs1, config1) && AllInto(slots0, old(slots), slot) {
        EndsWellAfterFailure(destination, sshDir, token, fs0, config0, fs1, config1, fs, config, mint, mints);
        if ok {
          StaysOnTrack(destination, sshDir, token, fs0, config0, fs1, config1, mint);
          assert ConfigAfter(destination, config1, slot.value, mint.io) ==
                 ConfigAfter(destination, config1, slot.value, AllWritten);
        }
      }
    }
  }

  // ---------------------------------------------------------------- the agent over a run

  /** What a certificate means to the agent: a wait, and an offer if the gate is open. */
  function EventsOf(gate: bool): Mint -> seq<Agent.Event>
  {
    (mint: Mint) => [Agent.Tick(mint.wait)] + if gate then [Agent.Offer(mint.serial, mint.attempt)] else []
  }

  function Events(gate: bool, mints: seq<Mint>): seq<Agent.Event> { Flat(EventsOf(gate), mints) }

  /**
   The agent went through the waits and offers of the certificates that were written, all of them if
   the run succeeded, else some first ones and the wait for the next.
   */
  ghost predicate IsOffered(
    gate: bool, mints: seq<Mint>, all: bool, st0: Agent.State, st: Agent.State, lifetime: Option<nat>)
  {
    if all then st == Agent.Run(st0, Events(gate, mints), lifetime)
    else
      exists n ::
        0 <= n < |mints| && st == Agent.Run(st0, Events(gate, mints[..n]) + [Agent.Tick(mints[n].wait)], lifetime)
  }

  lemma NothingOffered(gate: bool, mints: seq<Mint>, st: Agent.State, lifetime: Option<nat>)
    ensures st == Agent.Run(st, Events(gate, mints[..0]), lifetime)
  {
    assert mints[..0] == [];
  }

  lemma AllOffered(gate: bool, mints: seq<Mint>, st0: Agent.State, st: Agent.State, lifetime: Option<nat>)
    requires st == Agent.Run(st0, Events(gate, mints), lifetime)
    ensures IsOffered(gate, mints, true, st0, st, lifetime)
  {
  }

  lemma NothingWritten(slots: seq<string>, slot: Option<string>)
    ensures AllInto(slots, slots, slot)
  {
  }

  lemma Waited(gate: bool, mints: seq<Mint>, n: nat, st0: Agent.State, st: Agent.State, after: Agent.State,
               lifetime: Option<nat>)
    requires n < |mints| && st == Agent.Run(st0, Events(gate, mints[..n]), lifetime)
    requires after == Agent.Step(st, Agent.Tick(mints[n].wait), lifetime)
    ensures IsOffered(gate, mints, false, st0, after, lifetime)
  {
    hide Agent.Step, Agent.Run, Events;
    var tick := Agent.Tick(mints[n].wait);
    Agent.RunAppend(st0, Events(gate, mints[..n]), [tick], lifetime);
    Agent.RunOne(st, tick, lifetime);
  }

  lemma Offered(gate: bool, mints: seq<Mint>, n: nat, st0: Agent.State, st: Agent.State, waited: Agent.State,
                after: Agent.State, lifetime: Option<nat>)
    requires n < |mints| && st == Agent.Run(st0, Events(gate, mints[..n]), lifetime)
    requires waited == Agent.Step(st, Agent.Tick(mints[n].wait), lifetime)
    requires after == if gate then Agent.Step(waited, Agent.Offer(mints[n].serial, mints[n].attempt), lifetime)
             else waited
    ensures after == Agent.Run(st0, Events(gate, mints[..n + 1]), lifetime)
  {
    hide Agent.Step, Agent.Run, Flat;
    var tick, offer := Agent.Tick(mints[n].wait), Agent.Offer(mints[n].serial, mints[n].attempt);
    FlatStep(EventsOf(gate), mints, n);
    Agent.RunAppend(st0, Events(gate, mints[..n]), EventsOf(gate)(mints[n]), lifetime);
    Agent.RunOne(st, tick, lifetime);
    if gate {
      assert EventsOf(gate)(mints[n]) == [tick] + [offer];
      Agent.RunAppend(st, [tick], [offer], lifetime);
      Agent.RunOne(waited, offer, lifetime);
    } else {
      assert EventsOf(gate)(mints[n]) == [tick];
    }
  }

  predicate IsAccepted(attempt: Agent.Try) { attempt.Reached? && attempt.reply.Added? }

  predicate HasSerial(mints: seq<Mint>, serial: int) { exists i :: 0 <= i < |mints| && mints[i].serial == serial }

  /** The agent takes every removal seriously and loses no reply. */
  predicate AllDependable(mints: seq<Mint>)
  {
    forall i :: 0 <= i < |mints| ==> Agent.IsDependable(Agent.Offer(mints[i].serial, mints[i].attempt))
  }

  /** What the process remembers is the serial of some certificate offered before, or what it remembered at first. */
  lemma {:induction false} RememberedBefore(mints: seq<Mint>, st0: Agent.State, lifetime: Option<nat>)
    requires Agent.IsStart(st0)
    ensures var cert := Agent.Run(st0, Events(true, mints), lifetime).agentCert;
            cert.Some? ==> HasSerial(mints, cert.value)
  {
    if mints != [] {
      var n := |mints| - 1;
      RememberedBefore(mints[..n], st0, lifetime);
      assert mints[..n + 1] == mints;
      Unrolled(mints, st0, lifetime);
      var before := Agent.Run(st0, Events(true, mints[..n]), lifetime);
      assert HasSerial(mints, mints[n].serial);
      if before.agentCert.Some? && HasSerial(mints[..n], before.agentCert.value) {
        var i :| 0 <= i < n && mints[..n][i].serial == before.agentCert.value;
        assert mints[i].serial == before.agentCert.value;
      }
    }
  }

  lemma Unrolled(mints: seq<Mint>, st0: Agent.State, lifetime: Option<nat>)
    requires mints != []
    ensures var n := |mints| - 1;
            var before := Agent.Run(st0, Events(true, mints[..n]), lifetime);
            var waited := Agent.Step(before, Agent.Tick(mints[n].wait), lifetime);
            Agent.Run(st0, Events(true, mints), lifetime) ==
            Agent.Step(waited, Agent.Offer(mints[n].serial, mints[n].attempt), lifetime)
  {
    hide Agent.Step, Agent.Run, Events;
    var n := |mints| - 1;
    assert mints[..n + 1] == mints;
    var before := Agent.Run(st0, Events(true, mints[..n]), lifetime);
    var waited := Agent.Step(before, Agent.Tick(mints[n].wait), lifetime);
    Offered(true, mints, n, st0, before, waited,
            Agent.Step(waited, Agent.Offer(mints[n].serial, mints[n].attempt), lifetime), lifetime);
  }

  /**
   Files and agent at the end of a run: the remembered certificate is the one in the slot if and only
   if the agent took the last one; and if the agent was dependable throughout, it then holds that one
   and no other of ours.
   */
  ghost predicate IsJoined(
    mints: seq<Mint>, st0: Agent.State, st: Agent.State, lifetime: Option<nat>, fs: Fs, secret: string)
  {
    mints != [] && Agent.IsStart(st0) && lifetime.Some? && lifetime.value >= 1 ==>
      var last := mints[|mints| - 1];
      && CertPath(secret) in fs && fs[CertPath(secret)].content.Certificate?
      && var serial := fs[CertPath(secret)].content.serial;
         && (!HasSerial(mints[..|mints| - 1], serial) ==> (st.agentCert == Some(serial) <==> IsAccepted(last.attempt)))
         && (IsAccepted(last.attempt) && AllDependable(mints) ==>
               && serial in st.held && st.held[serial].ours
               && forall cert <- st.held :: st.held[cert].ours ==> cert == serial)
  }

  lemma Joined(
    destination: Destination, token: Token, secret: string, mints: seq<Mint>, fs0: Fs, config0: Option<string>, fs: Fs,
    config: Option<string>, st0: Agent.State, st: Agent.State, lifetime: Option<nat>)
    requires mints != [] && st == Agent.Run(st0, Events(true, mints), lifetime)
    requires IsDone(destination, token, secret, mints[|mints| - 1], fs0, config0, fs, config)
    ensures IsJoined(mints, st0, st, lifetime, fs, secret)
  {
    if Agent.IsStart(st0) && lifetime.Some? && lifetime.value >= 1 {
      var n := |mints| - 1;
      var last := mints[n];
      LastIsWritten(fs0, secret, last, CommentOf(destination, token));
      RememberedBefore(mints[..n], st0, lifetime);
      Unrolled(mints, st0, lifetime);
      if AllDependable(mints) {
        hide Agent.Step, Agent.Run, IsDone, Agent.HoldsAtMostOne;
        EventsAreDependable(mints);
        Agent.NeverMoreThanOne(st0, Events(true, mints), lifetime);
      }
      OfferEnds(mints, st0, st, lifetime);
    }
  }

  lemma LastIsWritten(fs: Fs, secret: string, mint: Mint, comment: string)
    ensures var after := Written(fs, secret, mint, comment);
            CertPath(secret) in after && after[CertPath(secret)].content == Certificate(mint.key, mint.serial, comment)
  {
  }

  /** The last offer decides what is remembered and, if it was taken, held. */
  lemma OfferEnds(mints: seq<Mint>, st0: Agent.State, st: Agent.State, lifetime: Option<nat>)
    requires mints != [] && st == Agent.Run(st0, Events(true, mints), lifetime)
    requires lifetime.Some? && lifetime.value >= 1
    ensures var last := mints[|mints| - 1];
            var before := Agent.Run(st0, Events(true, mints[..|mints| - 1]), lifetime);
            if IsAccepted(last.attempt) then
              st.agentCert == Some(last.serial) && last.serial in st.held && st.held[last.serial].ours
            else st.agentCert == before.agentCert
  {
    Unrolled(mints, st0, lifetime);
    hide Events, Agent.Run;
  }

  lemma {:induction false} EventsAreDependable(mints: seq<Mint>)
    requires AllDependable(mints)
    ensures forall event <- Events(true, mints) :: Agent.IsDependable(event)
  {
    forall event <- Events(true, mints) ensures Agent.IsDependable(event) {
      FlatMember(EventsOf(true), mints, event);
    }
  }

  /** All writes since `slots0` went to one slot. */
  predicate AllInto(slots0: seq<string>, slots: seq<string>, slot: Option<string>)
  {
    slots0 <= slots && forall i :: |slots0| <= i < |slots| ==> slot == Some(slots[i])
  }

  lemma TakenAtStart(destination: Destination, sshDir: string, fs: Fs)
    ensures KeepsTaken(destination, sshDir, fs, fs)
  {
  }

  lemma OnTrackEndsWell(
    destination: Destination, sshDir: string, token: Token, fs0: Fs, config0: Option<string>, fs: Fs,
    config: Option<string>,
    mints: seq<Mint>)
    ensures OnTrack(destination, sshDir, token, fs0, config0, fs, config) ==>
              EndsWell(destination, sshDir, token, fs0, config0, fs, config, mints)
  {
  }

  lemma SameAsFree(fs0: Fs, fs: Fs, secret: string)
    requires SamePair(fs0, fs, secret)
    ensures IsFree(fs0, secret) == IsFree(fs, secret)
  {
  }

  /** A write goes to a free slot, so what is taken stays. */
  lemma StillTaken(destination: Destination, sshDir: string, fs0: Fs, fs: Fs, after: Fs, config: Option<string>,
                   token: Token)
    requires destination.DefaultDir? ==> AreNames(destination.names)
    requires KeepsTaken(destination, sshDir, fs0, fs)
    requires Slot(destination, sshDir, fs, config, token).Some?
    requires SameOutside(fs, after, Slot(destination, sshDir, fs, config, token).value)
    ensures KeepsTaken(destination, sshDir, fs0, after)
  {
    hide IsFree, SameOutside, PathIn;
    if destination.DefaultDir? {
      var names := destination.names;
      var secret := FirstFree(fs, sshDir, names).value;
      FirstFreeIsFree(fs, sshDir, names);
      var k := FirstFreeIsListed(fs, sshDir, names);
      forall i | 0 <= i < |names| && !IsFree(fs0, PathIn(sshDir, names[i]))
        ensures SamePair(fs0, after, PathIn(sshDir, names[i]))
      {
        var taken := PathIn(sshDir, names[i]);
        SameAsFree(fs0, fs, taken);
        assert taken != secret;
        NotACertPath(sshDir, names[i], secret);
        NotACertPath(sshDir, names[k], taken);
        assert taken == CertPath(taken)[..|taken|] && secret == CertPath(secret)[..|secret|];
        SameOutsideAt(fs, after, secret, taken);
        SameOutsideAt(fs, after, secret, CertPath(taken));
      }
    }
  }

  /** The state after the last of some successful writes: as if it had been the only one. */
  predicate IsDone(
    destination: Destination, token: Token, secret: string, last: Mint, fs0: Fs, config0: Option<string>, fs: Fs,
    config: Option<string>)
  {
    && fs == Written(fs0, secret, last, CommentOf(destination, token))
    && config == ConfigAfter(destination, config0, secret, AllWritten)
  }

  /** The files of a written pair, and where a token's pair is. */
  lemma WhatIsWritten(fs: Fs, secret: string, mint: Mint, comment: string)
    ensures var after, cert := Written(fs, secret, mint, comment), secret + "-cert.pub";
            && after.Keys == fs.Keys + {secret, cert}
            && after[secret].content == SecretKey(mint.key) && (secret !in fs ==> after[secret].readable)
            && after[cert].content == Certificate(mint.key, mint.serial, comment)
            && (cert !in fs ==> after[cert].readable)
            && (secret in fs ==> after[secret].readable == fs[secret].readable)
            && (cert in fs ==> after[cert].readable == fs[cert].readable)
            && forall path <- fs :: path != secret && path != cert ==> after[path] == fs[path]
  {
    assert secret != secret + "-cert.pub";
  }

  /**
   What is on disk when a write fails: nothing new, or what the failing write left, and the key
   before the certificate.
   */
  lemma WhatFailuresLeave(fs: Fs, secret: string, mint: Mint, comment: string)
    ensures var after, cert := FsAfter(fs, secret, mint, comment), secret + "-cert.pub";
            && (mint.io.ConfigFails? ==> after == fs)
            && (mint.io == SecretFails(None) ==> after == fs)
            && (mint.io.SecretFails? && mint.io.left.Some? ==>
                  after.Keys == fs.Keys + {secret} && after[secret].content == mint.io.left.value)
            && (mint.io.CertFails? ==> secret in after && after[secret].content == SecretKey(mint.key))
            && (mint.io == CertFails(None) ==>
               (cert in after <==> cert in fs) && (cert in fs ==> after[cert] == fs[cert]))
            && (mint.io.CertFails? && mint.io.left.Some? ==> cert in after && after[cert].content == mint.io.left.value)
            && (mint.io.AllWritten? ==> after == Written(fs, secret, mint, comment))
            && forall path <- fs :: path != secret && path != cert ==> path in after && after[path] == fs[path]
  {
    assert secret != secret + "-cert.pub";
  }

  /** The config after a write: edited in the opkssh directory if it can be, and left alone elsewhere. */
  lemma WhatConfigBecomes(destination: Destination, config: Option<string>, secret: string, io: Io)
    ensures !destination.OpksshDir? || config == None ==> ConfigAfter(destination, config, secret, io) == config
    ensures destination.OpksshDir? && config.Some? && !io.ConfigFails? ==>
              ConfigAfter(destination, config, secret, io) ==
              Some(if Contains(config.value, secret) then config.value
                   else "IdentityFile " + secret + "\n" + config.value)
    ensures destination.OpksshDir? && config.Some? && io.ConfigFails? ==>
              ConfigAfter(destination, config, secret, io) == if io.text.Some? then io.text else config
  {
    hide Contains;
    if config.Some? {
      SshConfig.WhatIsEdited(config.value, secret);
    }
  }

  lemma WhereTokensGo(destination: Destination, sshDir: string, fs: Fs, config: Option<string>, token: Token)
    ensures destination.Explicit? ==>
              Slot(destination, sshDir, fs, config, token) == Some(destination.path) &&
              CommentOf(destination, token) == "openpubkey"
    ensures destination.DefaultDir? ==>
              Slot(destination, sshDir, fs, config, token) == FirstFree(fs, sshDir, destination.names) &&
              CommentOf(destination, token) == "openpubkey"
    ensures destination.OpksshDir? ==>
              && (Slot(destination, sshDir, fs, config, token) == None <==> config == None)
              && (config.Some? ==>
                    Slot(destination, sshDir, fs, config, token) ==
                    Some(sshDir + "/opkssh/" + KeyName(token.issuer, token.audience)))
  {
    hide KeyName;
    assert PathIn(PathIn(sshDir, "opkssh"), KeyName(token.issuer, token.audience)) ==
           sshDir + "/opkssh/" + KeyName(token.issuer, token.audience);
  }

  /** The comment in the opkssh directory: issuer and audience of the token, or the word unknown. */
  lemma WhatIsNoted(issuer: string, audience: string)
    requires audience != "" && !IsSpace(audience[|audience| - 1])
    ensures CommentOf(OpksshDir, Token(Some(issuer), Some(audience))) == "openpubkey: " + issuer + " " + audience
    ensures CommentOf(OpksshDir, Token(None, Some(audience))) == "openpubkey: unknown " + audience
    ensures CommentOf(OpksshDir, Token(Some(issuer), None)) == "openpubkey: " + issuer + " unknown"
  {
    LettersAreVisible();
    hide IsSpace, TrimSpace;
    NoteIsTrimmed(issuer, audience);
    NoteIsTrimmed("unknown", audience);
    NoteIsTrimmed(issuer, "unknown");
    assert "openpubkey: " + "unknown" + " " + audience == "openpubkey: unknown " + audience;
    assert "openpubkey: " + issuer + " " + "unknown" == "openpubkey: " + issuer + " unknown";
  }

  lemma NoteIsTrimmed(issuer: string, audience: string)
    requires audience != "" && !IsSpace(audience[|audience| - 1])
    ensures TrimSpace("openpubkey: " + issuer + " " + audience) == "openpubkey: " + issuer + " " + audience
  {
    LettersAreVisible();
    hide IsSpace, TrimSpace;
    TrimSpaceOfTrimmed("openpubkey: " + issuer + " " + audience);
  }

  lemma LettersAreVisible()
    ensures !IsSpace('o') && !IsSpace('n')
  {
  }

  /** A write replaces what the write before it left. */
  lemma DoneTwice(
    destination: Destination, token: Token, secret: string, first: Mint, second: Mint, fs0: Fs, config0: Option<string>,
    fs1: Fs, config1: Option<string>, fs: Fs, config: Option<string>)
    requires IsDone(destination, token, secret, first, fs0, config0, fs1, config1)
    requires IsDone(destination, token, secret, second, fs1, config1, fs, config)
    ensures IsDone(destination, token, secret, second, fs0, config0, fs, config)
  {
    hide CommentOf, SshConfig.WithKey, Written;
    WrittenTwice(fs0, secret, first, second, CommentOf(destination, token));
    if destination.OpksshDir? && config0.Some? {
      WithKeyTwice(config0.value, secret);
    }
  }

  lemma WrittenTwice(fs: Fs, secret: string, first: Mint, second: Mint, comment: string)
    ensures Written(Written(fs, secret, first, comment), secret, second, comment) ==
            Written(fs, secret, second, comment)
  {
    hide Put, CertPath;
    var cert := CertPath(secret);
    var a, b := Put(fs, secret, SecretKey(first.key)), Certificate(first.key, first.serial, comment);
    assert secret != cert by { CertPathDiffers(secret); }
    PutSwap(a, cert, secret, b, SecretKey(second.key));
    PutTwice(fs, secret, SecretKey(first.key), SecretKey(second.key));
    PutTwice(Put(fs, secret, SecretKey(second.key)), cert, b, Certificate(second.key, second.serial, comment));
  }

  lemma CertPathDiffers(secret: string)
    ensures secret != CertPath(secret)
  {
  }

  lemma PutTwice(fs: Fs, path: string, first: Content, second: Content)
    ensures Put(Put(fs, path, first), path, second) == Put(fs, path, second)
  {
  }

  lemma PutSwap(fs: Fs, a: string, b: string, first: Content, second: Content)
    requires a != b
    ensures Put(Put(fs, a, first), b, second) == Put(Put(fs, b, second), a, first)
  {
  }

  /**
   Two tokens with a key each in the opkssh directory: a login with one leaves the pair of the other
   as it is, whatever the files, if and only if the key names are apart.
   */
  lemma OtherTokenKeepsPair(sshDir: string, token: Token, other: Token, mint: Mint)
    ensures var p, q := OpksshPath(sshDir, token), OpksshPath(sshDir, other);
            AlwaysKeepsPair(p, q, mint) <==>
            AreApart(KeyName(token.issuer, token.audience), KeyName(other.issuer, other.audience))
  {
    hide KeyName;
    var p, q := OpksshPath(sshDir, token), OpksshPath(sshDir, other);
    var a, b := KeyName(token.issuer, token.audience), KeyName(other.issuer, other.audience);
    PairsAreDisjoint(PathIn(sshDir, "opkssh"), a, b);
    assert {p, CertPath(p)} !! {q, CertPath(q)} <==> AreApart(a, b);
    hide OpksshPath, CertPath, PathIn;
    hide SamePair;
    if {p, CertPath(p)} !! {q, CertPath(q)} {
      forall fs: Fs, comment ensures SamePair(fs, Written(fs, q, mint, comment), p) {
        WrittenElsewhere(fs, p, q, mint, comment);
      }
    } else {
      WrittenFromNothing(p, q, mint);
    }
  }

  /** Whatever the files, writing a pair at `q` leaves the pair at `p` as it is. */
  ghost predicate AlwaysKeepsPair(p: string, q: string, mint: Mint)
  {
    forall fs: Fs, comment: string :: SamePair(fs, Written(fs, q, mint, comment), p)
  }

  lemma WrittenElsewhere(fs: Fs, p: string, q: string, mint: Mint, comment: string)
    requires {p, CertPath(p)} !! {q, CertPath(q)}
    ensures SamePair(fs, Written(fs, q, mint, comment), p)
  {
    hide CertPath;
  }

  lemma WrittenFromNothing(p: string, q: string, mint: Mint)
    requires !({p, CertPath(p)} !! {q, CertPath(q)})
    ensures !AlwaysKeepsPair(p, q, mint)
  {
    hide CertPath;
    var none: Fs := map[];
    var after := Written(none, q, mint, "");
    assert after.Keys == {q, CertPath(q)};
    assert !SamePair(none, after, p);
  }

  /** The key of one token can be the certificate of another. */
  lemma KeyOverwritesCertificate(sshDir: string)
    ensures var token, other := Token(Some("https://a"), Some("b")), Token(Some("https://a"), Some("b-cert.pub"));
            OpksshPath(sshDir, other) == CertPath(OpksshPath(sshDir, token))
  {
    hide KeyName, CutPrefix, Sanitize, CutBytes;
    KeyNameOf("a", "b");
    KeyNameOf("a", "b-cert.pub");
    assert "https://" + "a" == "https://a" && "a" + "-" + "b-cert.pub" == CertPath("a-b") && "a" + "-" + "b" == "a-b";
    CertPathIn(PathIn(sshDir, "opkssh"), "a-b");
  }

  /** A failing write of the config left this text. */
  predicate LeavesText(mints: seq<Mint>, config: Option<string>)
  {
    config.Some? && exists i :: 0 <= i < |mints| && mints[i].io == ConfigFails(config)
  }

  /**
   Whenever a run ends: the files outside the slot's pair are as they were, and the config is edited
   at most once, unless a failing write spoiled it.
   */
  ghost predicate EndsWell(
    destination: Destination, sshDir: string, token: Token, fs0: Fs, config0: Option<string>, fs: Fs,
    config: Option<string>,
    mints: seq<Mint>)
  {
    var slot := Slot(destination, sshDir, fs0, config0, token);
    if slot == None then fs == fs0 && config == config0
    else && SameOutside(fs0, fs, slot.value)
         && (|| config == config0
             || (destination.OpksshDir? && config0.Some? &&
                config == Some(SshConfig.WithKey(config0.value, slot.value)))
             || (destination.OpksshDir? && LeavesText(mints, config)))
  }

  /**
   What a run leaves: other files as they were, and the config as it was, edited once, or spoiled by
   a failing write.
   */
  lemma WhatRunsLeave(
    destination: Destination, sshDir: string, token: Token, fs0: Fs, config0: Option<string>, fs: Fs,
    config: Option<string>, mints: seq<Mint>, path: string)
    requires EndsWell(destination, sshDir, token, fs0, config0, fs, config, mints)
    ensures var slot := Slot(destination, sshDir, fs0, config0, token);
            && (slot == None || (path != slot.value && path != slot.value + "-cert.pub") ==>
                  (path in fs <==> path in fs0) && (path in fs ==> fs[path] == fs0[path]))
            && (slot == None || !destination.OpksshDir? ==> config == config0)
            && (slot.Some? && destination.OpksshDir? ==>
                  || config == config0
                  || (config0.Some? && !Contains(config0.value, slot.value) &&
                      config == Some("IdentityFile " + slot.value + "\n" + config0.value))
                  || exists i :: 0 <= i < |mints| && mints[i].io == ConfigFails(config))
  {
    hide Slot, Contains, SameOutside, SshConfig.WithKey;
    var slot := Slot(destination, sshDir, fs0, config0, token);
    if slot.Some? {
      if path != slot.value && path != slot.value + "-cert.pub" {
        SameOutsideAt(fs0, fs, slot.value, path);
      }
      if config0.Some? {
        SshConfig.WhatIsEdited(config0.value, slot.value);
      }
    }
  }

  /** What a successful run leaves in the slot and in the config. */
  lemma WhatIsDone(
    destination: Destination, token: Token, secret: string, last: Mint, fs0: Fs, config0: Option<string>, fs: Fs,
    config: Option<string>)
    requires IsDone(destination, token, secret, last, fs0, config0, fs, config)
    ensures var cert := secret + "-cert.pub";
            && fs.Keys == fs0.Keys + {secret, cert}
            && fs[secret].content == SecretKey(last.key)
            && fs[cert].content == Certificate(last.key, last.serial, CommentOf(destination, token))
            && (forall path <- fs0 :: path != secret && path != cert ==> fs[path] == fs0[path])
            && (!destination.OpksshDir? || config0 == None ==> config == config0)
            && (destination.OpksshDir? && config0.Some? ==>
                  config == Some(if Contains(config0.value, secret) then config0.value
                                 else "IdentityFile " + secret + "\n" + config0.value))
  {
    hide Contains, CommentOf, Written, ConfigAfter;
    WhatIsWritten(fs0, secret, last, CommentOf(destination, token));
    WhatConfigBecomes(destination, config0, secret, AllWritten);
  }

  /** What a joined end means: which certificate is remembered, and what a dependable agent holds. */
  lemma WhatIsRemembered(
    mints: seq<Mint>, st0: Agent.State, st: Agent.State, lifetime: Option<nat>, fs: Fs, secret: string)
    requires IsJoined(mints, st0, st, lifetime, fs, secret)
    requires mints != [] && lifetime.Some? && lifetime.value >= 1
    requires st0.agentCert == None && forall cert <- st0.held :: !st0.held[cert].ours
    ensures var path := secret + "-cert.pub";
            && path in fs && fs[path].content.Certificate?
            && var serial := fs[path].content.serial;
               var last := mints[|mints| - 1].attempt;
               && ((forall i :: 0 <= i < |mints| - 1 ==> mints[i].serial != serial) ==>
                     (st.agentCert == Some(serial) <==> last.Reached? && last.reply.Added?))
               && (last.Reached? && last.reply.Added? &&
                   (forall i :: 0 <= i < |mints| ==>
                      (mints[i].attempt.Reached? ==>
                         mints[i].attempt.removeWorks && !mints[i].attempt.reply.LostReply?)) ==>
                     serial in st.held && forall cert <- st.held :: st.held[cert].ours ==> cert == serial)
  {
  }

  lemma EndsWellAfterFailure(
    destination: Destination, sshDir: string, token: Token, fs0: Fs, config0: Option<string>, fs: Fs,
    config: Option<string>,
    after: Fs, edited: Option<string>, mint: Mint, mints: seq<Mint>)
    requires OnTrack(destination, sshDir, token, fs0, config0, fs, config) && mint in mints
    requires var slot := Slot(destination, sshDir, fs, config, token);
             if slot == None then after == fs && edited == config
             else SameOutside(fs, after, slot.value) && edited == ConfigAfter(destination, config, slot.value, mint.io)
    ensures EndsWell(destination, sshDir, token, fs0, config0, after, edited, mints)
  {
    var slot := Slot(destination, sshDir, fs, config, token);
    if slot.Some? {
      hide Slot;
      SameOutsideTwice(fs0, fs, after, slot.value);
      if destination.OpksshDir? && config0.Some? {
        WithKeyTwice(config0.value, slot.value);
      }
    }
  }

  /**
   The next write finds the slot of the first one exactly if the certificate file there was not left
   behind unreadable.
   */
  lemma RefreshFindsSlot(fs: Fs, dir: string, names: seq<string>, mint: Mint)
    requires AreNames(names) && FirstFree(fs, dir, names).Some?
    ensures var secret := FirstFree(fs, dir, names).value;
            FirstFree(Written(fs, secret, mint, "openpubkey"), dir, names) == Some(secret) <==> !IsBlindSpot(fs, secret)
  {
    var secret := FirstFree(fs, dir, names).value;
    FirstFreeIsFree(fs, dir, names);
    WrittenSlot(fs, secret, mint);
    hide IsFree, AreNames, IsBlindSpot;
    WriteStaysInside(fs, secret, mint.(io := AllWritten));
    SlotIsStable(fs, Written(fs, secret, mint, "openpubkey"), dir, names);
  }

  /** Between two writes: the files and the config are as they should be, and the next write finds the same slot. */
  ghost predicate OnTrack(
    destination: Destination, sshDir: string, token: Token, fs0: Fs, config0: Option<string>, fs: Fs,
    config: Option<string>)
  {
    var slot := Slot(destination, sshDir, fs0, config0, token);
    && Slot(destination, sshDir, fs, config, token) == slot
    && EndsWell(destination, sshDir, token, fs0, config0, fs, config, [])
    && (slot.Some? && destination.DefaultDir? ==> !IsBlindSpot(fs, slot.value) && IsFree(fs, slot.value))
  }

  lemma WithKeyTwice(config: string, path: string)
    ensures SshConfig.WithKey(SshConfig.WithKey(config, path), path) == SshConfig.WithKey(config, path)
  {
    var once := SshConfig.WithKey(config, path);
    if once != config {
      var id := SshConfig.IdentityLine(path);
      assert once[|id| - |path|..|id| - |path| + |path|] == path;
      ContainsAt(once, path, |id| - |path|);
    }
  }

  lemma SameOutsideTwice(a: Fs, b: Fs, c: Fs, secret: string)
    requires SameOutside(a, b, secret) && SameOutside(b, c, secret)
    ensures SameOutside(a, c, secret)
  {
  }

  lemma StartOnTrack(destination: Destination, sshDir: string, token: Token, fs: Fs, config: Option<string>)
    requires IsSteady(destination, sshDir, fs)
    ensures OnTrack(destination, sshDir, token, fs, config, fs, config)
  {
    if destination.DefaultDir? && FirstFree(fs, sshDir, destination.names).Some? {
      FirstFreeIsFree(fs, sshDir, destination.names);
    }
  }

  /** A successful write keeps the run on track. */
  lemma StaysOnTrack(
    destination: Destination, sshDir: string, token: Token, fs0: Fs, config0: Option<string>, fs: Fs,
    config: Option<string>,
    mint: Mint)
    requires destination.DefaultDir? ==> AreNames(destination.names)
    requires OnTrack(destination, sshDir, token, fs0, config0, fs, config)
    requires Slot(destination, sshDir, fs, config, token).Some?
    ensures var secret := Slot(destination, sshDir, fs, config, token).value;
            OnTrack(destination, sshDir, token, fs0, config0, Written(fs, secret, mint, CommentOf(destination, token)),
                    ConfigAfter(destination, config, secret, AllWritten))
  {
    SlotOf(destination, sshDir, fs0, config0, token);
    SlotOf(destination, sshDir, fs, config, token);
    var secret := Slot(destination, sshDir, fs, config, token).value;
    var after := Written(fs, secret, mint, CommentOf(destination, token));
    var edited := ConfigAfter(destination, config, secret, AllWritten);
    SlotOf(destination, sshDir, after, edited, token);
    WriteStaysInside(fs, secret, mint.(io := AllWritten));
    assert SameOutside(fs, after, secret);
    SameOutsideTwice(fs0, fs, after, secret);
    if destination.OpksshDir? {
      WithKeyTwice(config0.value, secret);
    }
    if destination.DefaultDir? {
      WrittenSlot(fs, secret, mint);
      SlotIsStable(fs, after, sshDir, destination.names);
      assert secret != CertPath(secret) && secret in after;
    }
  }

  lemma SlotOf(destination: Destination, sshDir: string, fs: Fs, config: Option<string>, token: Token)
    ensures var slot := Slot(destination, sshDir, fs, config, token);
            && (destination.Explicit? ==> slot == Some(destination.path))
            && (destination.OpksshDir? ==> slot == if config == None then None else Some(OpksshPath(sshDir, token)))
            && (destination.DefaultDir? ==> slot == FirstFree(fs, sshDir, destination.names))
    ensures !destination.OpksshDir? ==> CommentOf(destination, token) == "openpubkey"
  {
  }

  lemma WriteStaysInside(fs: Fs, secret: string, mint: Mint)
    ensures forall comment, io :: SameOutside(fs, FsAfter(fs, secret, mint.(io := io), comment), secret)
    ensures forall comment :: SameOutside(fs, FsAfter(fs, secret, mint, comment), secret)
  {
  }
}
