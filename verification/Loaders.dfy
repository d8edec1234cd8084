/**
 The policy that a login is checked against (policy/policyloader.go, policy/multipolicyloader.go):
 the system file and the user's own file, the latter reduced to rows for that user.
 */
module Loaders {
  import opened Text
  import Policy
  import Enforcer

  /** The entry reduced to one principal, or nothing if it does not name it. */
  function OnlyFor(username: string): Policy.User -> seq<Policy.User>
  {
    (user: Policy.User) =>
      if username in user.principals then [Policy.User(user.identity, [username], user.issuer)] else []
  }

  function HomeUsers(content: string, username: string): seq<Policy.User>
  {
    Flat(OnlyFor(username), Policy.UsersOf(content))
  }

  /** The bytes that are read: the file itself, else the answer of the one optional loader. */
  function HomeBytes(file: Option<string>, fallbacks: seq<Option<string>>): Option<string>
  {
    if file.Some? then file else if |fallbacks| == 1 then fallbacks[0] else None
  }

  /** `path` is none if the user is unknown or has no home directory. */
  method LoadHomePolicy(path: Option<string>, file: Option<string>, fallbacks: seq<Option<string>>,
                        username: string, skipInvalid: bool)
    returns (policy: Option<Policy.Policy>)
    ensures policy.Some? <==> path.Some? && HomeBytes(file, fallbacks).Some?
    ensures policy.Some? <==> path.Some? && (file.Some? || (|fallbacks| == 1 && fallbacks[0].Some?))
    ensures policy.Some? ==> HomeBytes(file, fallbacks) == if file.Some? then file else fallbacks[0]
    ensures policy.Some? ==> fresh(policy.value)
    ensures policy.Some? ==>
              var bytes := HomeBytes(file, fallbacks).value;
              policy.value.users == if skipInvalid then HomeUsers(bytes, username) else Policy.UsersOf(bytes)
  {
    hide Policy.UsersOf;
    if path == None {
      return None;
    }
    var bytes := file;
    if bytes == None {
      if |fallbacks| != 1 {
        return None;
      }
      bytes := fallbacks[0];
      if bytes == None {
        return None;
      }
    }
    var read, _ := Policy.FromTable(bytes.value);
    if !skipInvalid {
      return Some(read);
    }
    var users := read.users;
    var valid := new Policy.Policy();
    for i := 0 to |users|
      invariant fresh(valid) && valid.users == Flat(OnlyFor(username), users[..i])
    {
      FlatStep(OnlyFor(username), users, i);
      if username in users[i].principals {
        valid.users := valid.users + [Policy.User(users[i].identity, [username], users[i].issuer)];
      }
    }
    assert users[..|users|] == users;
    return Some(valid);
  }

  /** The merged entries, or none if neither file can be read. */
  function MergedUsers(system: Option<string>, home: Option<string>, username: string): Option<seq<Policy.User>>
  {
    if system == None && home == None then None
    else Some((if system.Some? then Policy.UsersOf(system.value) else []) +
              (if home.Some? then HomeUsers(home.value, username) else []))
  }

  /** The files that a merged policy was read from. */
  function SourcePaths(system: Option<string>, systemPath: string, home: Option<string>,
                       path: Option<string>): seq<string>
  {
    (if system.Some? then [systemPath] else []) + (if home.Some? && path.Some? then [path.value] else [])
  }

  method Load(system: Option<string>, path: Option<string>, file: Option<string>, script: Option<string>,
              username: string, systemPath: string)
    returns (policy: Option<Policy.Policy>, source: string)
    ensures var home := if path.Some? then HomeBytes(file, [script]) else None;
            && (policy.Some? <==> MergedUsers(system, home, username).Some?)
            && (policy.Some? ==> fresh(policy.value))
            && (policy.Some? ==> policy.value.users == MergedUsers(system, home, username).value)
            && (policy.Some? ==>
                  var first := if system.Some? then Policy.UsersOf(system.value) else [];
                  var second := if home.Some? then HomeUsers(home.value, username) else [];
                  policy.value.users == first + second)
            && source == Join(SourcePaths(system, systemPath, home, path), ", ")
            && (policy.Some? <==> system.Some? || home.Some?)
            && source == (if system.Some? && home.Some? then systemPath + ", " + path.value
                          else if system.Some? then systemPath else if home.Some? then path.value else "")
  {
    hide Policy.UsersOf, Policy.ProblemsOf, HomeUsers, Join, Flat;
    NothingToJoin(", ");
    var merged := new Policy.Policy();
    var readPaths: seq<string> := [];
    var user := LoadHomePolicy(path, file, [script], username, true);
    ghost var home := if path.Some? then HomeBytes(file, [script]) else None;
    if system == None && user == None {
      assert SourcePaths(system, systemPath, home, path) == [];
      return None, "";
    }
    hide HomeBytes;
    if system.Some? {
      var root, _ := Policy.FromTable(system.value);
      merged.users := merged.users + root.users;
      readPaths := readPaths + [systemPath];
    }
    assert merged.users == (if system.Some? then Policy.UsersOf(system.value) else []);
    if user.Some? {
      merged.users := merged.users + user.value.users;
      readPaths := readPaths + [path.value];
    }
    assert readPaths == SourcePaths(system, systemPath, home, path);
    JoinedPaths(if system.Some? then Some(systemPath) else None, if home.Some? then path else None);
    assert merged.users == MergedUsers(system, home, username).value;
    return Some(merged), Join(readPaths, ", ");
  }

  lemma JoinedPaths(a: Option<string>, b: Option<string>)
    ensures Join((if a.Some? then [a.value] else []) + (if b.Some? then [b.value] else []), ", ") ==
            if a.Some? && b.Some? then a.value + ", " + b.value
            else if a.Some? then a.value else if b.Some? then b.value else ""
  {
    if a.Some? && b.Some? {
      assert ([a.value] + [b.value])[1..] == [b.value];
      assert Join([b.value], ", ") == b.value;
    } else if a.Some? {
      assert [a.value] + [] == [a.value];
    } else if b.Some? {
      assert [] + [b.value] == [b.value];
    }
  }

  lemma NothingToJoin(sep: string)
    ensures Join([], sep) == ""
  {
  }

  // ---------------------------------------------------------------- what a home file can grant

  /** Every row kept from a home file names the user alone and comes from a row of the file. */
  lemma HomeRow(content: string, username: string, row: Policy.User)
    ensures row in HomeUsers(content, username) <==>
            row.principals == [username] &&
            exists user <- Policy.UsersOf(content) ::
              username in user.principals && user.identity == row.identity && user.issuer == row.issuer
  {
    hide Policy.UsersOf;
    var users := Policy.UsersOf(content);
    if row in HomeUsers(content, username) {
      FlatMember(OnlyFor(username), users, row);
      var user :| user in users && row in OnlyFor(username)(user);
      assert username in user.principals && user.identity == row.identity && user.issuer == row.issuer;
    }
    if row.principals == [username] {
      forall user <- users | username in user.principals && user.identity == row.identity && user.issuer == row.issuer
        ensures row in HomeUsers(content, username)
      {
        assert row == Policy.User(user.identity, [username], user.issuer);
        FlatHas(OnlyFor(username), users, user, row);
      }
    }
  }

  /** A home file grants its user what its own rows grant that user, and grants nobody else anything. */
  lemma HomeAllows(lib: Enforcer.Library, claims: Enforcer.Claims, issuer: string, info: Enforcer.UserInfo,
                   principal: string, content: string, username: string)
    ensures Enforcer.PolicyAllows(lib, claims, issuer, info, principal, HomeUsers(content, username)) <==>
            principal == username &&
            Enforcer.PolicyAllows(lib, claims, issuer, info, username, Policy.UsersOf(content))
  {
    hide Policy.UsersOf, HomeUsers, Enforcer.ValidateClaim;
    var home, users := HomeUsers(content, username), Policy.UsersOf(content);
    if Enforcer.PolicyAllows(lib, claims, issuer, info, principal, home) {
      var row :| row in home && Enforcer.RowAllows(lib, claims, issuer, info, principal, row);
      HomeRow(content, username, row);
      var user :| user in users && username in user.principals && user.identity == row.identity &&
          user.issuer == row.issuer;
      assert Enforcer.RowAllows(lib, claims, issuer, info, username, user);
    }
    if principal == username && Enforcer.PolicyAllows(lib, claims, issuer, info, username, users) {
      var user :| user in users && Enforcer.RowAllows(lib, claims, issuer, info, username, user);
      var row := Policy.User(user.identity, [username], user.issuer);
      HomeRow(content, username, row);
      assert Enforcer.RowAllows(lib, claims, issuer, info, principal, row);
    }
  }

  /**
   Home policy containment: without a plugin's word, a principal other than the owner of the home
   file is granted by the merged policy only if the system file alone grants it.
   */
  lemma HomeContainment(lib: Enforcer.Library, r: Enforcer.Request, system: Option<string>, home: Option<string>,
                        username: string)
    requires r.users == MergedUsers(system, home, username)
    requires r.principal != username && !Enforcer.PluginAllows(r)
    ensures Enforcer.ShouldGrant(lib, r) <==>
            system.Some? && Enforcer.ShouldGrant(lib, r.(users := Some(Policy.UsersOf(system.value))))
  {
    hide Policy.UsersOf, HomeUsers, Enforcer.RowAllows, Enforcer.EqualFold;
    if r.users.Some? && r.claims.Some? && r.issuer.Some? {
      if home.Some? {
        HomeAllows(lib, r.claims.value, r.issuer.value, r.info, r.principal, home.value, username);
      }
      var a := if system.Some? then Policy.UsersOf(system.value) else [];
      var b := if home.Some? then HomeUsers(home.value, username) else [];
      Enforcer.MergedDecision(lib, r, a, b);
    }
  }

  /**
   The merged policy is the system file or, for the owner of the home file, the home file: beside the
   gates and the plugins a login is granted if and only if one of the two grants it.
   */
  lemma EitherFileGrants(lib: Enforcer.Library, r: Enforcer.Request, system: Option<string>, home: Option<string>,
                         username: string)
    requires r.users == MergedUsers(system, home, username)
    ensures Enforcer.PolicyGrants(lib, r) <==>
            || (system.Some? && Enforcer.PolicyGrants(lib, r.(users := Some(Policy.UsersOf(system.value)))))
            || (home.Some? && r.principal == username &&
                Enforcer.PolicyGrants(lib, r.(users := Some(Policy.UsersOf(home.value)))))
  {
    hide Policy.UsersOf, HomeUsers, Enforcer.RowAllows;
    if r.claims.Some? && r.issuer.Some? {
      var claims, issuer := r.claims.value, r.issuer.value;
      if home.Some? {
        HomeAllows(lib, claims, issuer, r.info, r.principal, home.value, username);
      }
    }
  }

  /**
   From the add command to the decision: once an add of an email row that keeps the grants is on disk, a token of
   that issuer with that email is granted the principal, unless a deny list names it or the
   plugin run panics.
   */
  lemma AddedEmailIsGranted(lib: Enforcer.Library, r: Enforcer.Request, content: string, identity: string)
    requires Enforcer.IsReadable(r) && !Enforcer.IsDeniedEmail(lib, r) && !Enforcer.IsDeniedUser(lib, r)
    requires Enforcer.InfoFits(r.claims.value, r.info)
    requires var users := Policy.UsersOf(content);
             Policy.KeepsGrants(Policy.RowsOf(Policy.Added(users, r.principal, identity, r.issuer.value)))
    requires Enforcer.EqualFold(lib, r.claims.value.email, identity)
    requires !HasPrefix(r.claims.value.email, Enforcer.OIDC_WILDCARD_EMAIL)
    requires !HasPrefix(identity, Enforcer.OIDC_CLAIMS) && !Enforcer.IsReserved(lib, identity)
    requires r.users == Some(Policy.UsersOf(Policy.AddToFile(content, r.principal, identity, r.issuer.value)))
    ensures Enforcer.ShouldGrant(lib, r) <==> !r.plugins.Panic?
  {
    hide Policy.UsersOf, Policy.RowsOf, Policy.KeepsGrants, Policy.Added, Policy.AddToFile, Enforcer.EqualFold,
         Enforcer.IsReserved;
    var grant := [r.principal, identity, r.issuer.value];
    NewGrantNamesAnIdentity(Policy.UsersOf(content), grant);
    Policy.AddThroughFile(content, r.principal, identity, r.issuer.value);
    var users := r.users.value;
    assert grant in Policy.Grants(users);
    Policy.RowsOfMember(users, grant);
    var i :| 0 <= i < |users| && Policy.Matches(users[i], identity, r.issuer.value) &&
        r.principal in users[i].principals;
    assert Enforcer.RowAllows(lib, r.claims.value, r.issuer.value, r.info, r.principal, users[i]);
  }

  lemma NewGrantNamesAnIdentity(users: seq<Policy.User>, grant: seq<string>)
    requires |grant| == 3 && Policy.KeepsGrants(Policy.RowsOf(Policy.Added(users, grant[0], grant[1], grant[2])))
    ensures Policy.IsGrant(grant)
  {
    hide Policy.Added, Policy.RowsOf;
    Policy.AddedGrants(users, grant[0], grant[1], grant[2]);
    assert grant == [grant[0], grant[1], grant[2]];
    var rows := Policy.RowsOf(Policy.Added(users, grant[0], grant[1], grant[2]));
    assert grant in rows;
  }
}
