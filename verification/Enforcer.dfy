/**
 The authorization decision (policy/enforcer.go): claims, deny lists, plugins and policy rows.
 Case folding, lower-casing and glob matching are library functions and enter as parameters.
 */
module Enforcer {
  import opened Text
  import Policy
  import Plugins

  datatype Claims = Claims(email: string, sub: string, extra: map<string, seq<string>>)

  datatype UserInfo = NoUserInfo | UnreadableInfo | UserInfo(claims: Claims)

  datatype DenyList = DenyList(emails: seq<string>, users: seq<string>)

  /** Simple case folding of a character, strings.ToLower and path.Match (none if the pattern is bad). */
  datatype Library = Library(fold: char -> char, lower: string -> string, glob: (string, string) -> Option<bool>)

  const OIDC_CLAIMS := "oidc:"
  const OIDC_WILDCARD_EMAIL := "oidc-match-end:email:"
  const REPO_CLAIM := "repo:"

  /** ASCII characters other than letters, which fold to nothing but themselves. */
  predicate IsAsciiMark(c: char) { c < '\U{80}' && !('a' <= c <= 'z') && !('A' <= c <= 'Z') }

  predicate SameFold(lib: Library, c: char, d: char)
  {
    c == d || (!IsAsciiMark(c) && !IsAsciiMark(d) && lib.fold(c) == lib.fold(d))
  }

  /** strings.EqualFold. */
  predicate EqualFold(lib: Library, s: string, t: string)
  {
    |s| == |t| && forall i :: 0 <= i < |s| ==> SameFold(lib, s[i], t[i])
  }

  // ---------------------------------------------------------------- sections

  /** The splitter between two characters: inside quotes or not, the section under way, the sections done. */
  datatype Cutter = Cutter(quoted: bool, current: string, done: seq<string>)

  const FRESH := Cutter(false, "", [])

  function Close(st: Cutter): seq<string>
  {
    if st.current == "" then st.done else st.done + [st.current]
  }

  function Feed(st: Cutter, c: char, sep: char): Cutter
  {
    var quoted := if c == '\"' then !st.quoted else st.quoted;
    if !quoted && c == sep then Cutter(quoted, "", Close(st)) else Cutter(quoted, st.current + [c], st.done)
  }

  function FeedAll(st: Cutter, s: string, sep: char): Cutter
    decreases |s|
  {
    if s == [] then st else FeedAll(Feed(st, s[0], sep), s[1..], sep)
  }

  /** The non-empty stretches between the separators that stand outside double quotes. */
  function Sections(s: string, sep: char): seq<string> { Close(FeedAll(FRESH, s, sep)) }

  lemma {:induction false} FeedAppend(st: Cutter, a: string, b: string, sep: char)
    ensures FeedAll(st, a + b, sep) == FeedAll(FeedAll(st, a, sep), b, sep)
    decreases |a|
  {
    if a == [] {
      assert a + b == b;
    } else {
      assert (a + b)[1..] == a[1..] + b;
      FeedAppend(Feed(st, a[0], sep), a[1..], b, sep);
    }
  }

  lemma FeedOne(st: Cutter, c: char, sep: char)
    ensures FeedAll(st, [c], sep) == Feed(st, c, sep)
  {
    assert FeedAll(Feed(st, c, sep), [c][1..], sep) == Feed(st, c, sep);
  }

  /** strings.FieldsFunc with the predicate that flips a captured flag at every double quote. */
  method EscapedSplit(s: string, sep: char) returns (fields: seq<string>)
    ensures fields == Sections(s, sep)
  {
    hide FeedAll;
    FeedNothing(FRESH, sep);
    var quoted := false;
    var start: int := -1;
    fields := [];
    for i := 0 to |s|
      invariant -1 <= start < i || start == -1
      invariant start >= 0 ==> start < i
      invariant FeedAll(FRESH, s[..i], sep) == Cutter(quoted, if start < 0 then "" else s[start..i], fields)
    {
      FeedPrefix(s, i, sep);
      if s[i] == '\"' {
        quoted := !quoted;
      }
      if !quoted && s[i] == sep {
        if start >= 0 {
          fields := fields + [s[start..i]];
          start := -1;
        }
      } else if start < 0 {
        start := i;
      }
      if start >= 0 {
        SliceGrows(s, start, i);
      }
    }
    assert s[..|s|] == s;
    if start >= 0 {
      fields := fields + [s[start..]];
    }
  }

  lemma FeedPrefix(s: string, i: nat, sep: char)
    requires i < |s|
    ensures FeedAll(FRESH, s[..i + 1], sep) == Feed(FeedAll(FRESH, s[..i], sep), s[i], sep)
  {
    assert s[..i + 1] == s[..i] + [s[i]];
    FeedAppend(FRESH, s[..i], [s[i]], sep);
    FeedOne(FeedAll(FRESH, s[..i], sep), s[i], sep);
  }

  /** Quotes closed, and every separator inside quotes. */
  predicate IsWhole(s: string, sep: char, quoted: bool)
  {
    if s == "" then !quoted
    else
      var next := if s[0] == '\"' then !quoted else quoted;
      (next || s[0] != sep) && IsWhole(s[1..], sep, next)
  }

  lemma {:induction false} FeedWhole(st: Cutter, s: string, sep: char)
    requires IsWhole(s, sep, st.quoted)
    ensures FeedAll(st, s, sep) == Cutter(false, st.current + s, st.done)
    decreases |s|
  {
    if s == "" {
      assert st.current + s == st.current;
    } else {
      FeedWhole(Feed(st, s[0], sep), s[1..], sep);
      assert st.current + [s[0]] + s[1..] == st.current + s;
    }
  }

  lemma FeedFirst(done: seq<string>, first: string, rest: string, sep: char)
    requires sep != '\"' && first != "" && IsWhole(first, sep, false)
    ensures FeedAll(Cutter(false, "", done), first + [sep] + rest, sep) ==
            FeedAll(Cutter(false, "", done + [first]), rest, sep)
  {
    hide FeedAll, IsWhole;
    var st := Cutter(false, "", done);
    FeedWhole(st, first, sep);
    assert "" + first == first;
    FeedAppend(st, first + [sep], rest, sep);
    FeedAppend(st, first, [sep], sep);
    FeedOne(Cutter(false, first, done), sep, sep);
  }

  lemma {:induction false} FeedSections(done: seq<string>, sections: seq<string>, sep: char)
    requires sep != '\"'
    requires forall i :: 0 <= i < |sections| ==> sections[i] != "" && IsWhole(sections[i], sep, false)
    ensures Close(FeedAll(Cutter(false, "", done), Join(sections, [sep]), sep)) == done + sections
    decreases |sections|
  {
    hide FeedAll, IsWhole;
    if sections == [] {
      FeedNothing(Cutter(false, "", done), sep);
      assert done + sections == done;
    } else if |sections| == 1 {
      FeedWhole(Cutter(false, "", done), sections[0], sep);
      assert "" + sections[0] == sections[0];
      assert sections == [sections[0]];
    } else {
      FeedFirst(done, sections[0], Join(sections[1..], [sep]), sep);
      FeedSections(done + [sections[0]], sections[1..], sep);
      assert done + [sections[0]] + sections[1..] == done + sections;
    }
  }

  lemma FeedNothing(st: Cutter, sep: char)
    ensures FeedAll(st, "", sep) == st
  {
  }

  /** Splitting undoes joining, for sections that keep their separators inside quotes. */
  lemma SectionsOfJoin(sections: seq<string>, sep: char)
    requires sep != '\"'
    requires forall i :: 0 <= i < |sections| ==> sections[i] != "" && IsWhole(sections[i], sep, false)
    ensures Sections(Join(sections, [sep]), sep) == sections
  {
    FeedSections([], sections, sep);
    assert [] + sections == sections;
  }

  /** strings.Trim with a double quote as the cut set. */
  function TrimQuotes(s: string): string
    decreases |s|
  {
    if s != "" && s[0] == '\"' then TrimQuotes(s[1..])
    else if s != "" && s[|s| - 1] == '\"' then TrimQuotes(s[..|s| - 1])
    else s
  }

  // ---------------------------------------------------------------- one row against one set of claims

  function Claim(claims: Claims, name: string): seq<string>
  {
    if name in claims.extra then claims.extra[name] else []
  }

  predicate IsReserved(lib: Library, identity: string)
  {
    || EqualFold(lib, identity, OIDC_WILDCARD_EMAIL)
    || EqualFold(lib, identity, OIDC_CLAIMS)
    || EqualFold(lib, identity, REPO_CLAIM)
  }

  /** validateClaim. */
  predicate ValidateClaim(lib: Library, claims: Claims, identity: string)
  {
    if identity == "" || HasPrefix(claims.email, OIDC_WILDCARD_EMAIL) || IsReserved(lib, identity) then false
    else if HasPrefix(identity, OIDC_CLAIMS) then
      var sections := Sections(identity, ':');
      |sections| >= 3 && sections[|sections| - 1] in Claim(claims, TrimQuotes(sections[1]))
    else
      var wildcard :=
        HasPrefix(identity, OIDC_WILDCARD_EMAIL) &&
        HasSuffix(lib.lower(claims.email), lib.lower(identity[|OIDC_WILDCARD_EMAIL|..]));
      || (HasPrefix(identity, REPO_CLAIM) && lib.glob(identity, claims.sub) == Some(true))
      || wildcard || EqualFold(lib, claims.email, identity)
      || claims.sub == identity
  }

  lemma {:induction false} WholeInQuotes(claim: string, sep: char)
    requires '\"' !in claim
    ensures IsWhole(claim + "\"", sep, true) || sep == '\"'
    decreases |claim|
  {
    var s := claim + "\"";
    if claim != "" {
      assert s[1..] == claim[1..] + "\"";
      WholeInQuotes(claim[1..], sep);
    } else {
      assert s[1..] == "";
    }
  }

  lemma {:induction false} WholePlain(s: string, sep: char)
    requires '\"' !in s && sep !in s
    ensures IsWhole(s, sep, false)
  {
    if s != "" {
      WholePlain(s[1..], sep);
    }
  }

  lemma TrimQuotesBack(s: string)
    requires '\"' !in s
    ensures TrimQuotes(s + "\"") == s
  {
    hide TrimQuotes;
    var t := s + "\"";
    if s == "" {
      TrimQuotesFirst(t);
      assert t[1..] == "";
    } else {
      TrimQuotesLast(t);
      assert t[..|t| - 1] == s;
    }
    TrimQuotesNone(s);
  }

  lemma TrimQuotesFirst(s: string)
    requires s != "" && s[0] == '\"'
    ensures TrimQuotes(s) == TrimQuotes(s[1..])
  {
  }

  lemma TrimQuotesLast(s: string)
    requires s != "" && s[0] != '\"' && s[|s| - 1] == '\"'
    ensures TrimQuotes(s) == TrimQuotes(s[..|s| - 1])
  {
  }

  lemma TrimQuotesNone(s: string)
    requires '\"' !in s
    ensures TrimQuotes(s) == s
  {
    assert s != "" ==> s[0] in s && s[|s| - 1] in s;
  }

  lemma TrimQuotesOfQuoted(claim: string)
    requires '\"' !in claim
    ensures TrimQuotes("\"" + claim + "\"") == claim
  {
    hide TrimQuotes;
    var s := "\"" + claim + "\"";
    TrimQuotesFirst(s);
    assert s[1..] == claim + "\"";
    TrimQuotesBack(claim);
  }

  /**
   A row oidc:"claim":value, for any claim name without a double quote, matches exactly the tokens
   that list the value under that claim and whose email does not start with the reserved prefix.
   */
  lemma QuotedClaimMatches(lib: Library, claims: Claims, claim: string, value: string)
    requires '\"' !in claim && value != "" && '\"' !in value && ':' !in value
    ensures var identity := "oidc:\"" + claim + "\":" + value;
            ValidateClaim(lib, claims, identity) <==>
            value in Claim(claims, claim) && !HasPrefix(claims.email, OIDC_WILDCARD_EMAIL)
  {
    hide Sections, IsWhole, TrimQuotes, Claim;
    var identity := "oidc:\"" + claim + "\":" + value;
    var quoted := "\"" + claim + "\"";
    var sections := ["oidc", quoted, value];
    assert identity == "oidc" + ":" + (quoted + ":" + value);
    JoinThree("oidc", quoted, value, ":");
    WholeQuoted(claim, ':');
    WholePlain("oidc", ':');
    WholePlain(value, ':');
    SectionsOfJoin(sections, ':');
    TrimQuotesOfQuoted(claim);
    NotReserved(lib, claim, value);
  }

  lemma JoinThree(a: string, b: string, c: string, sep: string)
    ensures Join([a, b, c], sep) == a + sep + (b + sep + c)
  {
    assert [a, b, c][1..] == [b, c] && [b, c][1..] == [c];
    assert Join([c], sep) == c && Join([b, c], sep) == b + sep + c;
  }

  lemma WholeQuoted(claim: string, sep: char)
    requires '\"' !in claim && sep != '\"'
    ensures IsWhole("\"" + claim + "\"", sep, false)
  {
    WholeInQuotes(claim, sep);
    assert ("\"" + claim + "\"")[1..] == claim + "\"";
  }

  /** Such a row is longer than two reserved words and differs from the third in its quotes. */
  lemma NotReserved(lib: Library, claim: string, value: string)
    requires value != ""
    ensures HasPrefix("oidc:\"" + claim + "\":" + value, OIDC_CLAIMS)
    ensures !IsReserved(lib, "oidc:\"" + claim + "\":" + value)
  {
    var identity := "oidc:\"" + claim + "\":" + value;
    assert |identity| > 5 && identity[4] == ':' && OIDC_WILDCARD_EMAIL[4] == '-';
    assert !SameFold(lib, identity[4], OIDC_WILDCARD_EMAIL[4]);
  }

  // ---------------------------------------------------------------- the decision

  datatype Decision =
    | Granted | BadPayload | BadIssuer | DeniedEmail(email: string) | DeniedUser(user: string)
    | LoadFailed | BadUserInfo | SubMismatch | NoPolicy | Panicked

  /** Everything a decision depends on; a plugin run can fail, have results or panic. */
  datatype Request = Request(
    claims: Option<Claims>, issuer: Option<string>, info: UserInfo, principal: string, deny: DenyList,
    plugins: Plugins.Outcome, users: Option<seq<Policy.User>>)

  predicate IsDeniedEmail(lib: Library, r: Request)
  {
    r.claims.Some? && exists email <- r.deny.emails :: EqualFold(lib, r.claims.value.email, email)
  }

  predicate IsDeniedUser(lib: Library, r: Request)
  {
    exists user <- r.deny.users :: EqualFold(lib, r.principal, user)
  }

  predicate IsReadable(r: Request) { r.claims.Some? && r.issuer.Some? }

  /** The token is readable and no deny entry matches. */
  predicate PassesGates(lib: Library, r: Request)
  {
    IsReadable(r) && !IsDeniedEmail(lib, r) && !IsDeniedUser(lib, r)
  }

  predicate PluginAllows(r: Request)
  {
    r.plugins.Results? && exists result <- r.plugins.results :: result.allowed
  }

  /** What every result of a plugin run satisfies. */
  predicate IsConsistent(r: Request)
  {
    r.plugins.Results? ==> forall result <- r.plugins.results :: result.allowed ==> result.output == "allow"
  }

  predicate RowAllows(lib: Library, claims: Claims, issuer: string, info: UserInfo, principal: string,
                      user: Policy.User)
  {
    && user.issuer == issuer
    && principal in user.principals
    && (ValidateClaim(lib, claims, user.identity) || (info.UserInfo? && ValidateClaim(lib, info.claims, user.identity)))
  }

  /** Some row has the token's issuer, the principal and a matching claim. */
  predicate PolicyAllows(
    lib: Library, claims: Claims, issuer: string, info: UserInfo, principal: string, users: seq<Policy.User>)
  {
    exists user <- users :: RowAllows(lib, claims, issuer, info, principal, user)
  }

  predicate InfoFits(claims: Claims, info: UserInfo)
  {
    match info
    case NoUserInfo => true
    case UnreadableInfo => false
    case UserInfo(other) => other.sub == claims.sub
  }

  /** The policy on its own, the gates apart. */
  predicate PolicyGrants(lib: Library, r: Request)
  {
    && IsReadable(r) && r.users.Some? && InfoFits(r.claims.value, r.info)
    && PolicyAllows(lib, r.claims.value, r.issuer.value, r.info, r.principal, r.users.value)
  }

  /** The rule that the code follows, without any order of checks. A plugin run that panics ends it all. */
  predicate ShouldGrant(lib: Library, r: Request)
  {
    PassesGates(lib, r) && !r.plugins.Panic? && (PluginAllows(r) || PolicyGrants(lib, r))
  }

  /** Neither a deny list nor a plugin has settled the matter. */
  predicate AsksPolicy(lib: Library, r: Request)
  {
    PassesGates(lib, r) && !r.plugins.Panic? && !PluginAllows(r)
  }

  /** Early exits and all, the code grants what the rule grants, and says why it does not. */
  method CheckPolicy(lib: Library, r: Request) returns (decision: Decision)
    ensures IsConsistent(r) ==> (decision.Granted? <==> ShouldGrant(lib, r))
    ensures decision.Granted? ==> ShouldGrant(lib, r)
    ensures IsConsistent(r) ==> (decision.Panicked? <==> PassesGates(lib, r) && r.plugins.Panic?)
    ensures !PassesGates(lib, r) ==> IsRefusal(lib, r, decision)
    ensures PassesGates(lib, r) ==>
            decision !in {BadPayload, BadIssuer} && !decision.DeniedEmail? && !decision.DeniedUser?
    ensures IsConsistent(r) ==> (decision.LoadFailed? <==> AsksPolicy(lib, r) && r.users == None)
    ensures IsConsistent(r) ==>
            (decision.BadUserInfo? <==> AsksPolicy(lib, r) && r.users.Some? && r.info.UnreadableInfo?)
    ensures IsConsistent(r) ==> (decision.SubMismatch? <==>
              AsksPolicy(lib, r) && r.users.Some? && r.users.value != [] && r.info.UserInfo? &&
              !InfoFits(r.claims.value, r.info))
  {
    hide IsRefusal, IsDeniedEmail, IsDeniedUser, PolicyAllows;
    var refusal := CheckGates(lib, r);
    if refusal.Some? {
      RefusalsAreDistinct(lib, r, refusal.value);
      return refusal.value;
    }
    var settled := CheckPlugins(r);
    if settled.Some? {
      return settled.value;
    }
    decision := CheckLoaded(lib, r);
  }

  /** Why the gates are closed: the first reason in the order of the code. */
  predicate IsRefusal(lib: Library, r: Request, decision: Decision)
  {
    if r.claims == None then decision.BadPayload?
    else if r.issuer == None then decision.BadIssuer?
    else if IsDeniedEmail(lib, r) then
      decision.DeniedEmail? && decision.email in r.deny.emails && EqualFold(lib, r.claims.value.email, decision.email)
    else decision.DeniedUser? && decision.user in r.deny.users && EqualFold(lib, r.principal, decision.user)
  }

  lemma RefusalsAreDistinct(lib: Library, r: Request, decision: Decision)
    requires IsRefusal(lib, r, decision)
    ensures decision.BadPayload? || decision.BadIssuer? || decision.DeniedEmail? || decision.DeniedUser?
  {
  }

  /** Before any plugin runs: the token and the deny lists. */
  method CheckGates(lib: Library, r: Request) returns (refusal: Option<Decision>)
    ensures refusal == None <==> PassesGates(lib, r)
    ensures refusal.Some? ==> IsRefusal(lib, r, refusal.value)
  {
    hide EqualFold;
    if r.claims == None {
      return Some(BadPayload);
    }
    if r.issuer == None {
      return Some(BadIssuer);
    }
    var claims := r.claims.value;
    for i := 0 to |r.deny.emails|
      invariant forall j :: 0 <= j < i ==> !EqualFold(lib, claims.email, r.deny.emails[j])
    {
      if EqualFold(lib, claims.email, r.deny.emails[i]) {
        return Some(DeniedEmail(r.deny.emails[i]));
      }
    }
    for i := 0 to |r.deny.users|
      invariant forall j :: 0 <= j < i ==> !EqualFold(lib, r.principal, r.deny.users[j])
    {
      if EqualFold(lib, r.principal, r.deny.users[i]) {
        return Some(DeniedUser(r.deny.users[i]));
      }
    }
    return None;
  }

  /** What the plugin run settles. */
  method CheckPlugins(r: Request) returns (settled: Option<Decision>)
    ensures settled in {None, Some(Granted), Some(Panicked)}
    ensures IsConsistent(r) ==>
              settled == if r.plugins.Panic? then Some(Panicked) else if PluginAllows(r) then Some(Granted) else None
    ensures settled == Some(Granted) ==> PluginAllows(r)
    ensures settled == None ==> !r.plugins.Panic? && !PluginAllows(r)
  {
    match r.plugins
    case Panic => return Some(Panicked);
    case Failed => return None;
    case Results(results) =>
      var verdict := Plugins.AnyAllowed(results);
      match verdict
      case Inconsistent => return Some(Panicked);
      case Allowed => return Some(Granted);
      case NotAllowed => return None;
  }

  /** What the loaded policy comes to. */
  method CheckLoaded(lib: Library, r: Request) returns (decision: Decision)
    requires IsReadable(r)
    ensures decision in {Granted, LoadFailed, BadUserInfo, SubMismatch, NoPolicy}
    ensures decision.Granted? <==> PolicyGrants(lib, r)
    ensures decision.LoadFailed? <==> r.users == None
    ensures decision.BadUserInfo? <==> r.users.Some? && r.info.UnreadableInfo?
    ensures decision.SubMismatch? <==>
              r.users.Some? && r.users.value != [] && r.info.UserInfo? && !InfoFits(r.claims.value, r.info)
  {
    hide RowAllows;
    if r.users == None {
      return LoadFailed;
    }
    if r.info.UnreadableInfo? {
      return BadUserInfo;
    }
    decision := CheckRows(lib, r.claims.value, r.issuer.value, r.info, r.principal, r.users.value);
  }

  /** The loop over the policy rows. */
  method CheckRows(
    lib: Library, claims: Claims, issuer: string, info: UserInfo, principal: string, users: seq<Policy.User>)
    returns (decision: Decision)
    requires !info.UnreadableInfo?
    ensures decision in {Granted, SubMismatch, NoPolicy}
    ensures decision.Granted? <==> InfoFits(claims, info) && PolicyAllows(lib, claims, issuer, info, principal, users)
    ensures decision.SubMismatch? <==> users != [] && !InfoFits(claims, info)
  {
    hide ValidateClaim;
    for i := 0 to |users|
      invariant i > 0 ==> InfoFits(claims, info)
      invariant forall j :: 0 <= j < i ==> !RowAllows(lib, claims, issuer, info, principal, users[j])
    {
      var user := users[i];
      if info.UserInfo? && claims.sub != info.claims.sub {
        return SubMismatch;
      }
      if issuer != user.issuer {
        continue;
      }
      if principal !in user.principals {
        continue;
      }
      assert user in users;
      if ValidateClaim(lib, claims, user.identity) {
        assert RowAllows(lib, claims, issuer, info, principal, user);
        return Granted;
      }
      if info.UserInfo? && ValidateClaim(lib, info.claims, user.identity) {
        return Granted;
      }
    }
    return NoPolicy;
  }

  // ---------------------------------------------------------------- what never revokes a grant

  /** Reordering rows or adding rows never revokes a grant: only the set of rows counts, and more is more. */
  lemma MoreRowsGrantMore(lib: Library, r: Request, users: seq<Policy.User>, more: seq<Policy.User>)
    requires forall user <- users :: user in more
    requires ShouldGrant(lib, r.(users := Some(users)))
    ensures ShouldGrant(lib, r.(users := Some(more)))
  {
    hide RowAllows, EqualFold;
  }

  /** Plugins never take away what the policy grants, unless their run panics. */
  lemma PluginsOnlyExpand(lib: Library, r: Request)
    requires ShouldGrant(lib, r.(plugins := Plugins.Failed))
    ensures ShouldGrant(lib, r) <==> !r.plugins.Panic?
  {
    hide RowAllows, EqualFold, PolicyAllows, InfoFits;
  }

  /** Neither do more plugins, with the same exception. */
  lemma MorePluginsGrantMore(lib: Library, r: Request, more: Plugins.Outcome)
    requires r.plugins.Results? && (more.Results? ==> forall result <- r.plugins.results :: result in more.results)
    requires ShouldGrant(lib, r) && (more.Failed? ==> PolicyGrants(lib, r))
    ensures ShouldGrant(lib, r.(plugins := more)) <==> !more.Panic?
  {
    hide RowAllows, EqualFold, PolicyAllows, InfoFits;
    if PluginAllows(r) && more.Results? {
      var result :| result in r.plugins.results && result.allowed;
      assert result in more.results;
    }
  }

  /** The decision on a merged policy is the OR of the decisions on its parts. */
  lemma MergedDecision(lib: Library, r: Request, a: seq<Policy.User>, b: seq<Policy.User>)
    ensures ShouldGrant(lib, r.(users := Some(a + b))) <==>
            ShouldGrant(lib, r.(users := Some(a))) || ShouldGrant(lib, r.(users := Some(b)))
  {
    hide RowAllows, EqualFold;
  }
}
