/**
 Which tokens a policy row matches (policy/enforcer.go), kind of row by kind of row, and so what a
 policy, the deny lists and userinfo let through. Everything is said of whole policies.
 */
module Matching {
  import opened Text
  import Policy
  import Plugins
  import Enforcer

  // ---------------------------------------------------------------- folding

  /** ASCII characters that are no letters count as they are, all others as what they fold to. */
  function Key(lib: Enforcer.Library, c: char): (bool, char)
  {
    if c < '\U{80}' && !('a' <= c <= 'z') && !('A' <= c <= 'Z') then (true, c) else (false, lib.fold(c))
  }

  function Keys(lib: Enforcer.Library, s: string): seq<(bool, char)>
  {
    if s == "" then [] else [Key(lib, s[0])] + Keys(lib, s[1..])
  }

  /** Two texts are equal under folding if and only if their keys are. */
  lemma {:induction false} FoldsByKeys(lib: Enforcer.Library, s: string, t: string)
    ensures Enforcer.EqualFold(lib, s, t) <==> Keys(lib, s) == Keys(lib, t)
    decreases |s|
  {
    if s == "" || t == "" {
      assert |Keys(lib, s)| > 0 <==> s != "";
      assert |Keys(lib, t)| > 0 <==> t != "";
    } else {
      FoldsByKeys(lib, s[1..], t[1..]);
      FoldsTail(lib, s, t);
      assert Keys(lib, s)[0] == Key(lib, s[0]) && Keys(lib, s)[1..] == Keys(lib, s[1..]);
      assert Keys(lib, t)[0] == Key(lib, t[0]) && Keys(lib, t)[1..] == Keys(lib, t[1..]);
    }
  }

  lemma FoldsTail(lib: Enforcer.Library, s: string, t: string)
    requires s != "" && t != ""
    ensures Enforcer.EqualFold(lib, s, t) <==>
            Key(lib, s[0]) == Key(lib, t[0]) && Enforcer.EqualFold(lib, s[1..], t[1..])
  {
    assert Enforcer.SameFold(lib, s[0], t[0]) <==> Key(lib, s[0]) == Key(lib, t[0]);
    hide Enforcer.SameFold;
    if Enforcer.EqualFold(lib, s[1..], t[1..]) && Enforcer.SameFold(lib, s[0], t[0]) {
      forall i | 0 <= i < |s| ensures Enforcer.SameFold(lib, s[i], t[i]) {
        assert i > 0 ==> s[i] == s[1..][i - 1] && t[i] == t[1..][i - 1];
      }
    }
    if Enforcer.EqualFold(lib, s, t) {
      forall i | 0 <= i < |s[1..]| ensures Enforcer.SameFold(lib, s[1..][i], t[1..][i]) {
        assert s[1..][i] == s[i + 1] && t[1..][i] == t[i + 1];
      }
    }
  }

  // ---------------------------------------------------------------- one row

  /** The claims that a row is held against: those of the token and, if there are any, those of userinfo. */
  function ClaimSets(claims: Enforcer.Claims, info: Enforcer.UserInfo): seq<Enforcer.Claims>
  {
    [claims] + if info.UserInfo? then [info.claims] else []
  }

  /** A policy of one row. */
  predicate RowGrants(
    lib: Enforcer.Library, claims: Enforcer.Claims, issuer: string, info: Enforcer.UserInfo, principal: string,
    row: Policy.User)
  {
    Enforcer.PolicyAllows(lib, claims, issuer, info, principal, [row])
  }

  lemma RowByClaims(
    lib: Enforcer.Library, claims: Enforcer.Claims, issuer: string, info: Enforcer.UserInfo, principal: string,
    row: Policy.User)
    ensures RowGrants(lib, claims, issuer, info, principal, row) <==>
            row.issuer == issuer && principal in row.principals &&
            exists c <- ClaimSets(claims, info) :: Enforcer.ValidateClaim(lib, c, row.identity)
  {
    hide Enforcer.ValidateClaim;
    var users := [row];
    assert row in users;
    assert claims in ClaimSets(claims, info);
    assert info.UserInfo? ==> info.claims in ClaimSets(claims, info);
    if Enforcer.RowAllows(lib, claims, issuer, info, principal, row) {
      assert RowGrants(lib, claims, issuer, info, principal, row);
    }
  }

  /** None of the three words that would match anything. */
  predicate IsUsable(lib: Enforcer.Library, identity: string)
  {
    && identity != ""
    && !Enforcer.EqualFold(lib, identity, "oidc-match-end:email:")
    && !Enforcer.EqualFold(lib, identity, "oidc:")
    && !Enforcer.EqualFold(lib, identity, "repo:")
  }

  /** A row that is empty or one of these words matches nobody. */
  lemma UnusableRow(
    lib: Enforcer.Library, claims: Enforcer.Claims, issuer: string, info: Enforcer.UserInfo, principal: string,
    row: Policy.User)
    requires !IsUsable(lib, row.identity)
    ensures !RowGrants(lib, claims, issuer, info, principal, row)
  {
    RowByClaims(lib, claims, issuer, info, principal, row);
    hide Enforcer.EqualFold;
  }

  /** A plain row matches the email up to folding, or the sub exactly. */
  lemma PlainRow(
    lib: Enforcer.Library, claims: Enforcer.Claims, issuer: string, info: Enforcer.UserInfo, principal: string,
    row: Policy.User)
    requires IsUsable(lib, row.identity)
    requires !("oidc:" <= row.identity) && !("repo:" <= row.identity) && !("oidc-match-end:email:" <= row.identity)
    ensures RowGrants(lib, claims, issuer, info, principal, row) <==>
            row.issuer == issuer && principal in row.principals &&
            exists c <- ClaimSets(claims, info) ::
              !("oidc-match-end:email:" <= c.email) &&
              (Enforcer.EqualFold(lib, c.email, row.identity) || c.sub == row.identity)
  {
    RowByClaims(lib, claims, issuer, info, principal, row);
    hide Enforcer.EqualFold;
    forall c <- ClaimSets(claims, info)
      ensures Enforcer.ValidateClaim(lib, c, row.identity) <==>
              !("oidc-match-end:email:" <= c.email) &&
              (Enforcer.EqualFold(lib, c.email, row.identity) || c.sub == row.identity)
    {
    }
  }

  /** A wildcard row also matches every email that ends like it, in lower case. */
  lemma WildcardRow(
    lib: Enforcer.Library, claims: Enforcer.Claims, issuer: string, info: Enforcer.UserInfo, principal: string,
    row: Policy.User, end: string)
    requires row.identity == "oidc-match-end:email:" + end && end != ""
    ensures RowGrants(lib, claims, issuer, info, principal, row) <==>
            row.issuer == issuer && principal in row.principals &&
            exists c <- ClaimSets(claims, info) ::
              !("oidc-match-end:email:" <= c.email) &&
              ((exists head :: lib.lower(c.email) == head + lib.lower(end)) ||
               Enforcer.EqualFold(lib, c.email, row.identity) || c.sub == row.identity)
  {
    RowByClaims(lib, claims, issuer, info, principal, row);
    assert row.identity[21..] == end;
    assert row.identity[4] == '-' && row.identity[0] == 'o';
    UsableByLength(lib, row.identity);
    hide Enforcer.EqualFold, HasSuffix;
    forall c <- ClaimSets(claims, info)
      ensures Enforcer.ValidateClaim(lib, c, row.identity) <==>
              !("oidc-match-end:email:" <= c.email) &&
              ((exists head :: lib.lower(c.email) == head + lib.lower(end)) ||
               Enforcer.EqualFold(lib, c.email, row.identity) || c.sub == row.identity)
    {
      SuffixIs(lib.lower(c.email), lib.lower(end));
    }
  }

  lemma SuffixIs(s: string, end: string)
    ensures HasSuffix(s, end) <==> exists head :: s == head + end
  {
    if HasSuffix(s, end) {
      assert s == s[..|s| - |end|] + end;
    }
  }

  lemma UsableByLength(lib: Enforcer.Library, identity: string)
    requires |identity| > 21
    ensures IsUsable(lib, identity)
  {
  }

  /** A repo row also matches every sub that its pattern matches. */
  lemma RepoRow(
    lib: Enforcer.Library, claims: Enforcer.Claims, issuer: string, info: Enforcer.UserInfo, principal: string,
    row: Policy.User, pattern: string)
    requires row.identity == "repo:" + pattern && pattern != ""
    ensures RowGrants(lib, claims, issuer, info, principal, row) <==>
            row.issuer == issuer && principal in row.principals &&
            exists c <- ClaimSets(claims, info) ::
              !("oidc-match-end:email:" <= c.email) &&
              (lib.glob(row.identity, c.sub) == Some(true) ||
               Enforcer.EqualFold(lib, c.email, row.identity) || c.sub == row.identity)
  {
    RowByClaims(lib, claims, issuer, info, principal, row);
    assert row.identity[0] == 'r' && row.identity[4] == ':';
    UsableByColon(lib, row.identity);
    hide Enforcer.EqualFold;
    forall c <- ClaimSets(claims, info)
      ensures Enforcer.ValidateClaim(lib, c, row.identity) <==>
              !("oidc-match-end:email:" <= c.email) &&
              (lib.glob(row.identity, c.sub) == Some(true) ||
               Enforcer.EqualFold(lib, c.email, row.identity) || c.sub == row.identity)
    {
    }
  }

  lemma UsableByColon(lib: Enforcer.Library, identity: string)
    requires |identity| > 5 && identity[4] == ':'
    ensures IsUsable(lib, identity)
  {
    assert "oidc-match-end:email:"[4] == '-';
    assert !Enforcer.SameFold(lib, identity[4], "oidc-match-end:email:"[4]);
  }

  /** A claim row, its sections joined by colons, matches who has the last one under the claim of the second one. */
  lemma ClaimRow(
    lib: Enforcer.Library, claims: Enforcer.Claims, issuer: string, info: Enforcer.UserInfo, principal: string,
    row: Policy.User, sections: seq<string>)
    requires |sections| >= 3 && sections[0] == "oidc" && row.identity == Join(sections, ":")
    requires forall i :: 0 <= i < |sections| ==> sections[i] != "" && '\"' !in sections[i] && ':' !in sections[i]
    ensures RowGrants(lib, claims, issuer, info, principal, row) <==>
            row.issuer == issuer && principal in row.principals &&
            exists c <- ClaimSets(claims, info) ::
              !("oidc-match-end:email:" <= c.email) &&
              sections[1] in c.extra && sections[|sections| - 1] in c.extra[sections[1]]
  {
    RowByClaims(lib, claims, issuer, info, principal, row);
    hide Enforcer.EqualFold, Enforcer.Sections, Enforcer.TrimQuotes, Join, Enforcer.IsWhole;
    ClaimRowStarts(sections);
    UsableByColon(lib, row.identity);
    forall i | 0 <= i < |sections| ensures Enforcer.IsWhole(sections[i], ':', false) {
      Enforcer.WholePlain(sections[i], ':');
    }
    Enforcer.SectionsOfJoin(sections, ':');
    Enforcer.TrimQuotesNone(sections[1]);
    forall c <- ClaimSets(claims, info)
      ensures Enforcer.ValidateClaim(lib, c, row.identity) <==>
              !("oidc-match-end:email:" <= c.email) &&
              sections[1] in c.extra && sections[|sections| - 1] in c.extra[sections[1]]
    {
    }
  }

  /** A claim in quotes may hold colons. */
  lemma QuotedClaimRow(
    lib: Enforcer.Library, claims: Enforcer.Claims, issuer: string, info: Enforcer.UserInfo, principal: string,
    row: Policy.User, claim: string, value: string)
    requires row.identity == "oidc:\"" + claim + "\":" + value
    requires '\"' !in claim && value != "" && '\"' !in value && ':' !in value
    ensures RowGrants(lib, claims, issuer, info, principal, row) <==>
            row.issuer == issuer && principal in row.principals &&
            exists c <- ClaimSets(claims, info) ::
              !("oidc-match-end:email:" <= c.email) && claim in c.extra && value in c.extra[claim]
  {
    RowByClaims(lib, claims, issuer, info, principal, row);
    hide Enforcer.ValidateClaim;
    forall c <- ClaimSets(claims, info)
      ensures Enforcer.ValidateClaim(lib, c, row.identity) <==>
              !("oidc-match-end:email:" <= c.email) && claim in c.extra && value in c.extra[claim]
    {
      Enforcer.QuotedClaimMatches(lib, c, claim, value);
    }
  }

  lemma ClaimRowStarts(sections: seq<string>)
    requires |sections| >= 3 && sections[0] == "oidc" && sections[1] != ""
    ensures var s := Join(sections, ":"); |s| > 5 && s[4] == ':' && "oidc:" <= s
  {
    var rest := Join(sections[1..], ":");
    assert rest == sections[1] + ":" + Join(sections[1..][1..], ":");
    assert Join(sections, ":") == "oidc" + ":" + rest;
  }

  /** A claim row with too few sections matches nobody. */
  lemma ShortClaimRow(
    lib: Enforcer.Library, claims: Enforcer.Claims, issuer: string, info: Enforcer.UserInfo, principal: string,
    row: Policy.User, claim: string)
    requires row.identity == "oidc:" + claim && '\"' !in claim && ':' !in claim
    ensures !RowGrants(lib, claims, issuer, info, principal, row)
  {
    RowByClaims(lib, claims, issuer, info, principal, row);
    hide Enforcer.EqualFold, Enforcer.Sections, Enforcer.TrimQuotes, Enforcer.IsWhole;
    if claim == "" {
      assert row.identity == "oidc:";
      FoldsByKeys(lib, row.identity, "oidc:");
    } else {
      var sections := ["oidc", claim];
      assert sections[1..] == [claim] && Join([claim], ":") == claim && Join(sections, ":") == row.identity;
      Enforcer.WholePlain("oidc", ':');
      Enforcer.WholePlain(claim, ':');
      Enforcer.SectionsOfJoin(sections, ':');
    }
  }

  // ---------------------------------------------------------------- whole policies

  /** A policy grants what some row of it grants alone. */
  lemma RowsGrantAlone(
    lib: Enforcer.Library, claims: Enforcer.Claims, issuer: string, info: Enforcer.UserInfo, principal: string,
    users: seq<Policy.User>)
    ensures Enforcer.PolicyAllows(lib, claims, issuer, info, principal, users) <==>
            exists i :: 0 <= i < |users| && RowGrants(lib, claims, issuer, info, principal, users[i])
  {
    hide Enforcer.RowAllows;
    forall row: Policy.User
      ensures RowGrants(lib, claims, issuer, info, principal, row) <==>
              Enforcer.RowAllows(lib, claims, issuer, info, principal, row)
    {
      assert row in [row];
    }
  }

  /** A token of an issuer that no row names, or a principal that no row names, is granted nothing by a policy. */
  lemma UnnamedIsRefused(
    lib: Enforcer.Library, claims: Enforcer.Claims, issuer: string, info: Enforcer.UserInfo, principal: string,
    users: seq<Policy.User>)
    requires forall i :: 0 <= i < |users| ==> users[i].issuer != issuer || principal !in users[i].principals
    ensures !Enforcer.PolicyAllows(lib, claims, issuer, info, principal, users)
  {
    hide RowGrants;
    RowsGrantAlone(lib, claims, issuer, info, principal, users);
    forall i | 0 <= i < |users| ensures !RowGrants(lib, claims, issuer, info, principal, users[i]) {
      RowByClaims(lib, claims, issuer, info, principal, users[i]);
    }
  }

  /** The whole rule, down to the deny entries, the plugin results, the subs and the single rows. */
  lemma WhatIsGranted(lib: Enforcer.Library, r: Enforcer.Request)
    ensures Enforcer.ShouldGrant(lib, r) <==>
            && r.claims.Some? && r.issuer.Some? && !r.plugins.Panic?
            && (forall i :: 0 <= i < |r.deny.emails| ==> Keys(lib, r.claims.value.email) != Keys(lib, r.deny.emails[i]))
            && (forall i :: 0 <= i < |r.deny.users| ==> Keys(lib, r.principal) != Keys(lib, r.deny.users[i]))
            && (|| (r.plugins.Results? && exists i :: 0 <= i < |r.plugins.results| && r.plugins.results[i].allowed)
                || (&& r.users.Some? && !r.info.UnreadableInfo?
                    && (r.info.UserInfo? ==> r.info.claims.sub == r.claims.value.sub)
                    && exists i :: 0 <= i < |r.users.value| &&
                         RowGrants(lib, r.claims.value, r.issuer.value, r.info, r.principal, r.users.value[i])))
  {
    hide Enforcer.EqualFold, Enforcer.PolicyAllows, Keys;
    if r.claims.Some? {
      forall i | 0 <= i < |r.deny.emails|
        ensures Enforcer.EqualFold(lib, r.claims.value.email, r.deny.emails[i]) <==>
                Keys(lib, r.claims.value.email) == Keys(lib, r.deny.emails[i])
      {
        FoldsByKeys(lib, r.claims.value.email, r.deny.emails[i]);
      }
    }
    forall i | 0 <= i < |r.deny.users|
      ensures Enforcer.EqualFold(lib, r.principal, r.deny.users[i]) <==>
              Keys(lib, r.principal) == Keys(lib, r.deny.users[i])
    {
      FoldsByKeys(lib, r.principal, r.deny.users[i]);
    }
    if r.claims.Some? && r.issuer.Some? && r.users.Some? {
      RowsGrantAlone(lib, r.claims.value, r.issuer.value, r.info, r.principal, r.users.value);
    }
  }

  /** Why a login is refused at the gates: the first reason, and the entry that matches. */
  lemma WhyRefused(lib: Enforcer.Library, r: Enforcer.Request, decision: Enforcer.Decision)
    requires Enforcer.IsRefusal(lib, r, decision) && !Enforcer.PassesGates(lib, r)
    ensures decision.BadPayload? <==> r.claims == None
    ensures decision.BadIssuer? <==> r.claims.Some? && r.issuer == None
    ensures decision.DeniedEmail? ==>
              && r.claims.Some? && r.issuer.Some? && decision.email in r.deny.emails
              && Keys(lib, r.claims.value.email) == Keys(lib, decision.email)
    ensures decision.DeniedUser? ==>
              && r.claims.Some? && r.issuer.Some? && decision.user in r.deny.users
              && Keys(lib, r.principal) == Keys(lib, decision.user)
    ensures decision.BadPayload? || decision.BadIssuer? || decision.DeniedEmail? || decision.DeniedUser?
  {
    hide Enforcer.EqualFold, Keys;
    if decision.DeniedEmail? && r.claims.Some? {
      FoldsByKeys(lib, r.claims.value.email, decision.email);
    }
    if decision.DeniedUser? {
      FoldsByKeys(lib, r.principal, decision.user);
    }
  }
}
