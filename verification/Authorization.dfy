/**
 The whole decision on a login: gates, plugin run, policy files and rows in the order of the code
 (policy/enforcer.go, policy/plugins/plugins.go, policy/multipolicyloader.go). The main result is
 when a login is granted, with the one way in which plugins take away what the policy grants.
 */
module Authorization {
  import opened Text
  import ShellQuote
  import Policy
  import Plugins
  import Enforcer
  import Loaders

  /** What is stored about policies: the files as far as they can be read, and whose home it is. */
  datatype Store = Store(
    system: Option<string>, systemPath: string, path: Option<string>, file: Option<string>, script: Option<string>,
    username: string)

  function Users(store: Store): Option<seq<Policy.User>>
  {
    var home := if store.path.Some? then Loaders.HomeBytes(store.file, [store.script]) else None;
    Loaders.MergedUsers(store.system, home, store.username)
  }

  /** Some plugin of the directory makes the run panic. */
  predicate HasCrashingPlugin(world: Plugins.World, dir: string, tokens: Plugins.Env)
  {
    var loaded := Plugins.LoadAll(world, dir);
    loaded.Some? && exists plugin <- loaded.value :: Plugins.CrashesOn(world, plugin, tokens)
  }

  /** What a plugin run can come to. */
  ghost predicate IsRun(world: Plugins.World, dir: string, tokens: Plugins.Env, run: Plugins.Outcome)
  {
    var loaded := Plugins.LoadAll(world, dir);
    && (run.Failed? <==> loaded == None)
    && (run.Panic? <==> HasCrashingPlugin(world, dir, tokens))
    && (run.Results? ==>
          && |run.results| == |loaded.value|
          && forall i :: 0 <= i < |run.results| ==> Plugins.IsSettled(world, loaded.value[i], run.results[i], tokens))
  }

  /** Whoever is allowed by a run is allowed by a command, a config file and a directory of root's. */
  lemma WhoAllows(world: Plugins.World, dir: string, tokens: Plugins.Env, run: Plugins.Outcome, i: nat)
    requires IsRun(world, dir, tokens, run) && run.Results? && i < |run.results| && run.results[i].allowed
    ensures run.results[i].output == "allow" && run.results[i].error == None
    ensures Plugins.IsRootDir(world, dir) && Plugins.IsRootCommand(world, run.results[i].command)
    ensures exists name :: Plugins.IsRootConfig(world, dir, name, run.results[i].config)
  {
    hide Plugins.LoadAll, Plugins.IsSettled, HasCrashingPlugin, Plugins.CheckPerm, Plugins.IsRootDir,
         Plugins.IsRootCommand, Plugins.IsRootConfig;
    Plugins.AllowedMeansAllow(world, dir, Plugins.LoadAll(world, dir).value[i], run.results[i], tokens);
  }

  lemma RunIsConsistent(world: Plugins.World, dir: string, tokens: Plugins.Env, r: Enforcer.Request)
    requires IsRun(world, dir, tokens, r.plugins)
    ensures Enforcer.IsConsistent(r)
  {
    hide Plugins.LoadAll, Plugins.IsSettled, HasCrashingPlugin;
    if r.plugins.Results? {
      Plugins.NeverInconsistent(world, dir, r.plugins.results, tokens);
    }
  }

  /**
   One decision. `r` holds what is known before; the run and the policy come later. A login is granted
   if and only if the run does not panic and the rule says so on the results of the run and the merged
   policy; it panics if and only if the gates are open and some plugin makes it; so what the policy
   grants by itself is refused if and only if some plugin makes the run panic. Closed gates run nothing.
   */
  method Decide(
    enforcer: Plugins.PluginEnforcer, hasTokens: bool, dir: string, lib: Enforcer.Library, r: Enforcer.Request,
    store: Store)
    returns (decision: Enforcer.Decision, ghost run: Plugins.Outcome)
    requires enforcer.Valid()
    modifies enforcer
    ensures enforcer.Valid()
    ensures if Enforcer.PassesGates(lib, r) && hasTokens then IsRun(enforcer.world, dir, old(enforcer.tokens), run)
            else run.Failed? && enforcer.calls == old(enforcer.calls) && enforcer.attempts == old(enforcer.attempts)
    ensures decision.Panicked? <==>
              Enforcer.PassesGates(lib, r) && hasTokens && HasCrashingPlugin(enforcer.world, dir, old(enforcer.tokens))
    ensures decision.Granted? <==> Enforcer.ShouldGrant(lib, r.(plugins := run, users := Users(store)))
    ensures !Enforcer.PassesGates(lib, r) ==> Enforcer.IsRefusal(lib, r, decision)
    ensures Enforcer.ShouldGrant(lib, r.(plugins := Plugins.Failed, users := Users(store))) ==>
              (decision.Granted? <==> !(hasTokens && HasCrashingPlugin(enforcer.world, dir, old(enforcer.tokens))))
  {
    hide Plugins.LoadAll, Plugins.IsSettled, Plugins.CrashesOn, Plugins.IsBacked, Plugins.IsIsolated,
         Plugins.CleanConfig, Enforcer.EqualFold, Enforcer.PolicyAllows, Enforcer.InfoFits, Enforcer.IsRefusal,
         Loaders.MergedUsers, Join;
    var refusal := Enforcer.CheckGates(lib, r);
    run := Plugins.Failed;
    if refusal.Some? {
      Enforcer.RefusalsAreDistinct(lib, r, refusal.value);
      return refusal.value, run;
    }
    var outcome := Plugins.Failed;
    if hasTokens {
      outcome := enforcer.CheckPolicies(dir);
      RunIsConsistent(enforcer.world, dir, old(enforcer.tokens), r.(plugins := outcome));
    }
    run := outcome;
    var settled := Enforcer.CheckPlugins(r.(plugins := outcome));
    if settled.Some? {
      return settled.value, run;
    }
    var users := LoadUsers(store);
    decision := Enforcer.CheckLoaded(lib, r.(plugins := outcome, users := users));
  }

  method LoadUsers(store: Store) returns (users: Option<seq<Policy.User>>)
    ensures users == Users(store)
  {
    hide Loaders.MergedUsers, Loaders.HomeBytes, Join, Policy.UsersOf, Loaders.HomeUsers;
    var policy, _ := Loaders.Load(store.system, store.path, store.file, store.script, store.username, store.systemPath);
    return if policy.Some? then Some(policy.value.users) else None;
  }

  // ---------------------------------------------------------------- a plugin that takes away a grant

  /** A directory with one plugin, root's and readable, whose command is a blank. */
  const BLANK_CONFIG := Plugins.PluginConfig("a", " ")

  const DIR := "/etc/opk/policy.d"

  function BlankWorld(): Plugins.World
  {
    Plugins.World(
      path => if path == DIR then Some(Plugins.Stat(true, 0x1ED, "root")) else Some(Plugins.Stat(false, 0x1A0, "root")),
      dir => Some(["a.yml"]), path => Some(""), text => Some(BLANK_CONFIG), config => Some(""), 
      (run, command, env) => ("", true))
  }

  lemma BlankIsBlank()
    ensures Plugins.IsBlankCommand(BLANK_CONFIG)
  {
    assert " "[1..] == "";
    assert ShellQuote.IsBlankText("") && ShellQuote.IsBlankText(" ");
    Plugins.BlankCommands(BLANK_CONFIG);
  }

  /** A blank command takes away what the policy grants. */
  lemma BlankPluginRevokes(lib: Enforcer.Library, r: Enforcer.Request, tokens: Plugins.Env, run: Plugins.Outcome)
    requires forall key <- tokens :: Plugins.IsSettable(key, tokens[key])
    requires IsRun(BlankWorld(), DIR, tokens, run)
    requires Enforcer.ShouldGrant(lib, r.(plugins := Plugins.Failed))
    ensures !Enforcer.ShouldGrant(lib, r.(plugins := run))
  {
    hide HasCrashingPlugin, BlankWorld, Enforcer.PolicyGrants;
    BlankPluginCrashes(tokens);
    Enforcer.PluginsOnlyExpand(lib, r.(plugins := run));
  }

  /** It makes the run panic. */
  lemma BlankPluginCrashes(tokens: Plugins.Env)
    requires forall key <- tokens :: Plugins.IsSettable(key, tokens[key])
    ensures HasCrashingPlugin(BlankWorld(), DIR, tokens)
  {
    var world := BlankWorld();
    var path := PathIn(DIR, "a.yml");
    var plugin := Plugins.LoadConfig(world, path);
    assert path != DIR by { assert |path| == |DIR| + 6; }
    BlankIsBlank();
    BlankAttempt(tokens);
    hide Plugins.Attempt, Plugins.IsBlankCommand;
    assert plugin.config == BLANK_CONFIG && plugin.error == None;
    assert Plugins.CrashesOn(world, plugin, tokens);
    assert Plugins.IsPlugin(world, DIR, "a.yml") by { assert "a.yml"[1..] == ".yml"; }
    FlatOne(Plugins.LoadEntry(world, DIR), "a.yml");
    assert plugin in Plugins.LoadAll(world, DIR).value;
  }

  lemma BlankAttempt(tokens: Plugins.Env)
    requires forall key <- tokens :: Plugins.IsSettable(key, tokens[key])
    ensures Plugins.Attempt(BlankWorld(), BLANK_CONFIG, tokens) == None
  {
    BlankIsBlank();
    assert Plugins.IsSettable(Plugins.CONFIG_KEY, "");
    hide ShellQuote.Split, Plugins.IsSettable;
  }
}
