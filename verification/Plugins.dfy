/**
 Policy plugins (policy/plugins/plugins.go): loading the plugin configs of a directory and running
 their commands in the shared process environment. What the system answers (file attributes, file
 contents, encoders and the commands themselves) is a parameter, the world.
 */
module Plugins {
  import opened Text
  import ShellQuote

  type Env = map<string, string>

  const PREFIX := "OPKSSH_PLUGIN_"
  const CONFIG_KEY := "OPKSSH_PLUGIN_CONFIG"

  datatype Stat = Stat(isDir: bool, mode: int, owner: string)

  datatype PluginConfig = PluginConfig(name: string, command: string)

  datatype Error =
    | InsecureConfig | Unreadable | BadYaml | NoName | NoCommand
    | NotEncoded | NotSet | BadQuoting | InsecureCommand | CommandFailed

  datatype PluginResult =
    PluginResult(path: string, config: PluginConfig, error: Option<Error>, command: seq<string>, output: string,
                 allowed: bool)

  datatype World = World(
    stat: string -> Option<Stat>,
    list: string -> Option<seq<string>>,
    read: string -> Option<string>,
    decode: string -> Option<PluginConfig>,
    encode: PluginConfig -> Option<string>,
    exec: (nat, seq<string>, Env) -> (string, bool))

  /** A command that was run: for which plugin, with which words, in which environment, and what it answered. */
  datatype Call = Call(config: PluginConfig, command: seq<string>, env: Env, output: string, ok: bool)

  // ---------------------------------------------------------------- file checks and loading

  /** PermsChecker.CheckPerm with an owner and no group. */
  predicate CheckPerm(world: World, path: string, modes: set<int>, owner: string)
  {
    world.stat(path).Some? && world.stat(path).value.owner == owner && world.stat(path).value.mode in modes
  }

  const DIR_MODES := {0x1C0, 0x1E8, 0x1ED}  // octal 700, 750, 755
  const CONFIG_MODES := {0x1A0}             // octal 640
  const COMMAND_MODES := {0x16D, 0x1ED}     // octal 555, 755

  /** The result that loading a config file starts with. */
  function LoadConfig(world: World, path: string): PluginResult
  {
    var none := PluginResult(path, PluginConfig("", ""), None, [], "", false);
    if !CheckPerm(world, path, CONFIG_MODES, "root") then none.(error := Some(InsecureConfig))
    else if world.read(path) == None then none.(error := Some(Unreadable))
    else
      match world.decode(world.read(path).value)
      case None => none.(error := Some(BadYaml))
      case Some(config) =>
        if config.name == "" then none.(error := Some(NoName))
        else if config.command == "" then none.(error := Some(NoCommand))
        else none.(config := config)
  }

  predicate IsPlugin(world: World, dir: string, name: string)
  {
    && world.stat(PathIn(dir, name)).Some? && !world.stat(PathIn(dir, name)).value.isDir
    && HasSuffix(name, ".yml")
  }

  function LoadEntry(world: World, dir: string): string -> seq<PluginResult>
  {
    (name: string) => if IsPlugin(world, dir, name) then [LoadConfig(world, PathIn(dir, name))] else []
  }

  predicate AllDescribed(world: World, dir: string, names: seq<string>)
  {
    forall i :: 0 <= i < |names| ==> world.stat(PathIn(dir, names[i])).Some?
  }

  /** The plugins of a directory, or none if it cannot be trusted or read. */
  function LoadAll(world: World, dir: string): Option<seq<PluginResult>>
  {
    if !CheckPerm(world, dir, DIR_MODES, "root") || world.list(dir) == None then None
    else
      var names := world.list(dir).value;
      if !AllDescribed(world, dir, names) then None else Some(Flat(LoadEntry(world, dir), names))
  }

  method LoadPlugins(world: World, dir: string) returns (results: Option<seq<PluginResult>>)
    ensures results == LoadAll(world, dir)
  {
    if !CheckPerm(world, dir, DIR_MODES, "root") {
      return None;
    }
    var names := world.list(dir);
    if names == None {
      return None;
    }
    results := LoadEntries(world, dir, names.value);
  }

  /** The loop over the directory; one entry that cannot be described ends it. */
  method LoadEntries(world: World, dir: string, names: seq<string>) returns (results: Option<seq<PluginResult>>)
    ensures results == if AllDescribed(world, dir, names) then Some(Flat(LoadEntry(world, dir), names)) else None
  {
    hide Flat, LoadEntry, LoadConfig, PathIn, HasSuffix;
    var found: seq<PluginResult> := [];
    FlatNone(LoadEntry(world, dir));
    assert names[..0] == [];
    for i := 0 to |names|
      invariant found == Flat(LoadEntry(world, dir), names[..i])
      invariant forall j :: 0 <= j < i ==> world.stat(PathIn(dir, names[j])).Some?
    {
      FlatStep(LoadEntry(world, dir), names, i);
      LoadEntryOf(world, dir, names[i]);
      var path := PathIn(dir, names[i]);
      var info := world.stat(path);
      if info == None {
        return None;
      }
      if !info.value.isDir && HasSuffix(names[i], ".yml") {
        found := found + [LoadConfig(world, path)];
      }
    }
    assert names[..|names|] == names;
    return Some(found);
  }

  lemma LoadEntryOf(world: World, dir: string, name: string)
    ensures LoadEntry(world, dir)(name) ==
            if IsPlugin(world, dir, name) then [LoadConfig(world, PathIn(dir, name))] else []
  {
  }

  // ---------------------------------------------------------------- the environment of a command

  /** os.Setenv accepts it. */
  predicate IsSettable(key: string, value: string)
  {
    key != "" && '=' !in key && '\0' !in key && '\0' !in value
  }

  /** What a command should see: nothing inherited under the prefix, and every token. */
  function PluginEnv(env: Env, tokens: Env): Env
  {
    (map key | key in env && !HasPrefix(key, PREFIX) :: env[key]) + tokens
  }

  /** The part of an environment that plugins read. */
  function PluginPart(env: Env): Env
  {
    map key | key in env && HasPrefix(key, PREFIX) :: env[key]
  }

  /** An environment entry carries the prefix exactly when its name does. */
  lemma EntryPrefix(key: string, value: string)
    requires '=' !in key
    ensures HasPrefix(key + "=" + value, PREFIX) <==> HasPrefix(key, PREFIX)
    ensures Split(key + "=" + value, '=')[0] == key
  {
    SplitCons(key, value, '=');
    var entry := key + "=" + value;
    if |key| < |PREFIX| {
      assert entry[|key|] == '=' && PREFIX[|key|] != '=';
    } else {
      assert entry[..|PREFIX|] == key[..|PREFIX|];
    }
  }

  datatype Execution = Ran(command: seq<string>, output: string, ok: bool) | Refused(error: Error) | Crashed

  /** What an attempt comes to, apart from its output. */
  function Attempt(world: World, config: PluginConfig, tokens: Env): Option<Error>
  {
    var encoded := world.encode(config);
    if encoded == None then Some(NotEncoded)
    else
      var all := tokens[CONFIG_KEY := encoded.value];
      if exists key :: key in all && !IsSettable(key, all[key]) then Some(NotSet)
      else
        match ShellQuote.Split(config.command)
        case Unterminated(_) => Some(BadQuoting)
        case Words(command) =>
          if command != [] && !CheckPerm(world, command[0], COMMAND_MODES, "root") then Some(InsecureCommand)
          else None
  }

  predicate IsBlankCommand(config: PluginConfig) { ShellQuote.Split(config.command) == ShellQuote.Words([]) }

  lemma PluginPartOfEnv(env: Env, tokens: Env)
    ensures PluginPart(PluginEnv(env, tokens)) == PluginPart(tokens)
  {
  }

  /** Earlier plugins leave nothing behind in the tokens but a config that the next one overwrites. */
  predicate SameTokens(tokens: Env, supplied: Env)
  {
    tokens - {CONFIG_KEY} == supplied - {CONFIG_KEY}
  }

  /** The command's file belongs to root and has mode 555 or 755. */
  predicate IsRootCommand(world: World, command: seq<string>)
  {
    && command != [] && world.stat(command[0]).Some?
    && world.stat(command[0]).value.owner == "root"
    && (world.stat(command[0]).value.mode == 0x16D || world.stat(command[0]).value.mode == 0x1ED)
  }

  /** The directory belongs to root and has mode 700, 750 or 755. */
  predicate IsRootDir(world: World, dir: string)
  {
    && world.stat(dir).Some? && world.stat(dir).value.owner == "root"
    && (world.stat(dir).value.mode == 0x1C0 || world.stat(dir).value.mode == 0x1E8 ||
       world.stat(dir).value.mode == 0x1ED)
  }

  /** The config is what root's file of that path says, a listed yml file of mode 640. */
  predicate IsRootConfig(world: World, dir: string, name: string, config: PluginConfig)
  {
    var path := dir + "/" + name;
    && world.list(dir).Some? && name in world.list(dir).value
    && |name| >= 4 && name[|name| - 4..] == ".yml"
    && world.stat(path).Some? && !world.stat(path).value.isDir
    && world.stat(path).value.owner == "root" && world.stat(path).value.mode == 0x1A0
    && world.read(path).Some? && world.decode(world.read(path).value) == Some(config)
    && config.name != "" && config.command != ""
  }

  /** A command is run for a config of root's in a directory of root's, and is root's itself. */
  ghost predicate IsTrusted(world: World, dir: string, call: Call)
  {
    && IsRootDir(world, dir) && IsRootCommand(world, call.command)
    && exists name :: IsRootConfig(world, dir, name, call.config)
  }

  /** The call saw, under the prefix, the supplied tokens and its own plugin's config and nothing else. */
  ghost predicate IsIsolated(world: World, call: Call, supplied: Env)
  {
    && world.encode(call.config).Some?
    && PluginPart(call.env) == PluginPart(supplied[CONFIG_KEY := world.encode(call.config).value])
  }

  function CleanConfig(result: PluginResult): seq<PluginConfig>
  {
    if result.error == None then [result.config] else []
  }

  /** How a loaded plugin ends up: untouched if loading failed, else by its attempt. */
  predicate IsSettled(world: World, loaded: PluginResult, result: PluginResult, tokens: Env)
  {
    && result.path == loaded.path && result.config == loaded.config
    && if loaded.error.Some? then result == loaded
       else
         match Attempt(world, loaded.config, tokens)
         case Some(error) => result.error == Some(error) && result.output == "" && result.command == [] &&
             !result.allowed
         case None =>
           && ShellQuote.Split(loaded.config.command) == ShellQuote.Words(result.command) && result.command != []
           && result.error in {None, Some(CommandFailed)}
           && (result.allowed <==> result.error == None && result.output == "allow")
  }

  /** A result that reports a run shows what the command of one of the calls answered. */
  ghost predicate IsBacked(calls: seq<Call>, from: nat, result: PluginResult)
  {
    result.command != [] ==>
      exists i :: from <= i < |calls| && calls[i].config == result.config && calls[i].command == result.command &&
                  result.output == TrimSpace(calls[i].output) && (result.error == None <==> calls[i].ok)
  }

  predicate CrashesOn(world: World, loaded: PluginResult, tokens: Env)
  {
    loaded.error == None && Attempt(world, loaded.config, tokens) == None && IsBlankCommand(loaded.config)
  }

  datatype Outcome = Failed | Results(results: seq<PluginResult>) | Panic

  /** PluginResults.Allowed: it panics on an allowed result whose output is not "allow". */
  datatype Verdict = Allowed | NotAllowed | Inconsistent

  method AnyAllowed(results: seq<PluginResult>) returns (verdict: Verdict)
    ensures verdict.NotAllowed? <==> forall result <- results :: !result.allowed
    ensures verdict.Allowed? ==> exists result <- results :: result.allowed && result.output == "allow"
    ensures verdict.Inconsistent? ==> exists result <- results :: result.allowed && result.output != "allow"
    ensures (forall result <- results :: result.allowed ==> result.output == "allow") ==>
              (verdict.Allowed? <==> exists result <- results :: result.allowed)
  {
    for i := 0 to |results|
      invariant forall j :: 0 <= j < i ==> !results[j].allowed
    {
      if results[i].allowed {
        if results[i].output != "allow" {
          return Inconsistent;
        }
        return Allowed;
      }
    }
    return NotAllowed;
  }

  class PluginEnforcer {
    const world: World
    var env: Env
    var tokens: Env
    var runs: nat
    ghost var calls: seq<Call>
    ghost var attempts: seq<PluginConfig>

    ghost predicate Valid()
      reads this
    {
      forall key <- env :: '=' !in key
    }

    constructor (world: World, env: Env, tokens: Env)
      requires forall key <- env :: '=' !in key
      ensures Valid() && this.world == world && this.env == env && this.tokens == tokens
      ensures calls == [] && attempts == []
    {
      this.world, this.env, this.tokens := world, env, tokens;
      runs, calls, attempts := 0, [], [];
    }

    /** Removes every inherited variable under the prefix. */
    method ClearPluginEnv()
      requires Valid()
      modifies this`env
      ensures Valid() && env == map key | key in old(env) && !HasPrefix(key, PREFIX) :: old(env)[key]
    {
      var inherited := env;
      var todo := env.Keys;
      while todo != {}
        invariant todo <= old(env).Keys
        invariant env == map key | key in old(env) && (key in todo || !HasPrefix(key, PREFIX)) :: old(env)[key]
        decreases todo
      {
        var key :| key in todo;
        todo := todo - {key};
        var entry := key + "=" + inherited[key];
        EntryPrefix(key, inherited[key]);
        if HasPrefix(entry, PREFIX) {
          env := env - {Split(entry, '=')[0]};
        }
      }
    }

    /** Sets every token, in whatever order the map is walked. */
    method SetTokens() returns (ok: bool)
      requires Valid()
      modifies this`env
      ensures Valid()
      ensures ok <==> forall key <- tokens :: IsSettable(key, tokens[key])
      ensures ok ==> env == old(env) + tokens
    {
      var todo := tokens.Keys;
      while todo != {}
        invariant Valid() && todo <= tokens.Keys
        invariant env == old(env) + map key | key in tokens && key !in todo :: tokens[key]
        invariant forall key <- tokens :: key !in todo ==> IsSettable(key, tokens[key])
        decreases todo
      {
        var key :| key in todo;
        if !IsSettable(key, tokens[key]) {
          return false;
        }
        todo := todo - {key};
        env := env[key := tokens[key]];
      }
      assert tokens == map key | key in tokens && key !in todo :: tokens[key];
      return true;
    }

    /** A command runs only in the environment made of the supplied tokens and its plugin's config. */
    method ExecutePolicyCommand(config: PluginConfig) returns (result: Execution)
      requires Valid()
      modifies this
      ensures Valid() && attempts == old(attempts) + [config]
      ensures tokens == match world.encode(config)
                        case None => old(tokens)
                        case Some(encoded) => old(tokens)[CONFIG_KEY := encoded]
      ensures match Attempt(world, config, old(tokens))
              case Some(error) => result == Refused(error) && calls == old(calls)
              case None =>
                if IsBlankCommand(config) then result == Crashed && calls == old(calls)
                else result.Ran? && ShellQuote.Split(config.command) == ShellQuote.Words(result.command) &&
                     calls == old(calls) +
                       [Call(config, result.command, PluginEnv(old(env), tokens), result.output, result.ok)] &&
                     world.exec(old(runs), result.command, PluginEnv(old(env), tokens)) == (result.output, result.ok)
    {
      attempts := attempts + [config];
      var encoded := world.encode(config);
      if encoded == None {
        return Refused(NotEncoded);
      }
      tokens := tokens[CONFIG_KEY := encoded.value];
      ClearPluginEnv();
      var ok := SetTokens();
      if !ok {
        return Refused(NotSet);
      }
      assert env == PluginEnv(old(env), tokens);
      match ShellQuote.Split(config.command) {
        case Unterminated(_) => return Refused(BadQuoting);
        case Words(command) =>
          if command == [] {
            return Crashed;
          }
          if !CheckPerm(world, command[0], COMMAND_MODES, "root") {
            return Refused(InsecureCommand);
          }
          var answer := world.exec(runs, command, env);
          runs := runs + 1;
          calls := calls + [Call(config, command, env, answer.0, answer.1)];
          return Ran(command, answer.0, answer.1);
      }
    }

    /**
     Every cleanly loaded plugin is attempted once, in order, whatever earlier ones answered; every
     command that runs sees its own tokens alone; and the run panics exactly on a blank command.
     */
    method CheckPolicies(dir: string) returns (outcome: Outcome)
      requires Valid()
      modifies this
      ensures Valid()
      ensures outcome.Failed? <==> LoadAll(world, dir) == None
      ensures outcome.Panic? <==>
                LoadAll(world, dir).Some? &&
                exists loaded <- LoadAll(world, dir).value :: CrashesOn(world, loaded, old(tokens))
      ensures outcome.Results? ==>
                var loaded := LoadAll(world, dir).value;
                && |outcome.results| == |loaded|
                && (forall i :: 0 <= i < |loaded| ==> IsSettled(world, loaded[i], outcome.results[i], old(tokens)))
                && (forall i :: 0 <= i < |loaded| ==> IsBacked(calls, |old(calls)|, outcome.results[i]))
                && attempts == old(attempts) + Flat(CleanConfig, loaded)
      ensures old(calls) <= calls
      ensures forall i :: |old(calls)| <= i < |calls| ==> IsIsolated(world, calls[i], old(tokens))
      ensures forall i :: |old(calls)| <= i < |calls| ==> IsTrusted(world, dir, calls[i])
    {
      hide LoadAll, IsSettled, IsIsolated, Attempt, IsBlankCommand, IsBacked, LoadConfig, SameTokens, CrashesOn,
           CleanConfig, Flat, IsTrusted, IsRootCommand;
      FlatNone(CleanConfig);
      TokensAtFirst(tokens);
      var plugins := LoadPlugins(world, dir);
      if plugins == None {
        return Failed;
      }
      var loaded := plugins.value;
      var results := loaded;
      assert loaded[..0] == [];
      for i := 0 to |loaded|
        invariant Valid() && |results| == |loaded| && forall j :: i <= j < |loaded| ==> results[j] == loaded[j]
        invariant SameTokens(tokens, old(tokens))
        invariant forall j :: 0 <= j < i ==> IsSettled(world, loaded[j], results[j], old(tokens))
        invariant forall j :: 0 <= j < i ==> IsBacked(calls, |old(calls)|, results[j])
        invariant forall j :: 0 <= j < i ==> !CrashesOn(world, loaded[j], old(tokens))
        invariant attempts == old(attempts) + Flat(CleanConfig, loaded[..i])
        invariant old(calls) <= calls
        invariant forall j :: |old(calls)| <= j < |calls| ==> IsIsolated(world, calls[j], old(tokens))
        invariant forall j :: |old(calls)| <= j < |calls| ==> IsTrusted(world, dir, calls[j])
      {
        FlatStep(CleanConfig, loaded, i);
        LoadedFrom(world, dir, loaded[i]);
        ghost var sofar := calls;
        var settled := RunPlugin(loaded[i], old(tokens), old(calls));
        StillBacked(sofar, calls, |old(calls)|, results, i);
        forall j | |sofar| <= j < |calls| ensures IsTrusted(world, dir, calls[j]) {
          TrustedCall(world, dir, loaded[i], calls[j]);
        }
        if settled == None {
          assert loaded[i] in loaded;
          return Panic;
        }
        results := results[i := settled.value];
      }
      assert loaded[..|loaded|] == loaded;
      return Results(results);
    }

    /** One turn of the loop over the loaded plugins; none stands for a panic. */
    method RunPlugin(loaded: PluginResult, ghost supplied: Env, ghost before: seq<Call>)
      returns (settled: Option<PluginResult>)
      requires Valid() && SameTokens(tokens, supplied) && loaded.command == []
      requires before <= calls
      requires forall i :: |before| <= i < |calls| ==> IsIsolated(world, calls[i], supplied)
      modifies this
      ensures Valid() && SameTokens(tokens, supplied)
      ensures settled == None <==> CrashesOn(world, loaded, supplied)
      ensures settled.Some? ==> IsSettled(world, loaded, settled.value, supplied)
      ensures settled.Some? ==> IsBacked(calls, |before|, settled.value)
      ensures attempts == old(attempts) + CleanConfig(loaded)
      ensures before <= calls && old(calls) <= calls
      ensures forall i :: |before| <= i < |calls| ==> IsIsolated(world, calls[i], supplied)
      ensures forall i :: |old(calls)| <= i < |calls| ==>
                loaded.error == None && calls[i].config == loaded.config && IsRootCommand(world, calls[i].command)
    {
      hide Attempt, PluginEnv, PluginPart, ShellQuote.Split, TrimSpace, CheckPerm;
      if loaded.error != None {
        return Some(loaded);
      }
      AttemptSameTokens(world, loaded.config, tokens, supplied);
      var execution := ExecutePolicyCommand(loaded.config);
      PluginPartOfEnv(old(env), tokens);
      if execution.Ran? {
        AttemptedByRoot(world, loaded.config, old(tokens), execution.command);
      }
      match execution
      case Crashed => return None;
      case Refused(error) => return Some(loaded.(error := Some(error), output := "", command := [], allowed := false));
      case Ran(command, text, ok) =>
        var output := TrimSpace(text);
        assert calls[|old(calls)|].output == text;
        var result := loaded.(output := output, command := command);
        if !ok {
          return Some(result.(error := Some(CommandFailed), allowed := false));
        }
        return Some(result.(allowed := output == "allow"));
    }
  }

  lemma AttemptedByRoot(world: World, config: PluginConfig, tokens: Env, command: seq<string>)
    requires Attempt(world, config, tokens) == None
    requires ShellQuote.Split(config.command) == ShellQuote.Words(command) && command != []
    ensures IsRootCommand(world, command)
  {
    hide ShellQuote.Split, IsSettable;
  }

  /** A cleanly loaded result stands for a config of root's in a directory of root's. */
  lemma LoadedIsRoots(world: World, dir: string, loaded: PluginResult)
    requires LoadAll(world, dir).Some? && loaded in LoadAll(world, dir).value && loaded.error == None
    ensures IsRootDir(world, dir)
    ensures exists name :: loaded.path == dir + "/" + name && IsRootConfig(world, dir, name, loaded.config)
  {
    hide Flat, AllDescribed;
    FlatMember(LoadEntry(world, dir), world.list(dir).value, loaded);
    var name :| name in world.list(dir).value && loaded in LoadEntry(world, dir)(name);
    assert IsRootConfig(world, dir, name, loaded.config);
  }

  /** The promise on calls, written out. */
  lemma WhoIsTrusted(world: World, dir: string, call: Call)
    requires IsTrusted(world, dir, call)
    ensures call.command != [] && world.stat(call.command[0]).Some?
    ensures var file := world.stat(call.command[0]).value; file.owner == "root" && file.mode in {0x16D, 0x1ED}
    ensures world.stat(dir).Some?
    ensures var file := world.stat(dir).value; file.owner == "root" && file.mode in {0x1C0, 0x1E8, 0x1ED}
    ensures exists name :: world.list(dir).Some? && name in world.list(dir).value &&
              world.stat(dir + "/" + name).Some? && world.read(dir + "/" + name).Some? &&
              world.decode(world.read(dir + "/" + name).value) == Some(call.config) &&
              var file := world.stat(dir + "/" + name).value; file.owner == "root" && file.mode == 0x1A0
  {
    var name :| IsRootConfig(world, dir, name, call.config);
    assert name in world.list(dir).value;
  }

  lemma TrustedCall(world: World, dir: string, loaded: PluginResult, call: Call)
    requires LoadAll(world, dir).Some? && loaded in LoadAll(world, dir).value && loaded.error == None
    requires call.config == loaded.config && IsRootCommand(world, call.command)
    ensures IsTrusted(world, dir, call)
  {
    LoadedIsRoots(world, dir, loaded);
  }

  lemma TokensAtFirst(tokens: Env)
    ensures SameTokens(tokens, tokens)
  {
  }

  lemma StillBacked(calls: seq<Call>, more: seq<Call>, from: nat, results: seq<PluginResult>, n: nat)
    requires calls <= more && n <= |results|
    requires forall i :: 0 <= i < n ==> IsBacked(calls, from, results[i])
    ensures forall i :: 0 <= i < n ==> IsBacked(more, from, results[i])
  {
    forall i | 0 <= i < n ensures IsBacked(more, from, results[i]) {
      if results[i].command != [] {
        var k :| from <= k < |calls| && calls[k].config == results[i].config &&
            calls[k].command == results[i].command &&
                 results[i].output == TrimSpace(calls[k].output) && (results[i].error == None <==> calls[k].ok);
        assert more[k] == calls[k];
      }
    }
  }

  lemma AttemptSameTokens(world: World, config: PluginConfig, tokens: Env, supplied: Env)
    requires SameTokens(tokens, supplied)
    ensures Attempt(world, config, tokens) == Attempt(world, config, supplied)
    ensures Attempt(world, config, tokens) == None ==> world.encode(config).Some?
    ensures world.encode(config).Some? ==>
              var next := tokens[CONFIG_KEY := world.encode(config).value];
              next == supplied[CONFIG_KEY := world.encode(config).value] && SameTokens(next, supplied)
  {
    var encoded := world.encode(config);
    if encoded.Some? {
      var a, b := tokens[CONFIG_KEY := encoded.value], supplied[CONFIG_KEY := encoded.value];
      assert a == (tokens - {CONFIG_KEY})[CONFIG_KEY := encoded.value];
      assert b == (supplied - {CONFIG_KEY})[CONFIG_KEY := encoded.value];
      assert a - {CONFIG_KEY} == tokens - {CONFIG_KEY};
    }
  }

  /** The commands that make a run panic: those of blanks and escaped line feeds alone. */
  lemma BlankCommands(config: PluginConfig)
    ensures IsBlankCommand(config) <==> ShellQuote.IsBlankText(config.command)
  {
    ShellQuote.SplitOfBlanks(config.command);
  }

  // ---------------------------------------------------------------- bookkeeping

  lemma LoadedFrom(world: World, dir: string, loaded: PluginResult)
    requires LoadAll(world, dir).Some? && loaded in LoadAll(world, dir).value
    ensures loaded == LoadConfig(world, loaded.path) && !loaded.allowed && loaded.command == []
  {
    hide LoadConfig, PathIn, HasSuffix, CheckPerm, AllDescribed, Flat;
    FlatMember(LoadEntry(world, dir), world.list(dir).value, loaded);
    var name :| name in world.list(dir).value && loaded in LoadEntry(world, dir)(name);
    LoadConfigOf(world, PathIn(dir, name));
  }

  lemma LoadConfigOf(world: World, path: string)
    ensures var loaded := LoadConfig(world, path); loaded.path == path && !loaded.allowed && loaded.command == []
  {
  }

  /**
   An allowed result stands for a command that printed exactly "allow" and succeeded, named in a
   config file that root owns with mode 640, itself owned by root with mode 555 or 755, in root's directory.
   */
  lemma AllowedMeansAllow(world: World, dir: string, loaded: PluginResult, result: PluginResult, tokens: Env)
    requires LoadAll(world, dir).Some? && loaded in LoadAll(world, dir).value
    requires IsSettled(world, loaded, result, tokens) && result.allowed
    ensures result.output == "allow" && result.error == None
    ensures CheckPerm(world, result.path, CONFIG_MODES, "root")
    ensures IsRootCommand(world, result.command) && CheckPerm(world, result.command[0], COMMAND_MODES, "root")
    ensures IsRootDir(world, dir)
    ensures exists name :: result.path == dir + "/" + name && IsRootConfig(world, dir, name, result.config)
  {
    LoadedFrom(world, dir, loaded);
    LoadedIsRoots(world, dir, loaded);
    AttemptedByRoot(world, loaded.config, tokens, result.command);
  }

  /** So the panic on an inconsistent result is out of reach for what a run returns. */
  lemma NeverInconsistent(world: World, dir: string, results: seq<PluginResult>, tokens: Env)
    requires LoadAll(world, dir).Some?
    requires var loaded := LoadAll(world, dir).value;
             |results| == |loaded| && forall i :: 0 <= i < |loaded| ==> IsSettled(world, loaded[i], results[i], tokens)
    ensures forall result <- results :: result.allowed ==> result.output == "allow"
  {
    hide IsSettled, LoadAll;
    forall result <- results ensures result.allowed ==> result.output == "allow" {
      var i :| 0 <= i < |results| && results[i] == result;
      if result.allowed {
        AllowedMeansAllow(world, dir, LoadAll(world, dir).value[i], result, tokens);
      }
    }
  }

  // ---------------------------------------------------------------- what is refused, and why

  /**
   Nothing is loaded from a directory exactly if it is not root's, cannot be listed or has an entry
   without attributes.
   */
  lemma WhenNothingLoads(world: World, dir: string)
    ensures LoadAll(world, dir) == None <==>
            || !IsRootDir(world, dir) || world.list(dir) == None
            || exists name <- world.list(dir).value :: world.stat(dir + "/" + name) == None
  {
    if IsRootDir(world, dir) && world.list(dir).Some? {
      var names := world.list(dir).value;
      if AllDescribed(world, dir, names) {
        forall name <- names ensures world.stat(dir + "/" + name).Some? {
          var i :| 0 <= i < |names| && names[i] == name;
        }
      } else {
        var i :| 0 <= i < |names| && world.stat(PathIn(dir, names[i])) == None;
        assert names[i] in names && world.stat(dir + "/" + names[i]) == None;
      }
    }
  }

  /** A yml file. */
  predicate IsYaml(world: World, path: string, name: string)
  {
    |name| >= 4 && name[|name| - 4..] == ".yml" && world.stat(path).Some? && !world.stat(path).value.isDir
  }

  /** The results that are loaded: of every listed yml file, and of no other. */
  lemma WhatIsLoaded(world: World, dir: string, loaded: PluginResult)
    requires LoadAll(world, dir).Some?
    ensures loaded in LoadAll(world, dir).value <==>
            exists name <- world.list(dir).value ::
              IsYaml(world, dir + "/" + name, name) && loaded == LoadConfig(world, dir + "/" + name)
  {
    var names := world.list(dir).value;
    forall name: string ensures IsPlugin(world, dir, name) <==> IsYaml(world, dir + "/" + name, name) {
      assert PathIn(dir, name) == dir + "/" + name;
    }
    assert LoadAll(world, dir).value == Flat(LoadEntry(world, dir), names);
    hide Flat, LoadConfig, IsPlugin, IsYaml, LoadAll, LoadEntry, PathIn;
    if loaded in Flat(LoadEntry(world, dir), names) {
      FlatMember(LoadEntry(world, dir), names, loaded);
      var name :| name in names && loaded in LoadEntry(world, dir)(name);
      LoadEntryOf(world, dir, name);
      PathInIs(dir, name);
    }
    forall name <- names
      | IsYaml(world, dir + "/" + name, name) && loaded == LoadConfig(world, dir + "/" + name)
      ensures loaded in Flat(LoadEntry(world, dir), names)
    {
      LoadEntryOf(world, dir, name);
      PathInIs(dir, name);
      FlatHas(LoadEntry(world, dir), names, name, loaded);
    }
  }

  lemma PathInIs(dir: string, name: string)
    ensures PathIn(dir, name) == dir + "/" + name
  {
  }

  /** What is wrong with a config file is reported in the order of the checks, and nothing is taken from it. */
  lemma WhyConfigFails(world: World, path: string)
    requires world.stat(path).Some?
    ensures var result, stat := LoadConfig(world, path), world.stat(path).value;
            && (result.error == Some(InsecureConfig) <==> stat.owner != "root" || stat.mode != 0x1A0)
            && (result.error == Some(Unreadable) <==>
                  stat.owner == "root" && stat.mode == 0x1A0 && world.read(path) == None)
            && (result.error.Some? ==> result.config == PluginConfig("", ""))
            && (result.error == None ==>
               world.read(path).Some? && world.decode(world.read(path).value) == Some(result.config))
            && (result.error == Some(BadYaml) ==>
               world.read(path).Some? && world.decode(world.read(path).value) == None)
            && (result.error == Some(NoName) ==>
                  exists config :: world.decode(world.read(path).value) == Some(config) && config.name == "")
            && (result.error == Some(NoCommand) ==>
                  exists config ::
                    world.decode(world.read(path).value) == Some(config) && config.name != "" && config.command == "")
            && (result.error == None || result.error.value in {InsecureConfig, Unreadable, BadYaml, NoName, NoCommand})
            && result.path == path && result.command == [] && result.output == "" && !result.allowed
  {
  }

  /** A command whose file is not root's, or has another mode, is refused; and why attempts fail otherwise. */
  lemma WhyAttemptFails(world: World, config: PluginConfig, tokens: Env, command: seq<string>)
    requires ShellQuote.Split(config.command) == ShellQuote.Words(command) && command != []
    ensures var attempt := Attempt(world, config, tokens);
            && (attempt == Some(NotEncoded) <==> world.encode(config) == None)
            && (attempt == Some(NotSet) <==>
                  world.encode(config).Some? &&
                  var all := tokens["OPKSSH_PLUGIN_CONFIG" := world.encode(config).value];
                  exists key <- all :: key == "" || '=' in key || '\0' in key || '\0' in all[key])
            && (attempt == Some(InsecureCommand) || attempt == None <==>
                  attempt != Some(NotEncoded) && attempt != Some(NotSet))
            && (attempt == None ==> IsRootCommand(world, command))
            && (attempt == Some(InsecureCommand) ==> !IsRootCommand(world, command))
  {
    hide ShellQuote.Split;
  }

  /** A variable of a command: a token, or inherited and not under the prefix. */
  lemma WhatCommandsSee(env: Env, tokens: Env, key: string)
    ensures key in PluginEnv(env, tokens) <==> key in tokens || (key in env && !("OPKSSH_PLUGIN_" <= key))
    ensures key in tokens ==> PluginEnv(env, tokens)[key] == tokens[key]
    ensures key in env && !("OPKSSH_PLUGIN_" <= key) && key !in tokens ==> PluginEnv(env, tokens)[key] == env[key]
  {
  }

  // ---------------------------------------------------------------- what the results of a run mean

  /** A result that loading spoiled stays as it is; any other shows why its attempt failed, or what it answered. */
  lemma WhatResultsMean(world: World, loaded: PluginResult, result: PluginResult, tokens: Env)
    requires IsSettled(world, loaded, result, tokens) && !loaded.allowed
    ensures result.path == loaded.path && result.config == loaded.config
    ensures loaded.error.Some? ==> result == loaded
    ensures loaded.error == None && Attempt(world, loaded.config, tokens).Some? ==>
              result.error == Attempt(world, loaded.config, tokens) && result.output == "" && result.command == []
    ensures loaded.error == None && Attempt(world, loaded.config, tokens) == None ==>
              ShellQuote.Split(loaded.config.command) == ShellQuote.Words(result.command) && result.command != []
    ensures result.allowed <==>
              && loaded.error == None && Attempt(world, loaded.config, tokens) == None
              && result.error == None && result.output == "allow"
  {
    hide Attempt, ShellQuote.Split;
  }

  /** A result with a command shows what that command answered when it was run for this config. */
  lemma WhatBacksResults(calls: seq<Call>, from: nat, result: PluginResult)
    requires IsBacked(calls, from, result) && result.command != []
    ensures exists i :: from <= i < |calls| &&
              calls[i].config == result.config && calls[i].command == result.command &&
              TrimSpace(calls[i].output) == result.output && (calls[i].ok <==> result.error == None)
  {
    hide TrimSpace;
  }

  /** Under the prefix a command sees the tokens, its own config and nothing else. */
  lemma WhatIsolationMeans(world: World, call: Call, supplied: Env, key: string)
    requires IsIsolated(world, call, supplied) && "OPKSSH_PLUGIN_" <= key
    ensures world.encode(call.config).Some?
    ensures key in call.env <==> key in supplied || key == "OPKSSH_PLUGIN_CONFIG"
    ensures key == "OPKSSH_PLUGIN_CONFIG" ==> call.env[key] == world.encode(call.config).value
    ensures key in supplied && key != "OPKSSH_PLUGIN_CONFIG" ==> call.env[key] == supplied[key]
  {
    var all := supplied[CONFIG_KEY := world.encode(call.config).value];
    assert key in PluginPart(call.env) <==> key in call.env;
    assert key in PluginPart(all) <==> key in all;
    assert key in PluginPart(call.env) ==> PluginPart(call.env)[key] == call.env[key];
    assert key in PluginPart(all) ==> PluginPart(all)[key] == all[key];
  }

  /** A loaded plugin makes the run panic if and only if its attempt gets as far as a blank command. */
  lemma WhatCrashes(world: World, loaded: PluginResult, tokens: Env)
    ensures CrashesOn(world, loaded, tokens) <==>
            && loaded.error == None && world.encode(loaded.config).Some?
            && ShellQuote.IsBlankText(loaded.config.command)
            && var all := tokens["OPKSSH_PLUGIN_CONFIG" := world.encode(loaded.config).value];
               forall key <- all :: key != "" && '=' !in key && '\0' !in key && '\0' !in all[key]
  {
    BlankCommands(loaded.config);
    hide ShellQuote.Split, ShellQuote.IsBlankText;
  }
}
