/**
 The add command (commands/add.go): choose the system or the home policy file, read it, add the
 grant and write it back. Files are a map from paths; what the operating system may refuse is part
 of the map or a parameter.
 */
module AddCommand {
  import opened Text
  import Policy

  const SYSTEM_MODE := 0x1A0  // octal 640
  const HOME_MODE := 0x180    // octal 600

  /** Hidden: even asking for the file's attributes is refused. */
  datatype File = Hidden | File(content: string, mode: int, readable: bool)

  datatype Load = Loaded(content: string) | NoFile | NoPermission | WrongMode

  datatype Write = Written | Failed(left: string)

  /** Creating a file: some directory or the file can stay missing, or the mode cannot be set. */
  datatype Creation = Created | NoDirectory(made: set<string>) | NotCreated | ModeNotSet(mode: int)

  datatype Outcome = Updated(path: string) | Error

  type Files = map<string, File>

  /** FileLoader.LoadFileAtPath: attributes first, then the mode, then the bytes. */
  function LoadFile(files: Files, path: string, mode: int): Load
  {
    if path !in files then NoFile
    else
      match files[path]
      case Hidden => NoPermission
      case File(content, m, readable) =>
        if m != mode then WrongMode else if !readable then NoPermission else Loaded(content)
  }

  /** The file that an add is about, or none if the command cannot tell. */
  function Target(files: Files, system: string, home: Option<string>): Option<string>
  {
    match LoadFile(files, system, SYSTEM_MODE)
    case Loaded(_) => Some(system)
    case NoPermission => home
    case _ => None
  }

  /** What the target held before: a missing home file counts as empty if it can be created. */
  function Before(files: Files, system: string, home: Option<string>, creation: Creation): Option<string>
  {
    match LoadFile(files, system, SYSTEM_MODE)
    case Loaded(content) => Some(content)
    case NoPermission =>
      if home == None then None
      else if home.value !in files then (if creation.Created? then Some("") else None)
      else (match LoadFile(files, home.value, HOME_MODE) case Loaded(content) => Some(content) case _ => None)
    case _ => None
  }

  /** The directories above a file. */
  function Parents(path: string): set<string>
  {
    set i | 0 < i < |path| && path[i] == '/' :: path[..i]
  }

  /** A directory is above a file if the file's path goes on behind it. */
  lemma WhatIsAbove(path: string, dir: string)
    ensures dir in Parents(path) <==> dir != "" && exists rest :: path == dir + "/" + rest
  {
    if dir in Parents(path) {
      assert path == dir + "/" + path[|dir| + 1..];
    }
    if rest :| dir != "" && path == dir + "/" + rest {
      assert path[|dir|] == '/' && path[..|dir|] == dir;
    }
  }

  /** The system file is there and cannot be asked for its attributes, or has mode 640 and cannot be read. */
  predicate LacksPermission(files: Files, system: string)
  {
    system in files && (files[system].Hidden? || (files[system].mode == 0x1A0 && !files[system].readable))
  }

  class AddCmd {
    var files: Files
    var dirs: set<string>
    const system: string
    const home: Option<string>

    constructor (files: Files, dirs: set<string>, system: string, home: Option<string>)
      ensures this.files == files && this.dirs == dirs && this.system == system && this.home == home
    {
      this.files, this.dirs, this.system, this.home := files, dirs, system, home;
    }

    /** The path to write to and whether it is the system policy. */
    method GetPolicyPath() returns (path: Option<string>, useSystem: bool)
      ensures path == Target(files, system, home)
      ensures useSystem <==> LoadFile(files, system, SYSTEM_MODE).Loaded?
    {
      match LoadFile(files, system, SYSTEM_MODE)
      case Loaded(_) => path, useSystem := Some(system), true;
      case NoPermission => path, useSystem := home, false;
      case _ => path, useSystem := None, false;
    }

    /** Creates a missing file, empty and with the loader's mode, and the directories above it. */
    method CreateIfDoesNotExist(path: string, mode: int, creation: Creation) returns (ok: bool)
      modifies this`files, this`dirs
      ensures ok <==> if path in old(files) then old(files)[path] != Hidden else creation.Created?
      ensures files == if path in old(files) then old(files)
                       else
                         match creation
                         case Created => old(files)[path := File("", mode, true)]
                         case ModeNotSet(m) => old(files)[path := File("", m, true)]
                         case _ => old(files)
      ensures dirs == if path in old(files) then old(dirs)
                      else if creation.NoDirectory? then old(dirs) + creation.made * Parents(path)
                      else old(dirs) + Parents(path)
    {
      if path in files {
        return files[path] != Hidden;
      }
      dirs := dirs + if creation.NoDirectory? then creation.made * Parents(path) else Parents(path);
      match creation
      case NoDirectory(_) =>
        return false;
      case NotCreated =>
        return false;
      case ModeNotSet(m) =>
        files := files[path := File("", m, true)];
        return false;
      case Created =>
        files := files[path := File("", mode, true)];
        return true;
    }

    method LoadPolicy() returns (policy: Option<Policy.Policy>, path: string)
      ensures policy.Some? ==> fresh(policy.value)
      ensures policy.Some? <==> LoadFile(files, system, SYSTEM_MODE).Loaded? ||
                                (LoadFile(files, system, SYSTEM_MODE).NoPermission? && home.Some? &&
                                 LoadFile(files, home.value, HOME_MODE).Loaded?)
      ensures policy.Some? ==>
                var fromSystem := LoadFile(files, system, SYSTEM_MODE);
                if fromSystem.Loaded? then path == system && policy.value.users == Policy.UsersOf(fromSystem.content)
                else path == home.value &&
                     policy.value.users == Policy.UsersOf(LoadFile(files, home.value, HOME_MODE).content)
    {
      match LoadFile(files, system, SYSTEM_MODE) {
        case Loaded(content) =>
          var p, _ := Policy.FromTable(content);
          return Some(p), system;
        case NoPermission =>
          if home.Some? {
            match LoadFile(files, home.value, HOME_MODE) {
              case Loaded(content) =>
                var p, _ := Policy.FromTable(content);
                return Some(p), home.value;
              case _ =>
            }
          }
        case _ =>
      }
      return None, "";
    }

    /**
     A successful run changes the contents of the target file alone, to the old file with the grant
     added; the re-read file grants the old grants and the new one exactly if the updated grants are
     kept. Any other run leaves every other file as it was.
     */
    method Run(principal: string, identity: string, issuer: string, creation: Creation, write: Write)
      returns (outcome: Outcome)
      modifies this`files, this`dirs
      ensures var before := Before(old(files), system, home, creation);
              outcome.Updated? <==> before.Some? && write.Written?
      ensures outcome.Updated? ==>
                var path := Target(old(files), system, home);
                path == Some(outcome.path) && outcome.path in files && files[outcome.path].File? &&
                files[outcome.path].content ==
                  Policy.AddToFile(Before(old(files), system, home, creation).value, principal, identity, issuer)
      ensures outcome.Updated? ==>
                var users := Policy.UsersOf(Before(old(files), system, home, creation).value);
                var grant := [principal, identity, issuer];
                (Policy.Grants(Policy.UsersOf(files[outcome.path].content)) == Policy.Grants(users) + {grant} <==>
                 Policy.KeepsGrants(Policy.RowsOf(Policy.Added(users, principal, identity, issuer))))
      ensures var path := Target(old(files), system, home);
              var more := if path == None || path.value in old(files) then {} else Parents(path.value);
              old(dirs) <= dirs <= old(dirs) + more
      // Which file is updated, and which modes are refused without a change.
      ensures system !in old(files) ==> outcome.Error? && files == old(files)
      ensures system in old(files) && old(files)[system].File? && old(files)[system].mode != 0x1A0 ==>
                outcome.Error? && files == old(files)
      ensures system in old(files) && old(files)[system].File? && old(files)[system].mode == 0x1A0 &&
              old(files)[system].readable ==>
                (outcome == Updated(system) <==> write.Written?)
      ensures outcome == Updated(system) && system in old(files) && old(files)[system].File? &&
              !LacksPermission(old(files), system) ==>
                files == old(files)[system := old(files)[system].(
                  content := Policy.AddToFile(old(files)[system].content, principal, identity, issuer))]
      ensures outcome.Updated? && LacksPermission(old(files), system) && home.Some? && home.value in old(files) &&
              old(files)[home.value].File? ==>
                files == old(files)[home.value := old(files)[home.value].(
                  content := Policy.AddToFile(old(files)[home.value].content, principal, identity, issuer))]
      ensures outcome.Updated? && LacksPermission(old(files), system) && home.Some? && home.value !in old(files) ==>
                files == old(files)[home.value := File(Policy.AddToFile("", principal, identity, issuer), 0x180, true)]
      ensures LacksPermission(old(files), system) && home == None ==> outcome.Error? && files == old(files)
      ensures LacksPermission(old(files), system) && home.Some? && home.value in old(files) &&
              old(files)[home.value].File? && old(files)[home.value].mode != 0x180 ==>
                outcome.Error? && files == old(files)
      ensures LacksPermission(old(files), system) && home.Some? && home.value in old(files) &&
              old(files)[home.value].File? && old(files)[home.value].mode == 0x180 &&
              old(files)[home.value].readable ==>
                (outcome == Updated(home.value) <==> write.Written?)
      ensures LacksPermission(old(files), system) && home.Some? && home.value !in old(files) ==>
                (outcome == Updated(home.value) <==> creation.Created? && write.Written?)
      ensures forall path :: (path in files || path in old(files)) && Target(old(files), system, home) != Some(path) ==>
                path in files && path in old(files) && files[path] == old(files)[path]
    {
      hide Policy.UsersOf, Policy.Bytes, Policy.Added, Policy.RowsOf, Policy.KeepsGrants, Policy.Grants;
      var policyPath, useSystem := GetPolicyPath();
      if policyPath == None {
        return Error;
      }
      var ok := CreateIfDoesNotExist(policyPath.value, if useSystem then SYSTEM_MODE else HOME_MODE, creation);
      if !ok {
        return Error;
      }
      assert LoadFile(files, system, SYSTEM_MODE) == LoadFile(old(files), system, SYSTEM_MODE);
      var policy, path := LoadPolicy();
      if policy == None {
        return Error;
      }
      policy.value.AddAllowedPrincipal(principal, identity, issuer);
      var bytes := policy.value.ToTable();
      match write
      case Written =>
        Policy.AddThroughFile(Before(old(files), system, home, creation).value, principal, identity, issuer);
        files := files[path := files[path].(content := bytes)];
        return Updated(path);
      case Failed(left) =>
        files := files[path := files[path].(content := left)];
        return Error;
    }
  }
}
