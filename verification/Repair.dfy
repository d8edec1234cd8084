/**
 What a repair of permissions plans and achieves (commands/permissions.go, policy/files/perminfo_unix.go),
 with every path, mode, owner and group written out.
 */
module Repair {
  import opened Text
  import opened Permissions

  /** A plugin file of the listing. */
  predicate IsListedPlugin(disk: Disk, name: string)
  {
    && disk.plugins.Some? && Entry(name, false) in disk.plugins.value
    && |name| >= 4 && name[|name| - 4..] == ".yml"
  }

  lemma PathsAre()
    ensures SYSTEM_POLICY == "/etc/opk/auth_id" && PROVIDERS == "/etc/opk/providers"
    ensures CONFIG == "/etc/opk/config.yml" && PLUGINS == "/etc/opk/policy.d"
    ensures forall name :: PathIn(PLUGINS, name) == "/etc/opk/policy.d/" + name
  {
    forall name ensures PathIn(PLUGINS, name) == "/etc/opk/policy.d/" + name {
      assert PLUGINS + "/" == "/etc/opk/policy.d/";
    }
  }

  // ---------------------------------------------------------------- what is planned

  /** The operations on the files that exist or will. */
  ghost predicate IsFileOp(disk: Disk, op: Op)
  {
    || op == Chmod("/etc/opk/auth_id", 0x1A0) || op == Chown("/etc/opk/auth_id", "root", "opksshuser")
    || ("/etc/opk/providers" in disk.files &&
        op in {Chmod("/etc/opk/providers", 0x1A0), Chown("/etc/opk/providers", "root", "opksshuser")})
    || ("/etc/opk/config.yml" in disk.files &&
        op in {Chmod("/etc/opk/config.yml", 0x1A0), Chown("/etc/opk/config.yml", "root", "opksshuser")})
    || (exists name :: IsListedPlugin(disk, name) &&
          op in {Chmod("/etc/opk/policy.d/" + name, 0x1A0), Chown("/etc/opk/policy.d/" + name, "root", "")})
  }

  lemma PluginPlan(disk: Disk, op: Op)
    ensures op in PlanPlugins(disk) <==>
            exists name :: IsListedPlugin(disk, name) &&
              op in {Chmod("/etc/opk/policy.d/" + name, 0x1A0), Chown("/etc/opk/policy.d/" + name, "root", "")}
  {
    PathsAre();
    hide Flat, PathIn, PLUGINS;
    if op in PlanPlugins(disk) {
      FlatMember(PluginOps, disk.plugins.value, op);
      var entry :| entry in disk.plugins.value && op in PluginOps(entry);
      assert entry == Entry(entry.name, false) && IsListedPlugin(disk, entry.name);
    }
    forall name
      | IsListedPlugin(disk, name) &&
        op in {Chmod("/etc/opk/policy.d/" + name, 0x1A0), Chown("/etc/opk/policy.d/" + name, "root", "")}
      ensures op in PlanPlugins(disk)
    {
      FlatHas(PluginOps, disk.plugins.value, Entry(name, false), op);
    }
  }

  /** What a plan holds, no more and no less. */
  lemma WhatIsPlanned(disk: Disk, op: Op)
    ensures op in Plan(disk) <==>
            || (op == Create("/etc/opk/auth_id") && "/etc/opk/auth_id" !in disk.files)
            || (op == Mkdir("/etc/opk/policy.d", 0x1E8) && "/etc/opk/policy.d" !in disk.files)
            || IsFileOp(disk, op)
  {
    PathsAre();
    PluginPlan(disk, op);
    hide Flat, PathIn, PLUGINS, PROVIDERS, CONFIG, SYSTEM_POLICY, PlanPlugins, IsListedPlugin;
  }

  /** The order of a plan: policy, providers, config, plugins; mode before owner, creation before both. */
  lemma OrderOfPlan(disk: Disk)
    requires disk.plugins == None
    ensures Plan(disk) ==
            (if "/etc/opk/auth_id" in disk.files then [] else [Create("/etc/opk/auth_id")])
            + [Chmod("/etc/opk/auth_id", 0x1A0), Chown("/etc/opk/auth_id", "root", "opksshuser")]
            + (if "/etc/opk/providers" in disk.files
               then [Chmod("/etc/opk/providers", 0x1A0), Chown("/etc/opk/providers", "root", "opksshuser")] else [])
            + (if "/etc/opk/config.yml" in disk.files
               then [Chmod("/etc/opk/config.yml", 0x1A0), Chown("/etc/opk/config.yml", "root", "opksshuser")] else [])
            + (if "/etc/opk/policy.d" in disk.files then [] else [Mkdir("/etc/opk/policy.d", 0x1E8)])
  {
    PathsAre();
    hide PathIn, PLUGINS, PROVIDERS, CONFIG, SYSTEM_POLICY;
  }

  // ---------------------------------------------------------------- what single operations do

  /** The directories above the files, as far as they are missing, and the new file or directory. */
  lemma WhatCreationLeaves(disk: Disk, op: Op)
    requires op.Create? || op.Mkdir?
    requires op.path != "/etc" && op.path != "/etc/opk"
    ensures var after := After(disk, op, Worked);
            && after.files.Keys == disk.files.Keys + {"/etc", "/etc/opk", op.path}
            && after.files[op.path] ==
               Meta(Without(if op.Create? then 0x1B6 else op.mode, disk.umask), "root", "root")
            && (forall path <- disk.files :: path != op.path ==> after.files[path] == disk.files[path])
            && (forall dir <- {"/etc", "/etc/opk"} :: dir !in disk.files ==>
                  after.files[dir] == Meta(Without(0x1E8, disk.umask), "root", "root"))
  {
    hide Without, PathIn;
  }

  /** A creation that fails leaves some of these directories and changes nothing else. */
  lemma WhatFailureLeaves(disk: Disk, op: Op, dirs: nat)
    ensures var after := After(disk, op, Failed(dirs));
            && (op.Chmod? || op.Chown? ==> after == disk)
            && after.plugins == disk.plugins && disk.files.Keys <= after.files.Keys
            && after.files.Keys <= disk.files.Keys + {"/etc", "/etc/opk"}
            && (forall path <- disk.files :: after.files[path] == disk.files[path])
            && (dirs == 0 ==> after == disk)
            && (op.Create? || op.Mkdir? ==>
                  && ("/etc" in after.files <==> "/etc" in disk.files || dirs >= 1)
                  && ("/etc/opk" in after.files <==> "/etc/opk" in disk.files || dirs >= 2))
            && (forall dir <- after.files.Keys - disk.files.Keys ::
                  after.files[dir] == Meta(Without(0x1E8, disk.umask), "root", "root"))
  {
    hide Without, PathIn;
  }

  /** Changing attributes of a file that is there changes these attributes alone. */
  lemma WhatChangesDo(disk: Disk, path: string, mode: Mode, owner: string, group: string)
    requires path in disk.files && owner != ""
    ensures After(disk, Chmod(path, mode), Worked).files == disk.files[path := disk.files[path].(mode := mode)]
    ensures After(disk, Chown(path, owner, group), Worked).files ==
            disk.files[path := Meta(disk.files[path].mode, owner, if group == "" then "root" else group)]
  {
    hide Without, PathIn;
  }

  // ---------------------------------------------------------------- what is achieved

  lemma SettledMode(disk: Disk, path: string, mode: Mode)
    requires IsSettled(disk, Chmod(path, mode)) && path in disk.files
    ensures disk.files[path].mode == mode
  {
  }

  lemma SettledOwner(disk: Disk, path: string, group: string)
    requires IsSettled(disk, Chown(path, "root", group)) && path in disk.files
    ensures disk.files[path].owner == "root" && disk.files[path].group == if group == "" then "root" else group
  {
  }

  lemma SettledIn(disk: Disk, ops: seq<Op>, op: Op)
    requires AreSettled(disk, ops) && op in ops
    ensures IsSettled(disk, op)
  {
    hide IsSettled;
  }

  lemma {:induction false} ApplyKeeps(disk: Disk, ops: seq<Op>)
    ensures disk.files.Keys <= ApplyAll(disk, ops).files.Keys && ApplyAll(disk, ops).umask == disk.umask
  {
    if ops != [] {
      ApplyKeeps(disk, ops[..|ops| - 1]);
    }
  }

  /** The files after a plan that worked. */
  lemma PlanKeeps(disk: Disk)
    requires IsDisk(disk)
    ensures var after := ApplyAll(disk, Plan(disk));
            && disk.files.Keys <= after.files.Keys && after.umask == disk.umask
            && SYSTEM_POLICY in after.files
            && (PROVIDERS in disk.files <==> PROVIDERS in after.files)
            && (CONFIG in disk.files <==> CONFIG in after.files)
            && after.plugins == (if PLUGINS in disk.files then disk.plugins else Some([]))
            && (PLUGINS !in disk.files ==>
                  PLUGINS in after.files && after.files[PLUGINS] == New(DIR_MODE, disk.umask))
  {
    hide Apply, FileOps, PathIn, Flat, IsPlanned, Plan, PLUGINS, PROVIDERS, CONFIG, SYSTEM_POLICY, New;
    ApplyKeeps(disk, Plan(disk));
    ApplyPlan(disk);
    StartedFiles(disk);
    if PLUGINS in disk.files {
      AttributesArePlanned(disk);
      AllBecomeSettled(Started(disk), Attributes(disk));
    } else {
      FirstArePlanned(disk);
      AllBecomeSettled(Started(disk), FirstAttributes(disk));
      var before := ApplyAll(Started(disk), FirstAttributes(disk));
      ApplyKeeps(Started(disk), FirstAttributes(disk));
      MkdirFiles(before);
      NewPlugins(before);
      assert Started(disk).umask == disk.umask by { ApplyKeeps(disk, [Create(SYSTEM_POLICY)]); StartedByCreate(disk); }
    }
  }

  lemma NewPlugins(disk: Disk)
    ensures Apply(disk, Mkdir(PLUGINS, DIR_MODE)).files[PLUGINS] == New(DIR_MODE, disk.umask)
  {
  }

  lemma StartedByCreate(disk: Disk)
    ensures Started(disk) == disk || Started(disk) == ApplyAll(disk, [Create(SYSTEM_POLICY)])
  {
    var ops := [Create(SYSTEM_POLICY)];
    assert ops[..0] == [] && ApplyAll(disk, []) == disk;
  }

  /** The attributes of a file on which both of its operations are settled. */
  lemma FileIsRepaired(disk: Disk, plan: seq<Op>, path: string, group: string)
    requires AreSettled(disk, plan) && path in disk.files
    requires Chmod(path, 0x1A0) in plan && Chown(path, "root", group) in plan
    ensures disk.files[path] == Meta(0x1A0, "root", if group == "" then "root" else group)
  {
    SettledIn(disk, plan, Chmod(path, 0x1A0));
    SettledIn(disk, plan, Chown(path, "root", group));
    SettledMode(disk, path, 0x1A0);
    SettledOwner(disk, path, group);
  }

  /**
   After a run of the plan in which nothing failed: the policy, and providers and config if present,
   belong to root and the opkssh group with mode 640, every listed plugin file that exists belongs to
   root with mode 640, and a missing plugins directory exists with mode 750 less the umask.
   */
  lemma RepairAchieves(disk0: Disk, att0: seq<Op>, worked0: seq<Answer>, disk: Disk, att: seq<Op>, worked: seq<Answer>)
    requires IsDisk(disk0) && IsTrace(disk0, att0, worked0, disk, att, worked, Plan(disk0))
    requires forall i :: |worked0| <= i < |worked| ==> worked[i].Worked?
    ensures "/etc/opk/auth_id" in disk.files && disk.files["/etc/opk/auth_id"] == Meta(0x1A0, "root", "opksshuser")
    ensures "/etc/opk/providers" in disk.files <==> "/etc/opk/providers" in disk0.files
    ensures "/etc/opk/providers" in disk.files ==> disk.files["/etc/opk/providers"] == Meta(0x1A0, "root", "opksshuser")
    ensures "/etc/opk/config.yml" in disk.files <==> "/etc/opk/config.yml" in disk0.files
    ensures "/etc/opk/config.yml" in disk.files ==>
              disk.files["/etc/opk/config.yml"] == Meta(0x1A0, "root", "opksshuser")
    ensures forall name :: IsListedPlugin(disk0, name) && "/etc/opk/policy.d/" + name in disk0.files ==>
              "/etc/opk/policy.d/" + name in disk.files &&
              disk.files["/etc/opk/policy.d/" + name] == Meta(0x1A0, "root", "root")
    ensures "/etc/opk/policy.d" !in disk0.files ==>
              "/etc/opk/policy.d" in disk.files &&
              disk.files["/etc/opk/policy.d"] == Meta(Without(0x1E8, disk0.umask), "root", "root")
  {
    PathsAre();
    assert New(DIR_MODE, disk0.umask) == Meta(Without(0x1E8, disk0.umask), "root", "root");
    AllWorked(disk0, Plan(disk0), worked[|worked0|..]);
    PlanKeeps(disk0);
    NextPlanIsSettled(disk0);
    assert PLUGINS in disk0.files || disk0.plugins == None;
    hide Plan, ApplyAll, AreSettled, Apply, PathIn, PLUGINS, PROVIDERS, CONFIG, SYSTEM_POLICY, IsTrace, New;
    var plan := Plan(disk);
    WhatIsPlanned(disk, Chmod("/etc/opk/auth_id", 0x1A0));
    WhatIsPlanned(disk, Chown("/etc/opk/auth_id", "root", "opksshuser"));
    FileIsRepaired(disk, plan, "/etc/opk/auth_id", "opksshuser");
    if "/etc/opk/providers" in disk.files {
      WhatIsPlanned(disk, Chmod("/etc/opk/providers", 0x1A0));
      WhatIsPlanned(disk, Chown("/etc/opk/providers", "root", "opksshuser"));
      FileIsRepaired(disk, plan, "/etc/opk/providers", "opksshuser");
    }
    if "/etc/opk/config.yml" in disk.files {
      WhatIsPlanned(disk, Chmod("/etc/opk/config.yml", 0x1A0));
      WhatIsPlanned(disk, Chown("/etc/opk/config.yml", "root", "opksshuser"));
      FileIsRepaired(disk, plan, "/etc/opk/config.yml", "opksshuser");
    }
    forall name | IsListedPlugin(disk0, name) && "/etc/opk/policy.d/" + name in disk0.files
      ensures "/etc/opk/policy.d/" + name in disk.files
      ensures disk.files["/etc/opk/policy.d/" + name] == Meta(0x1A0, "root", "root")
    {
      var path := "/etc/opk/policy.d/" + name;
      assert IsListedPlugin(disk, name);
      WhatIsPlanned(disk, Chmod(path, 0x1A0));
      WhatIsPlanned(disk, Chown(path, "root", ""));
      FileIsRepaired(disk, plan, path, "");
    }
  }

  /** A run attempts the plan, operation by operation, and each has its effect by its answer. */
  lemma {:induction false} WhatTracesMean(
    disk0: Disk, att0: seq<Op>, worked0: seq<Answer>, disk: Disk, att: seq<Op>, worked: seq<Answer>, ops: seq<Op>)
    requires IsTrace(disk0, att0, worked0, disk, att, worked, ops)
    ensures att == att0 + ops && worked0 <= worked && |worked| == |worked0| + |ops|
    ensures exists disks: seq<Disk> ::
              && |disks| == |ops| + 1 && disks[0] == disk0 && disks[|ops|] == disk
              && forall i :: 0 <= i < |ops| ==> disks[i + 1] == After(disks[i], ops[i], worked[|worked0| + i])
  {
    var disks := Stages(disk0, ops, worked[|worked0|..]);
    assert disks[|ops|] == disk;
  }

  function Stages(disk: Disk, ops: seq<Op>, worked: seq<Answer>): (disks: seq<Disk>)
    requires |ops| == |worked|
    ensures |disks| == |ops| + 1 && disks[0] == disk && disks[|ops|] == ApplyWorked(disk, ops, worked)
    ensures forall i :: 0 <= i < |ops| ==> disks[i + 1] == After(disks[i], ops[i], worked[i])
  {
    if ops == [] then [disk]
    else
      var n := |ops| - 1;
      var before := Stages(disk, ops[..n], worked[..n]);
      before + [After(before[n], ops[n], worked[n])]
  }

  // ---------------------------------------------------------------- what is left alone

  lemma {:induction false} ApplyElsewhere(disk: Disk, ops: seq<Op>, path: string)
    requires path != "/etc" && path != "/etc/opk"
    requires forall op <- ops :: op.path != path
    ensures path in ApplyAll(disk, ops).files <==> path in disk.files
    ensures path in disk.files ==> ApplyAll(disk, ops).files[path] == disk.files[path]
  {
    if ops != [] {
      var n := |ops| - 1;
      assert ops[n] in ops;
      ApplyElsewhere(disk, ops[..n], path);
    }
  }

  /** A repair touches no other file. */
  lemma OthersAreLeftAlone(disk: Disk, path: string)
    requires path !in {"/etc", "/etc/opk", "/etc/opk/auth_id", "/etc/opk/providers", "/etc/opk/config.yml",
                       "/etc/opk/policy.d"}
    requires forall name :: IsListedPlugin(disk, name) ==> path != "/etc/opk/policy.d/" + name
    ensures var after := ApplyAll(disk, Plan(disk));
            && (path in after.files <==> path in disk.files)
            && (path in disk.files ==> after.files[path] == disk.files[path])
  {
    hide Plan, ApplyAll, IsListedPlugin;
    forall op <- Plan(disk) ensures op.path != path {
      WhatIsPlanned(disk, op);
    }
    ApplyElsewhere(disk, Plan(disk), path);
  }

  // ---------------------------------------------------------------- the umask

  function HasBit(n: nat, k: nat): bool
  {
    if k == 0 then n % 2 == 1 else HasBit(n / 2, k - 1)
  }

  /** A bit of a new mode is one that was asked for and is not withheld. */
  lemma {:induction false} WithoutBits(mode: Mode, umask: Mode, k: nat)
    ensures HasBit(Without(mode, umask), k) <==> HasBit(mode, k) && !HasBit(umask, k)
    decreases k
  {
    if mode == 0 {
      NoBits(k);
    } else {
      LastBit(Without(mode / 2, umask / 2), if mode % 2 == 1 && umask % 2 == 0 then 1 else 0);
      if k > 0 {
        WithoutBits(mode / 2, umask / 2, k - 1);
      }
    }
  }

  lemma LastBit(rest: nat, bit: nat)
    requires bit < 2
    ensures (2 * rest + bit) / 2 == rest && (2 * rest + bit) % 2 == bit
  {
  }

  lemma {:induction false} NoBits(k: nat)
    ensures !HasBit(0, k)
  {
    if k > 0 {
      NoBits(k - 1);
    }
  }
}
