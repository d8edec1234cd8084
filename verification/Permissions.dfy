/**
 Repairing permissions (commands/permissions.go) on systems other than Windows. Fix first plans and
 then acts, asking the file system anew at every step. The main results are that it attempts exactly
 what it planned, whatever fails on the way, and that a second run changes nothing.
 */
module Permissions {
  import opened Text

  type Mode = nat

  datatype Meta = Meta(mode: Mode, owner: string, group: string)

  datatype Entry = Entry(name: string, isDir: bool)

  /**
   Files and directories with their attributes, the entries of the plugins directory if it opens, and
   the bits that are withheld from whatever is created.
   */
  datatype Disk = Disk(files: map<string, Meta>, plugins: Option<seq<Entry>>, umask: Mode)

  datatype Op =
    | Create(path: string)
    | Mkdir(path: string, mode: Mode)
    | Chmod(path: string, mode: Mode)
    | Chown(path: string, owner: string, group: string)

  /** How an attempt goes; a creation that fails may leave the first directories above the file. */
  datatype Answer = Worked | Failed(dirs: nat)

  const ETC := "/etc"
  const BASE := "/etc/opk"
  const SYSTEM_POLICY := PathIn(BASE, "auth_id")
  const PROVIDERS := PathIn(BASE, "providers")
  const CONFIG := PathIn(BASE, "config.yml")
  const PLUGINS := PathIn(BASE, "policy.d")

  const NEW_MODE: Mode := 0x1B6   // octal 666
  const FILE_MODE: Mode := 0x1A0  // octal 640
  const DIR_MODE: Mode := 0x1E8   // octal 750
  const ROOT := "root"
  const GROUP := "opksshuser"

  // ---------------------------------------------------------------- the file system

  /** The bits of a mode that are not withheld. */
  function Without(mode: Mode, umask: Mode): Mode
  {
    if mode == 0 then 0
    else 2 * Without(mode / 2, umask / 2) + (if mode % 2 == 1 && umask % 2 == 0 then 1 else 0)
  }

  /** The attributes of what root creates. */
  function New(mode: Mode, umask: Mode): Meta { Meta(Without(mode, umask), ROOT, ROOT) }

  function WithDir(files: map<string, Meta>, dir: string, umask: Mode): map<string, Meta>
  {
    if dir in files then files else files[dir := New(DIR_MODE, umask)]
  }

  /** The first `n` directories above the files, created if missing. */
  function WithDirs(disk: Disk, n: nat): map<string, Meta>
  {
    if n == 0 then disk.files
    else
      var files := WithDir(disk.files, ETC, disk.umask);
      if n == 1 then files else WithDir(files, BASE, disk.umask)
  }

  function WithBase(disk: Disk): map<string, Meta> { WithDirs(disk, 2) }

  /** What an operation can do at all: attributes of a missing file cannot be set. */
  predicate IsPossible(disk: Disk, op: Op)
  {
    match op
    case Chmod(path, _) => path in disk.files
    case Chown(path, owner, group) => (owner == "" && group == "") || path in disk.files
    case _ => true
  }

  /** A successful operation. Without a group, Chown sets group 0, which is root. */
  function Apply(disk: Disk, op: Op): Disk
  {
    if !IsPossible(disk, op) then disk
    else
      match op
      case Create(path) => disk.(files := WithBase(disk)[path := New(NEW_MODE, disk.umask)])
      case Mkdir(path, mode) =>
        disk.(files := WithBase(disk)[path := New(mode, disk.umask)], plugins := if path == PLUGINS then Some([])
            else disk.plugins)
      case Chmod(path, mode) => disk.(files := disk.files[path := disk.files[path].(mode := mode)])
      case Chown(path, owner, group) =>
        if owner == "" && group == "" then disk
        else
          var meta := disk.files[path];
          disk.(files := disk.files[path := meta.(owner := if owner == "" then ROOT else owner,
                                                  group := if group == "" then ROOT else group)])
  }

  /** What an operation leaves. */
  function After(disk: Disk, op: Op, answer: Answer): Disk
  {
    match answer
    case Worked => Apply(disk, op)
    case Failed(n) => if op.Create? || op.Mkdir? then disk.(files := WithDirs(disk, n)) else disk
  }

  /** A directory that is missing does not open. */
  predicate IsDisk(disk: Disk) { PLUGINS !in disk.files ==> disk.plugins == None }

  // ---------------------------------------------------------------- the plan

  function FileOps(path: string, group: string): seq<Op> { [Chmod(path, FILE_MODE), Chown(path, ROOT, group)] }

  predicate IsPluginFile(entry: Entry) { !entry.isDir && HasSuffix(entry.name, ".yml") }

  function PluginOps(entry: Entry): seq<Op>
  {
    if IsPluginFile(entry) then FileOps(PathIn(PLUGINS, entry.name), "") else []
  }

  function PlanPlugins(disk: Disk): seq<Op>
  {
    if disk.plugins == None then [] else Flat(PluginOps, disk.plugins.value)
  }

  function SystemOps(disk: Disk): seq<Op>
  {
    (if SYSTEM_POLICY in disk.files then [] else [Create(SYSTEM_POLICY)]) + FileOps(SYSTEM_POLICY, GROUP)
  }

  function PresentOps(disk: Disk, path: string): seq<Op>
  {
    if path in disk.files then FileOps(path, GROUP) else []
  }

  function DirOps(disk: Disk): seq<Op>
  {
    (if PLUGINS in disk.files then [] else [Mkdir(PLUGINS, DIR_MODE)]) + PlanPlugins(disk)
  }

  /** The actions that Fix announces. */
  function Plan(disk: Disk): seq<Op>
  {
    SystemOps(disk) + PresentOps(disk, PROVIDERS) + PresentOps(disk, CONFIG) + DirOps(disk)
  }

  function ApplyAll(disk: Disk, ops: seq<Op>): Disk
  {
    if ops == [] then disk else Apply(ApplyAll(disk, ops[..|ops| - 1]), ops[|ops| - 1])
  }

  // ---------------------------------------------------------------- the code

  /** How the run goes on after planning: a dry run, missing privileges or a refusal end it. */
  datatype Control = Control(dryRun: bool, elevated: Option<bool>, yes: bool, confirmed: Option<bool>)

  class PermissionsCmd {
    var disk: Disk
    const works: (nat, Op) -> Answer  // what the operating system lets happen, attempt by attempt
    ghost var attempted: seq<Op>
    ghost var worked: seq<Answer>  // and how each of them went
    var attempts: nat

    constructor (disk: Disk, works: (nat, Op) -> Answer)
      ensures this.disk == disk && this.works == works && attempted == [] && worked == []
    {
      this.disk, this.works, attempted, worked, attempts := disk, works, [], [], 0;
    }

    /** One operation: it happens if it is possible and the system lets it. */
    method Do(op: Op) returns (answer: Answer)
      modifies this
      ensures attempted == old(attempted) + [op] && worked == old(worked) + [answer]
      ensures answer == if works(old(attempts), op).Worked? && !IsPossible(old(disk), op) then Failed(0)
                        else works(old(attempts), op)
      ensures disk == After(old(disk), op, answer)
    {
      answer := works(attempts, op);
      if answer.Worked? && !IsPossible(disk, op) {
        answer := Failed(0);
      }
      attempts := attempts + 1;
      attempted, worked := attempted + [op], worked + [answer];
      disk := After(disk, op, answer);
    }

    method DoBoth(path: string, group: string)
      modifies this
      ensures IsTrace(old(disk), old(attempted), old(worked), disk, attempted, worked, FileOps(path, group))
      ensures SameFiles(old(disk), disk)
    {
      ghost var d0, a0, f0 := disk, attempted, worked;
      var _ := Do(Chmod(path, FILE_MODE));
      ghost var d1, a1, f1 := disk, attempted, worked;
      var _ := Do(Chown(path, ROOT, group));
      TraceOne(d0, a0, f0, d1, a1, f1, Chmod(path, FILE_MODE));
      TraceOne(d1, a1, f1, disk, attempted, worked, Chown(path, ROOT, group));
      hide IsTrace;
      TraceAppend(d0, a0, f0, d1, a1, f1, disk, attempted, worked, [Chmod(path, FILE_MODE)],
          [Chown(path, ROOT, group)]);
      assert [Chmod(path, FILE_MODE)] + [Chown(path, ROOT, group)] == FileOps(path, group);
    }

    /** Plan, ask, act: what is attempted is what was announced, and what works takes effect. */
    method Fix(control: Control) returns (planned: seq<Op>)
      requires IsDisk(disk)
      modifies this
      ensures planned == Plan(old(disk))
      ensures control.dryRun || control.elevated != Some(true) || !(control.yes || control.confirmed == Some(true)) ==>
                disk == old(disk) && attempted == old(attempted) && worked == old(worked)
      ensures !control.dryRun && control.elevated == Some(true) && (control.yes || control.confirmed == Some(true)) ==>
                IsTrace(old(disk), old(attempted), old(worked), disk, attempted, worked, planned)
    {
      planned := MakePlan();
      if control.dryRun || control.elevated != Some(true) {
        return;
      }
      if !control.yes && control.confirmed != Some(true) {
        return;
      }
      Execute();
    }

    /** The execution phase attempts the plan made for the files it started with. */
    method Execute()
      requires IsDisk(disk)
      modifies this
      ensures IsTrace(old(disk), old(attempted), old(worked), disk, attempted, worked, Plan(old(disk)))
    {
      hide IsTrace, FileOps, Flat;
      ghost var d0, a0, f0 := disk, attempted, worked;
      FixSystemPolicy();
      ghost var d1, a1, f1 := disk, attempted, worked;
      FixIfPresent(PROVIDERS);
      ghost var d2, a2, f2 := disk, attempted, worked;
      FixIfPresent(CONFIG);
      ghost var d3, a3, f3 := disk, attempted, worked;
      FixPlugins();
      ghost var s1, s2, s3, s4 := SystemOps(d0), PresentOps(d1, PROVIDERS), PresentOps(d2, CONFIG), DirOps(d3);
      TraceAppend(d0, a0, f0, d1, a1, f1, d2, a2, f2, s1, s2);
      TraceAppend(d0, a0, f0, d2, a2, f2, d3, a3, f3, s1 + s2, s3);
      TraceAppend(d0, a0, f0, d3, a3, f3, disk, attempted, worked, s1 + s2 + s3, s4);
    }

    method FixSystemPolicy()
      modifies this
      ensures IsTrace(old(disk), old(attempted), old(worked), disk, attempted, worked, SystemOps(old(disk)))
      ensures SameElsewhere(old(disk), disk)
    {
      hide Apply, IsTrace, FileOps;
      ghost var d0, a0, f0 := disk, attempted, worked;
      if SYSTEM_POLICY !in disk.files {
        var answer := Do(Create(SYSTEM_POLICY));
        CreateElsewhere(d0, answer);
        TraceOne(d0, a0, f0, disk, attempted, worked, Create(SYSTEM_POLICY));
      } else {
        TraceNone(d0, a0, f0);
      }
      ghost var d1, a1, f1 := disk, attempted, worked;
      DoBoth(SYSTEM_POLICY, GROUP);
      TraceAppend(d0, a0, f0, d1, a1, f1, disk, attempted, worked,
                  if SYSTEM_POLICY in d0.files then [] else [Create(SYSTEM_POLICY)], FileOps(SYSTEM_POLICY, GROUP));
    }

    method FixIfPresent(path: string)
      modifies this
      ensures IsTrace(old(disk), old(attempted), old(worked), disk, attempted, worked, PresentOps(old(disk), path))
      ensures SameFiles(old(disk), disk)
    {
      if path in disk.files {
        DoBoth(path, GROUP);
      } else {
        TraceNone(disk, attempted, worked);
      }
    }

    method FixPlugins()
      requires IsDisk(disk)
      modifies this
      ensures IsTrace(old(disk), old(attempted), old(worked), disk, attempted, worked, DirOps(old(disk)))
    {
      hide IsTrace, FileOps, Flat, IsPluginFile;
      ghost var d0, a0, f0 := disk, attempted, worked;
      ghost var first := if PLUGINS in disk.files then [] else [Mkdir(PLUGINS, DIR_MODE)];
      if PLUGINS !in disk.files {
        var _ := Do(Mkdir(PLUGINS, DIR_MODE));
        TraceOne(d0, a0, f0, disk, attempted, worked, Mkdir(PLUGINS, DIR_MODE));
      } else {
        TraceNone(d0, a0, f0);
      }
      ghost var d1, a1, f1 := disk, attempted, worked;
      FlatNone(PluginOps);
      assert PlanPlugins(d1) == PlanPlugins(d0);
      hide Apply;
      TraceNone(d1, a1, f1);
      if disk.plugins.Some? {
        var entries := disk.plugins.value;
        assert entries[..0] == [];
        for i := 0 to |entries|
          invariant IsTrace(d1, a1, f1, disk, attempted, worked, Flat(PluginOps, entries[..i]))
        {
          FlatStep(PluginOps, entries, i);
          ghost var d2, a2, f2 := disk, attempted, worked;
          if IsPluginFile(entries[i]) {
            DoBoth(PathIn(PLUGINS, entries[i].name), "");
          } else {
            TraceNone(d2, a2, f2);
          }
          TraceAppend(d1, a1, f1, d2, a2, f2, disk, attempted, worked, Flat(PluginOps, entries[..i]),
              PluginOps(entries[i]));
        }
        assert entries[..|entries|] == entries;
      }
      TraceAppend(d0, a0, f0, d1, a1, f1, disk, attempted, worked, first, PlanPlugins(d1));
    }

    /** The planning phase. */
    method MakePlan() returns (planned: seq<Op>)
      ensures planned == Plan(disk)
    {
      hide FileOps, PlanPlugins, PathIn;
      planned := [];
      if SYSTEM_POLICY !in disk.files {
        planned := planned + [Create(SYSTEM_POLICY)];
      }
      planned := planned + FileOps(SYSTEM_POLICY, GROUP);
      if PROVIDERS in disk.files {
        planned := planned + FileOps(PROVIDERS, GROUP);
      }
      if CONFIG in disk.files {
        planned := planned + FileOps(CONFIG, GROUP);
      }
      if PLUGINS !in disk.files {
        planned := planned + [Mkdir(PLUGINS, DIR_MODE)];
      }
      var more := PlanPluginFiles();
      planned := planned + more;
    }

    /** The loop over the plugins directory, if it opens. */
    method PlanPluginFiles() returns (planned: seq<Op>)
      ensures planned == PlanPlugins(disk)
    {
      hide FileOps, Flat, IsPluginFile, PathIn;
      planned := [];
      if disk.plugins.Some? {
        var entries := disk.plugins.value;
        FlatNone(PluginOps);
        assert entries[..0] == [];
        for i := 0 to |entries|
          invariant planned == Flat(PluginOps, entries[..i])
        {
          FlatStep(PluginOps, entries, i);
          if IsPluginFile(entries[i]) {
            planned := planned + FileOps(PathIn(PLUGINS, entries[i].name), "");
          }
        }
        assert entries[..|entries|] == entries;
      }
    }
  }

  // ---------------------------------------------------------------- traces

  /** The same files exist and the plugins directory has the same entries. */
  predicate SameFiles(before: Disk, after: Disk)
  {
    before.files.Keys == after.files.Keys && before.plugins == after.plugins
  }

  /** `ops` were attempted in order, and what worked took effect. */
  ghost predicate IsTrace(disk0: Disk, attempted0: seq<Op>, worked0: seq<Answer>, disk: Disk, attempted: seq<Op>,
                          worked: seq<Answer>, ops: seq<Op>)
  {
    && attempted == attempted0 + ops
    && worked0 <= worked && |worked| == |worked0| + |ops|
    && disk == ApplyWorked(disk0, ops, worked[|worked0|..])
  }

  /** The effect of operations of which some fail. */
  function ApplyWorked(disk: Disk, ops: seq<Op>, worked: seq<Answer>): Disk
    requires |ops| == |worked|
  {
    if ops == [] then disk
    else
      var n := |ops| - 1;
      var before := ApplyWorked(disk, ops[..n], worked[..n]);
      After(before, ops[n], worked[n])
  }

  predicate AllWork(worked: seq<Answer>) { forall i :: 0 <= i < |worked| ==> worked[i].Worked? }

  /** If none fails, all take effect. */
  lemma {:induction false} AllWorked(disk: Disk, ops: seq<Op>, worked: seq<Answer>)
    requires |ops| == |worked| && AllWork(worked)
    ensures ApplyWorked(disk, ops, worked) == ApplyAll(disk, ops)
  {
    if ops != [] {
      AllWorked(disk, ops[..|ops| - 1], worked[..|ops| - 1]);
    }
  }

  /** If none has anything to change, nothing changes, whichever fail. */
  lemma {:induction false} NothingToChange(disk: Disk, ops: seq<Op>, worked: seq<Answer>)
    requires |ops| == |worked| && AreSettled(disk, ops)
    ensures ApplyWorked(disk, ops, worked) == disk
  {
    hide Apply, After;
    if ops != [] {
      var n := |ops| - 1;
      NothingToChange(disk, ops[..n], worked[..n]);
      SettledStays(disk, ops[n], worked[n]);
    }
  }

  lemma SettledStays(disk: Disk, op: Op, answer: Answer)
    requires IsSettled(disk, op)
    ensures After(disk, op, answer) == disk
  {
    hide New, PathIn;
    if op.Create? || op.Mkdir? {
      assert ETC in disk.files && BASE in disk.files;
    }
  }

  /** None of the operations would change anything. */
  predicate AreSettled(disk: Disk, ops: seq<Op>)
  {
    forall i :: 0 <= i < |ops| ==> IsSettled(disk, ops[i])
  }

  predicate IsSettled(disk: Disk, op: Op) { Apply(disk, op) == disk }

  lemma {:induction false} WorkedAppend(disk: Disk, a: seq<Op>, b: seq<Op>, v: seq<Answer>, w: seq<Answer>)
    requires |a| == |v| && |b| == |w|
    ensures ApplyWorked(disk, a + b, v + w) == ApplyWorked(ApplyWorked(disk, a, v), b, w)
  {
    hide Apply;
    if b == [] {
      assert a + b == a && v + w == v;
    } else {
      var n := |b| - 1;
      assert (a + b)[..|a + b| - 1] == a + b[..n] && (v + w)[..|a + b| - 1] == v + w[..n];
      WorkedAppend(disk, a, b[..n], v, w[..n]);
    }
  }

  lemma {:induction false} ApplyAppend(disk: Disk, a: seq<Op>, b: seq<Op>)
    ensures ApplyAll(disk, a + b) == ApplyAll(ApplyAll(disk, a), b)
  {
    hide Apply;
    if b == [] {
      assert a + b == a;
    } else {
      var n := |b| - 1;
      assert (a + b)[..|a + b| - 1] == a + b[..n];
      ApplyAppend(disk, a, b[..n]);
    }
  }

  lemma TraceAppend(disk0: Disk, att0: seq<Op>, done0: seq<Answer>, disk1: Disk, att1: seq<Op>, done1: seq<Answer>,
                    disk2: Disk, att2: seq<Op>, done2: seq<Answer>, a: seq<Op>, b: seq<Op>)
    requires IsTrace(disk0, att0, done0, disk1, att1, done1, a)
    requires IsTrace(disk1, att1, done1, disk2, att2, done2, b)
    ensures IsTrace(disk0, att0, done0, disk2, att2, done2, a + b)
  {
    hide ApplyWorked;
    var v, w := done1[|done0|..], done2[|done1|..];
    WorkedAppend(disk0, a, b, v, w);
    assert done2[|done0|..] == v + w;
    assert att0 + a + b == att0 + (a + b);
  }

  lemma TraceNone(disk: Disk, attempted: seq<Op>, worked: seq<Answer>)
    ensures IsTrace(disk, attempted, worked, disk, attempted, worked, [])
  {
  }

  lemma TraceOne(disk0: Disk, attempted0: seq<Op>, worked0: seq<Answer>, disk: Disk, attempted: seq<Op>,
                 worked: seq<Answer>, op: Op)
    requires attempted == attempted0 + [op] && |worked| == |worked0| + 1 && worked0 <= worked
    requires disk == After(disk0, op, worked[|worked0|])
    ensures IsTrace(disk0, attempted0, worked0, disk, attempted, worked, [op])
  {
    hide Apply;
    var last := worked[|worked0|..];
    assert [op][..0] == [] && last[..0] == [] && last[0] == worked[|worked0|];
    assert ApplyWorked(disk0, [], []) == disk0;
  }

  // ---------------------------------------------------------------- what one part does not change for the next

  lemma PathsDiffer()
    ensures SYSTEM_POLICY !in {BASE, PROVIDERS, CONFIG, PLUGINS} && BASE !in {PROVIDERS, CONFIG, PLUGINS}
    ensures ETC !in {SYSTEM_POLICY, PROVIDERS, CONFIG, PLUGINS}
    ensures PROVIDERS !in {CONFIG, PLUGINS} && CONFIG != PLUGINS
  {
    assert |BASE| == 8;
    assert SYSTEM_POLICY[9] == 'a' && PROVIDERS[9] == 'p' && CONFIG[9] == 'c' && PLUGINS[9] == 'p';
    assert PROVIDERS[10] == 'r' && PLUGINS[10] == 'o';
  }

  /** What the later parts look at. */
  predicate SameElsewhere(before: Disk, after: Disk)
  {
    && before.plugins == after.plugins
    && (PROVIDERS in before.files <==> PROVIDERS in after.files)
    && (CONFIG in before.files <==> CONFIG in after.files)
    && (PLUGINS in before.files <==> PLUGINS in after.files)
  }

  lemma CreateElsewhere(disk: Disk, answer: Answer)
    ensures SameElsewhere(disk, After(disk, Create(SYSTEM_POLICY), answer))
    ensures answer.Worked? ==> SYSTEM_POLICY in After(disk, Create(SYSTEM_POLICY), answer).files
  {
    PathsDiffer();
  }

  // ---------------------------------------------------------------- a second run

  predicate IsAttribute(op: Op) { op.Chmod? || op.Chown? }

  /** Two operations on the same file want the same. */
  predicate Agree(a: Op, b: Op)
  {
    && (a.Chmod? && b.Chmod? && a.path == b.path ==> a.mode == b.mode)
    && (a.Chown? && b.Chown? && a.path == b.path ==> a == b)
  }

  lemma StaysSettled(disk: Disk, op: Op, next: Op)
    requires IsAttribute(op) && IsAttribute(next) && IsSettled(disk, op) && Agree(op, next)
    ensures IsSettled(Apply(disk, next), op)
  {
    hide New, WithDir;
    var after := Apply(disk, next);
    assert after.files.Keys == disk.files.Keys;
  }

  lemma BecomesSettled(disk: Disk, op: Op)
    requires IsAttribute(op)
    ensures IsSettled(Apply(disk, op), op)
  {
    hide New, WithDir;
    var after := Apply(disk, op);
    assert after.files.Keys == disk.files.Keys;
  }

  /** After agreeing attribute changes, each of them is settled, and the same files exist. */
  lemma {:induction false} AllBecomeSettled(disk: Disk, ops: seq<Op>)
    requires forall i :: 0 <= i < |ops| ==> IsPlanned(ops[i])
    ensures SameFiles(disk, ApplyAll(disk, ops)) && AreSettled(ApplyAll(disk, ops), ops)
  {
    hide Apply, IsSettled, Agree, IsPlanned;
    if ops != [] {
      var n := |ops| - 1;
      AllBecomeSettled(disk, ops[..n]);
      var before := ApplyAll(disk, ops[..n]);
      PlannedAgree(ops[n], ops[n]);
      SameFilesAfter(before, ops[n]);
      BecomesSettled(before, ops[n]);
      forall i | 0 <= i < n ensures IsSettled(ApplyAll(disk, ops), ops[i]) {
        assert ops[..n][i] == ops[i];
        PlannedAgree(ops[i], ops[n]);
        StaysSettled(before, ops[i], ops[n]);
      }
    }
  }

  lemma SameFilesAfter(disk: Disk, op: Op)
    requires IsAttribute(op)
    ensures SameFiles(disk, Apply(disk, op))
  {
  }

  /** The attribute changes of a plan. */
  function Attributes(disk: Disk): seq<Op>
  {
    FileOps(SYSTEM_POLICY, GROUP) + PresentOps(disk, PROVIDERS) + PresentOps(disk, CONFIG) + PlanPlugins(disk)
  }

  lemma PluginPathsDiffer(name: string)
    ensures PathIn(PLUGINS, name) !in {SYSTEM_POLICY, PROVIDERS, CONFIG}
  {
    var path := PathIn(PLUGINS, name);
    assert |PLUGINS| == 17;
    assert path[9] == PLUGINS[9] == 'p' && path[10] == PLUGINS[10] == 'o';
    assert SYSTEM_POLICY[9] == 'a' && CONFIG[9] == 'c' && PROVIDERS[10] == 'r';
  }

  /** What the attribute changes of a plan look like. */
  predicate IsPlanned(op: Op)
  {
    || (op.Chmod? && op.mode == FILE_MODE)
    || (op.Chown? && op.owner == ROOT &&
        op.group == if op.path in {SYSTEM_POLICY, PROVIDERS, CONFIG} then GROUP else "")
  }

  lemma {:induction false} PluginOpsArePlanned(entries: seq<Entry>)
    ensures forall op <- Flat(PluginOps, entries) :: IsPlanned(op)
  {
    if entries != [] {
      var n := |entries| - 1;
      PluginOpsArePlanned(entries[..n]);
      PluginPathsDiffer(entries[n].name);
      hide PathIn, IsPluginFile;
      assert forall op <- PluginOps(entries[n]) :: IsPlanned(op);
    }
  }

  lemma AttributesArePlanned(disk: Disk)
    ensures forall i :: 0 <= i < |Attributes(disk)| ==> IsPlanned(Attributes(disk)[i])
  {
    if disk.plugins.Some? {
      PluginOpsArePlanned(disk.plugins.value);
    }
    hide PathIn, Flat;
    forall op <- Attributes(disk) ensures IsPlanned(op) {
      if op in PlanPlugins(disk) {
      }
    }
  }

  lemma PlannedAgree(a: Op, b: Op)
    requires IsPlanned(a) && IsPlanned(b)
    ensures Agree(a, b) && IsAttribute(a)
  {
  }

  /** The part of a plan before the plugins directory. */
  function FirstAttributes(disk: Disk): seq<Op>
  {
    FileOps(SYSTEM_POLICY, GROUP) + PresentOps(disk, PROVIDERS) + PresentOps(disk, CONFIG)
  }

  /** The disk once the system policy file exists. */
  function Started(disk: Disk): Disk
  {
    if SYSTEM_POLICY in disk.files then disk else Apply(disk, Create(SYSTEM_POLICY))
  }

  lemma ApplyPlan(disk: Disk)
    requires IsDisk(disk)
    ensures ApplyAll(disk, Plan(disk)) ==
            if PLUGINS in disk.files then ApplyAll(Started(disk), Attributes(disk))
            else Apply(ApplyAll(Started(disk), FirstAttributes(disk)), Mkdir(PLUGINS, DIR_MODE))
  {
    hide Apply, FileOps, PathIn, Flat;
    var create := if SYSTEM_POLICY in disk.files then [] else [Create(SYSTEM_POLICY)];
    var rest := if PLUGINS in disk.files then Attributes(disk) else FirstAttributes(disk) + [Mkdir(PLUGINS, DIR_MODE)];
    assert Plan(disk) == create + rest;
    ApplyAppend(disk, create, rest);
    assert ApplyAll(disk, create) == Started(disk) by {
      assert create != [] ==> create[..0] == [] && ApplyAll(disk, []) == disk;
    }
    var mkdir := [Mkdir(PLUGINS, DIR_MODE)];
    ApplyAppend(Started(disk), FirstAttributes(disk), mkdir);
    assert mkdir[..0] == [];
  }

  lemma FirstArePlanned(disk: Disk)
    ensures forall i :: 0 <= i < |FirstAttributes(disk)| ==> IsPlanned(FirstAttributes(disk)[i])
    ensures forall i :: 0 <= i < |FirstAttributes(disk)| ==>
            FirstAttributes(disk)[i].path in {SYSTEM_POLICY, PROVIDERS, CONFIG}
  {
    hide PathIn;
  }

  lemma MkdirKeepsSettled(disk: Disk, op: Op)
    requires IsPlanned(op) && op.path in {SYSTEM_POLICY, PROVIDERS, CONFIG} && IsSettled(disk, op)
    ensures IsSettled(Apply(disk, Mkdir(PLUGINS, DIR_MODE)), op)
  {
    PathsDiffer();
    hide PathIn;
  }

  /** After a plan took effect, the next plan has nothing left to change. */
  lemma NextPlanIsSettled(disk: Disk)
    requires IsDisk(disk)
    ensures var after := ApplyAll(disk, Plan(disk)); IsDisk(after) && AreSettled(after, Plan(after))
  {
    hide FileOps, Flat, PathIn, IsSettled, IsPlanned, Apply;
    var after := ApplyAll(disk, Plan(disk));
    ApplyPlan(disk);
    StartedFiles(disk);
    if PLUGINS in disk.files {
      AttributesArePlanned(disk);
      AllBecomeSettled(Started(disk), Attributes(disk));
      SamePlan(disk, after);
    } else {
      var first := FirstAttributes(disk);
      FirstArePlanned(disk);
      AllBecomeSettled(Started(disk), first);
      var before := ApplyAll(Started(disk), first);
      forall i | 0 <= i < |first| ensures IsSettled(after, first[i]) {
        MkdirKeepsSettled(before, first[i]);
      }
      MkdirFiles(before);
      SamePlan(disk, after);
      FlatNone(PluginOps);
      assert Attributes(disk) == first;
    }
  }

  lemma StartedFiles(disk: Disk)
    ensures SameElsewhere(disk, Started(disk)) && SYSTEM_POLICY in Started(disk).files
  {
    CreateElsewhere(disk, Worked);
  }

  lemma MkdirFiles(disk: Disk)
    ensures var after := Apply(disk, Mkdir(PLUGINS, DIR_MODE));
            && after.plugins == Some([]) && PLUGINS in after.files
            && (SYSTEM_POLICY in disk.files ==> SYSTEM_POLICY in after.files)
            && (PROVIDERS in disk.files <==> PROVIDERS in after.files)
            && (CONFIG in disk.files <==> CONFIG in after.files)
  {
    PathsDiffer();
    hide PathIn;
  }

  lemma SamePlan(disk: Disk, after: Disk)
    requires IsDisk(disk) && SYSTEM_POLICY in after.files && PLUGINS in after.files
    requires PROVIDERS in disk.files <==> PROVIDERS in after.files
    requires CONFIG in disk.files <==> CONFIG in after.files
    requires after.plugins == if PLUGINS in disk.files then disk.plugins else Some([])
    ensures Plan(after) == Attributes(disk)
  {
    hide FileOps, Flat, PathIn;
    FlatNone(PluginOps);
  }

  /**
   Idempotence: after a Fix that met no failure, a second one leaves every file as it is, even if
   its own operations fail.
   */
  lemma SecondFixChangesNothing(disk0: Disk, att0: seq<Op>, done0: seq<Answer>, disk1: Disk, att1: seq<Op>,
                                done1: seq<Answer>,
                                disk2: Disk, att2: seq<Op>, done2: seq<Answer>)
    requires IsDisk(disk0)
    requires IsTrace(disk0, att0, done0, disk1, att1, done1, Plan(disk0)) && AllWork(done1[|done0|..])
    requires IsTrace(disk1, att1, done1, disk2, att2, done2, Plan(disk1))
    ensures disk2 == disk1
  {
    hide Plan, AreSettled, AllWork;
    AllWorked(disk0, Plan(disk0), done1[|done0|..]);
    NextPlanIsSettled(disk0);
    NothingToChange(disk1, Plan(disk1), done2[|done1|..]);
  }
}
