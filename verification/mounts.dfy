/** Staging and publishing in mount mode on one node: the mount table, the attached devices, and what is on the volumes. */
module Mounts {

  /** A path by its components, [] being "/". */
  type Path = seq<string>

  /** What is mounted where. A path with no entry shows what its parent shows. */
  type MountTable = map<Path, string>

  /** The type of a volume's filesystem, "" for none, and how often a node has formatted the volume. */
  datatype Content = Content(fsType: string, formats: nat)

  /** The volumes are known by their own names, as a device's name goes to another volume once it is free. */
  datatype NodeState = NodeState(
    mounts: MountTable,
    paths: set<Path>,                // the directories that exist
    devices: map<string, string>,    // the volume behind each attached device
    volumes: map<string, Content>)

  /** findmnt --target: the device of the filesystem a path is on ("" for the root's when nothing is mounted there). */
  function FindMnt(m: MountTable, p: Path): string
    decreases |p|
  {
    if p in m then m[p] else if p == [] then "" else FindMnt(m, p[..|p| - 1])
  }

  /** DeviceFromTargetPath: no device for a missing path, or for one that is on the root's. */
  function DeviceAt(s: NodeState, p: Path): string {
    if p !in s.paths || FindMnt(s.mounts, p) == FindMnt(s.mounts, []) then "" else FindMnt(s.mounts, p)
  }

  function Prefixes(p: Path): set<Path> {
    set i | 0 <= i <= |p| :: p[..i]
  }

  const DEFAULT_FS := "ext4"

  predicate Supported(fsType: string) {
    fsType == "xfs" || fsType == "ext3" || fsType == "ext4"
  }

  function Requested(fsType: string): string {
    if fsType == "" then DEFAULT_FS else fsType
  }

  function ContentOf(s: NodeState, volume: string): Content {
    if volume in s.volumes then s.volumes[volume] else Content("", 0)
  }

  /** What is mounted on exists. */
  predicate Valid(s: NodeState) {
    s.mounts.Keys <= s.paths
  }

  /* ---- the calls, and the state each leaves ---- */

  datatype NodeOp =
    | Stage(volume: string, device: string, target: Path, fsType: string)   // the device the volume shows up as
    | Publish(staging: Path, target: Path)
    | Unpublish(target: Path)
    | Unstage(target: Path)
    | Expand(path: Path)
    | CloneTo(source: string, volume: string)   // on the appliance

  function WithParent(s: NodeState, target: Path): NodeState {
    if target in s.paths || target == [] then s else s.(paths := s.paths + Prefixes(target[..|target| - 1]))
  }

  /** mountVolume, with the calls to the operating system succeeding: a mount point is left as it is. */
  function Mounted(s: NodeState, device: string, target: Path): NodeState {
    if target !in s.paths then s.(paths := s.paths + Prefixes(target), mounts := s.mounts[target := device])
    else if target in s.mounts then s
    else s.(mounts := s.mounts[target := device])
  }

  /** Unmounting and removing the directory. A mount point below stays. */
  function Unmounted(s: NodeState, target: Path): NodeState {
    if target !in s.paths then s
    else
      var mounts := s.mounts - {target};
      s.(mounts := mounts, paths := set q | q in s.paths && (!(target <= q) || q in mounts))
  }

  function Formatted(s: NodeState, volume: string, fsType: string): NodeState {
    s.(volumes := s.volumes[volume := Content(fsType, ContentOf(s, volume).formats + 1)])
  }

  function Attached(s: NodeState, op: NodeOp): NodeState
    requires op.Stage?
  {
    WithParent(s.(devices := s.devices[op.device := op.volume]), op.target)
  }

  /** The answer that the volume is already staged. */
  predicate Already(s: NodeState, op: NodeOp)
    requires op.Stage?
  {
    DeviceAt(s, op.target) == op.device
  }

  predicate Succeeds(s: NodeState, op: NodeOp) {
    match op
    case Stage(volume, _, _, fsType) =>
      var want, there := Requested(fsType), ContentOf(s, volume).fsType;
      Already(s, op) || there == want || (there == "" && Supported(want))
    case Publish(staging, target) => DeviceAt(WithParent(s, target), staging) != ""
    case Expand(path) => DeviceAt(s, path) != ""
    case _ => true
  }

  function After(s: NodeState, op: NodeOp): NodeState {
    match op
    case Stage(volume, device, target, fsType) =>
      var t := Attached(s, op);
      if Already(s, op) || !Succeeds(s, op) then t
      else Mounted(if ContentOf(s, volume).fsType == "" then Formatted(t, volume, Requested(fsType)) else t, device, target)
    case Publish(staging, target) =>
      var t := WithParent(s, target);
      if Succeeds(s, op) then Mounted(t, DeviceAt(t, staging), target) else t
    case Unpublish(target) => Unmounted(s, target)
    case Unstage(target) => Unmounted(s, target).(devices := s.devices - {DeviceAt(s, target)})
    case Expand(_) => s
    case CloneTo(source, volume) =>
      if volume in s.volumes then s else s.(volumes := s.volumes[volume := Content(ContentOf(s, source).fsType, 0)])
  }

  class Node {
    var mounts: MountTable
    var paths: set<Path>
    var devices: map<string, string>
    var volumes: map<string, Content>

    ghost function State(): NodeState
      reads this
    {
      NodeState(mounts, paths, devices, volumes)
    }

    method DeviceFromTargetPath(target: Path) returns (device: string)
      ensures device == DeviceAt(State(), target)
    {
      if target !in paths { return ""; }
      device := FindMnt(mounts, target);
      if device == FindMnt(mounts, []) { device := ""; }
    }

    method MakeParent(target: Path)
      modifies `paths
      ensures State() == WithParent(old(State()), target)
    {
      if target !in paths && target != [] {
        paths := paths + Prefixes(target[..|target| - 1]);
      }
    }

    method MountVolume(device: string, target: Path)
      requires Valid(State())
      modifies `mounts, `paths
      ensures State() == Mounted(old(State()), device, target)
    {
      var notMountPoint := true;
      if target in paths {
        notMountPoint := target !in mounts;
      } else {
        paths := paths + Prefixes(target);
      }
      if notMountPoint {
        mounts := mounts[target := device];
      }
    }

    /** NodeStageVolume from the login on, once the volume has shown up as a device. */
    method Stage(volume: string, device: string, target: Path, fsType: string) returns (ok: bool)
      requires Valid(State())
      modifies this
      ensures var op := NodeOp.Stage(volume, device, target, fsType);
        ok == Succeeds(old(State()), op) && State() == After(old(State()), op)
    {
      var there := DeviceFromTargetPath(target);
      MakeParent(target);
      devices := devices[device := volume];
      if there == device { return true; }
      var want := if fsType == "" then DEFAULT_FS else fsType;
      var deviceFS := if volume in volumes then volumes[volume].fsType else "";
      if deviceFS == "" {
        if !Supported(want) { return false; }
        volumes := volumes[volume := Content(want, (if volume in volumes then volumes[volume].formats else 0) + 1)];
      } else if deviceFS != want {
        return false;
      }
      MountVolume(device, target);
      return true;
    }

    method Publish(staging: Path, target: Path) returns (ok: bool)
      requires Valid(State())
      modifies `mounts, `paths
      ensures var op := NodeOp.Publish(staging, target);
        ok == Succeeds(old(State()), op) && State() == After(old(State()), op)
    {
      MakeParent(target);
      var device := DeviceFromTargetPath(staging);
      if device == "" { return false; }
      MountVolume(device, target);
      return true;
    }

    method RemoveAll(target: Path)
      modifies `paths
      ensures paths == set q | q in old(paths) && (!(target <= q) || q in mounts)
    {
      paths := set q | q in paths && (!(target <= q) || q in mounts);
    }

    method Unpublish(target: Path)
      requires Valid(State())
      modifies `mounts, `paths
      ensures State() == After(old(State()), NodeOp.Unpublish(target))
      ensures target !in paths && target !in mounts
    {
      if target !in paths { return; }
      if target in mounts {
        mounts := mounts - {target};
      }
      RemoveAll(target);
    }

    /** Errors on the way are only logged. */
    method Unstage(target: Path)
      requires Valid(State())
      modifies `mounts, `paths, `devices
      ensures State() == After(old(State()), NodeOp.Unstage(target))
      ensures target !in paths && target !in mounts
    {
      var device := DeviceFromTargetPath(target);
      if target in mounts {
        mounts := mounts - {target};
      }
      devices := devices - {device};
      if target in paths {
        RemoveAll(target);
      }
    }

    method Expand(path: Path) returns (ok: bool)
      ensures var op := NodeOp.Expand(path);
        ok == Succeeds(State(), op) && State() == After(State(), op)
    {
      var device := DeviceFromTargetPath(path);
      return device != "";
    }
  }

  function RunAll(s: NodeState, ops: seq<NodeOp>): NodeState
    decreases |ops|
  {
    if ops == [] then s else RunAll(After(s, ops[0]), ops[1..])
  }

  lemma PrefixesHold(p: Path)
    ensures p in Prefixes(p)
  {
    assert p == p[..|p|];
  }

  lemma ParentPrefixes(p: Path)
    requires p != []
    ensures p[..|p| - 1] in Prefixes(p[..|p| - 1]) && Prefixes(p[..|p| - 1]) <= Prefixes(p)
  {
    var parent := p[..|p| - 1];
    PrefixesHold(parent);
    forall q | q in Prefixes(parent) ensures q in Prefixes(p) {
      var i :| 0 <= i <= |parent| && q == parent[..i];
      assert q == p[..i];
    }
  }

  lemma AfterIsValid(s: NodeState, op: NodeOp)
    requires Valid(s)
    ensures Valid(After(s, op))
  {
    match op {
      case Stage(_, _, target, _) => PrefixesHold(target);
      case Publish(_, target) => PrefixesHold(target);
      case _ =>
    }
  }

  /* ---- a volume's life on the node ---- */

  /** The targets published after the calls. */
  function Targets(before: set<Path>, ops: seq<NodeOp>): set<Path>
    decreases |ops|
  {
    if ops == [] then before else Targets(TargetsAfter(before, ops[0]), ops[1..])
  }

  function TargetsAfter(before: set<Path>, op: NodeOp): set<Path> {
    match op
    case Publish(_, t) => before + {t}
    case Unpublish(t) => before - {t}
    case _ => before
  }

  /** The device is shown at the staging path and at the published targets; all other mounts are as they were. */
  predicate Tracked(s: NodeState, base: MountTable, staging: Path, device: string, targets: set<Path>) {
    && Valid(s)
    && s.mounts.Keys == base.Keys + targets + {staging}
    && forall p :: p in s.mounts ==> s.mounts[p] == if p in targets || p == staging then device else base[p]
  }

  /** A call between stage and unstage: publishing from the staging path and unpublishing, at fresh paths where
      nothing else is mounted; expanding; cloning. */
  predicate Between(base: MountTable, staging: Path, op: NodeOp) {
    match op
    case Publish(from, target) => from == staging && target !in base && target != staging && target != []
    case Unpublish(target) => target !in base && target != staging && target != []
    case Stage(_, _, _, _) => false
    case Unstage(_) => false
    case _ => true
  }

  predicate AllBetween(base: MountTable, staging: Path, ops: seq<NodeOp>) {
    forall i :: 0 <= i < |ops| ==> Between(base, staging, ops[i])
  }

  lemma PublishIsTracked(s: NodeState, base: MountTable, staging: Path, device: string, before: set<Path>, target: Path)
    requires Tracked(s, base, staging, device, before) && target !in base && target != staging
    requires staging != [] && [] !in before && device != "" && device != FindMnt(base, [])
    ensures Tracked(After(s, Publish(staging, target)), base, staging, device, before + {target})
  {
    var t := WithParent(s, target);
    assert t.mounts[staging] == device && FindMnt(t.mounts, []) == FindMnt(base, []);
    assert DeviceAt(t, staging) == device;
    MountIsTracked(t, base, staging, device, before, target);
  }

  lemma MountIsTracked(s: NodeState, base: MountTable, staging: Path, device: string, before: set<Path>, target: Path)
    requires Tracked(s, base, staging, device, before) && target !in base && target != staging
    ensures Tracked(Mounted(s, device, target), base, staging, device, before + {target})
  {
    PrefixesHold(target);
  }

  lemma UnpublishIsTracked(s: NodeState, base: MountTable, staging: Path, device: string, before: set<Path>, target: Path)
    requires Tracked(s, base, staging, device, before) && target !in base && target != staging
    ensures Tracked(Unmounted(s, target), base, staging, device, before - {target})
  {
  }

  lemma CallIsTracked(s: NodeState, base: MountTable, staging: Path, device: string, before: set<Path>, op: NodeOp)
    requires Tracked(s, base, staging, device, before) && Between(base, staging, op)
    requires staging != [] && [] !in before && device != "" && device != FindMnt(base, [])
    ensures Tracked(After(s, op), base, staging, device, TargetsAfter(before, op))
  {
    match op {
      case Publish(_, target) => PublishIsTracked(s, base, staging, device, before, target);
      case Unpublish(target) => UnpublishIsTracked(s, base, staging, device, before, target);
      case _ =>
    }
  }

  /** Any calls, in any order and any number, leave exactly the still published targets showing the staged device. */
  lemma {:induction false} CallsAreTracked(s: NodeState, base: MountTable, staging: Path, device: string, before: set<Path>, ops: seq<NodeOp>)
    requires Tracked(s, base, staging, device, before) && AllBetween(base, staging, ops)
    requires staging != [] && [] !in before && device != "" && device != FindMnt(base, [])
    ensures Tracked(RunAll(s, ops), base, staging, device, Targets(before, ops))
    decreases |ops|
  {
    if ops != [] {
      assert Between(base, staging, ops[0]);
      CallIsTracked(s, base, staging, device, before, ops[0]);
      CallsAreTracked(After(s, ops[0]), base, staging, device, TargetsAfter(before, ops[0]), ops[1..]);
    }
  }

  lemma {:induction false} TargetsAreFresh(base: MountTable, staging: Path, before: set<Path>, ops: seq<NodeOp>)
    requires AllBetween(base, staging, ops)
    requires forall t :: t in before ==> t !in base && t != staging && t != []
    ensures forall t :: t in Targets(before, ops) ==> t !in base && t != staging && t != []
    decreases |ops|
  {
    if ops != [] {
      assert Between(base, staging, ops[0]);
      TargetsAreFresh(base, staging, TargetsAfter(before, ops[0]), ops[1..]);
    }
  }

  lemma FreshStage(s: NodeState, op: NodeOp)
    requires op.Stage? && Valid(s) && Succeeds(s, op)
    requires op.target !in s.mounts && op.target != [] && op.device != "" && op.device !in s.mounts.Values
    ensures !Already(s, op) && Tracked(After(s, op), s.mounts, op.target, op.device, {})
    ensures op.device != FindMnt(s.mounts, [])
  {
    AfterIsValid(s, op);
    FoundIsMounted(s.mounts, op.target);
    FoundIsMounted(s.mounts, []);
  }

  lemma {:induction false} FoundIsMounted(m: MountTable, p: Path)
    ensures FindMnt(m, p) == "" || FindMnt(m, p) in m.Values
    decreases |p|
  {
    if p !in m && p != [] {
      FoundIsMounted(m, p[..|p| - 1]);
    }
  }

  lemma {:induction false} UnstageRestores(t: NodeState, base: MountTable, staging: Path, device: string, targets: set<Path>)
    requires Tracked(t, base, staging, device, targets) && staging !in base && staging != [] && device != ""
    requires device != FindMnt(base, []) && forall p :: p in targets ==> p !in base && p != staging && p != []
    ensures var end := After(t, Unstage(staging));
      && (forall p :: p in targets ==> DeviceAt(t, p) == device)
      && (targets == {} <==> end.mounts == base)
      && end.devices == t.devices - {device}
  {
    assert FindMnt(t.mounts, []) == FindMnt(base, []);
    assert staging in t.mounts && DeviceAt(t, staging) == device;
    var end := After(t, Unstage(staging));
    assert end.mounts == t.mounts - {staging};
    if p :| p in targets {
      assert p in end.mounts && p !in base;
    } else {
      assert end.mounts == base;
    }
  }

  /** Stage at a fresh path, then publish, unpublish and expand at will: every published target shows the staged device.
      Unstaging brings the mount table back to where it started exactly when all targets have been unpublished again,
      and detaches the device. */
  lemma {:induction false} NodeRoundTrip(s: NodeState, stage: NodeOp, ops: seq<NodeOp>)
    requires stage.Stage? && Valid(s) && Succeeds(s, stage) && AllBetween(s.mounts, stage.target, ops)
    requires stage.target !in s.mounts && stage.target != [] && stage.device != "" && stage.device !in s.mounts.Values
    ensures var t := RunAll(After(s, stage), ops);
      var end := After(t, Unstage(stage.target));
      && (forall p :: p in Targets({}, ops) ==> DeviceAt(t, p) == stage.device)
      && (Targets({}, ops) == {} <==> end.mounts == s.mounts)
      && end.devices == t.devices - {stage.device}
  {
    var staging, device := stage.target, stage.device;
    FreshStage(s, stage);
    CallsAreTracked(After(s, stage), s.mounts, staging, device, {}, ops);
    TargetsAreFresh(s.mounts, staging, {}, ops);
    UnstageRestores(RunAll(After(s, stage), ops), s.mounts, staging, device, Targets({}, ops));
  }

  /** When a stage succeeds, and what it leaves: the filesystem asked for, ext4 if none is; one that is there is kept; a
      target that shows the device already is left alone. */
  lemma StageExactly(s: NodeState, op: NodeOp)
    requires op.Stage? && Valid(s) && op.device != ""
    ensures var t, want := After(s, op), if op.fsType == "" then "ext4" else op.fsType;
      var there := ContentOf(s, op.volume);
      var shown := op.target in s.paths && FindMnt(s.mounts, op.target) == op.device && op.device != FindMnt(s.mounts, []);
      && (Succeeds(s, op) <==> shown || there.fsType == want || (there.fsType == "" && (want == "ext4" || want == "ext3" || want == "xfs")))
      && (shown || !Succeeds(s, op) ==> t.mounts == s.mounts && t.volumes == s.volumes)
      && (!shown && Succeeds(s, op) ==>
            && t.mounts == (if op.target in s.mounts then s.mounts else s.mounts[op.target := op.device])
            && t.volumes == (if there.fsType == "" then s.volumes[op.volume := Content(want, there.formats + 1)] else s.volumes)
            && op.target in t.paths)
      && t.devices == s.devices[op.device := op.volume] && s.paths <= t.paths <= s.paths + Prefixes(op.target)
      && (op.target != [] ==> op.target in s.paths || op.target[..|op.target| - 1] in t.paths)
  {
    PrefixesHold(op.target);
    if op.target != [] {
      ParentPrefixes(op.target);
    }
  }

  /** Publishing, and expanding, need a device other than the root's at the path they start from; publishing mounts that at
      the target, unless it is a mount point, and makes no directories but those on the way. */
  lemma PublishExactly(s: NodeState, staging: Path, target: Path)
    requires Valid(s) && staging in s.paths && staging != []
    ensures var op, device := Publish(staging, target), FindMnt(s.mounts, staging);
      var t, ok := After(s, op), device != "" && device != FindMnt(s.mounts, []);
      && Succeeds(s, op) == Succeeds(s, Expand(staging)) == ok
      && t.mounts == (if ok && target !in s.mounts then s.mounts[target := device] else s.mounts)
      && t.devices == s.devices && t.volumes == s.volumes
      && s.paths <= t.paths <= s.paths + Prefixes(target)
      && (target != [] ==> target in s.paths || target[..|target| - 1] in t.paths)
      && (ok ==> target in t.paths)
  {
    var u := WithParent(s, target);
    ParentMade(s, target);
    assert DeviceAt(u, staging) == DeviceAt(s, staging);
    PrefixesHold(target);
  }

  lemma ParentMade(s: NodeState, target: Path)
    ensures var u := WithParent(s, target);
      && u == s.(paths := u.paths) && s.paths <= u.paths <= s.paths + Prefixes(target)
      && (target != [] ==> target in s.paths || target[..|target| - 1] in u.paths)
  {
    if target != [] {
      ParentPrefixes(target);
    }
  }

  /** Unmounting and removing: the path is gone, with all below it that is no mount point; nothing else is. */
  lemma UnmountedExactly(s: NodeState, target: Path)
    requires Valid(s)
    ensures var t := Unmounted(s, target);
      && target !in t.paths && t.mounts == s.mounts - {target}
      && t.devices == s.devices && t.volumes == s.volumes
      && (target in s.paths ==>
            forall q :: q in t.paths <==> q in s.paths && (!(target <= q) || (q != target && q in s.mounts)))
  {
  }

  /** A clone has its source's filesystem: staged with that type it is not formatted, staged with another it is refused. */
  lemma CloneIsNotFormatted(s: NodeState, source: string, stage: NodeOp)
    requires stage.Stage? && Valid(s) && stage.volume !in s.volumes && ContentOf(s, source).fsType != ""
    requires stage.device != "" && stage.target !in s.paths
    ensures var t := After(s, CloneTo(source, stage.volume));
      && (Succeeds(t, stage) <==> Requested(stage.fsType) == ContentOf(s, source).fsType)
      && After(t, stage).volumes == t.volumes
      && ContentOf(t, stage.volume) == Content(ContentOf(s, source).fsType, 0)
  {
  }

  /** Staging once more changes nothing and gives the same answer, whatever was mounted at the target. */
  lemma {:induction false} RepeatedStage(s: NodeState, op: NodeOp)
    requires op.Stage? && Valid(s) && op.device != ""
    ensures After(After(s, op), op) == After(s, op)
    ensures Succeeds(After(s, op), op) == Succeeds(s, op)
  {
    var t := After(s, op);
    PrefixesHold(op.target);
    AttachTwice(s, op);
    if Already(s, op) {
      assert t == Attached(s, op);
    } else if Succeeds(s, op) {
      assert op.target in t.paths && op.target in t.mounts;
      assert ContentOf(t, op.volume).fsType == Requested(op.fsType);
    } else {
      assert t == Attached(s, op);
    }
  }

  lemma AttachTwice(s: NodeState, op: NodeOp)
    requires op.Stage?
    ensures Attached(Attached(s, op), op) == Attached(s, op)
  {
  }

  /** The filesystem a path is on when nothing is mounted at it: its parent's. */
  function BelowParent(m: MountTable, p: Path): string {
    if p == [] then "" else FindMnt(m, p[..|p| - 1])
  }

  /** Which attached device an unstage detaches: the one mounted at the path, or else, if the path is there, the one its
      parent is on; but never the root's. */
  lemma UnstageDetachesExactly(s: NodeState, target: Path, device: string)
    requires Valid(s) && device in s.devices && device != ""
    ensures device !in After(s, Unstage(target)).devices <==>
      && target in s.paths && device != FindMnt(s.mounts, [])
      && device == if target in s.mounts then s.mounts[target] else BelowParent(s.mounts, target)
  {
  }

  /** So it detaches no other device than one mounted at the path exactly when something is mounted there, or the path is
      missing, or its parent is on the root's device or on one that is not attached. */
  lemma UnstageDetachesOwnExactly(s: NodeState, target: Path)
    requires Valid(s) && "" !in s.devices
    ensures var parent := BelowParent(s.mounts, target);
      (forall d :: d in s.devices && d !in After(s, Unstage(target)).devices ==> target in s.mounts && s.mounts[target] == d)
      <==> target in s.mounts || target !in s.paths || parent == FindMnt(s.mounts, []) || parent !in s.devices
  {
    var parent := BelowParent(s.mounts, target);
    if parent in s.devices {
      UnstageDetachesExactly(s, target, parent);
    }
    forall d | d in s.devices && d !in After(s, Unstage(target)).devices
      ensures d == if target in s.mounts then s.mounts[target] else parent
    {
      UnstageDetachesExactly(s, target, d);
    }
  }

  /** In the same way a publish from a directory where nothing is mounted succeeds, with the parent's device, unless that is
      the root's. */
  lemma PublishFromDirectory(s: NodeState, staging: Path, target: Path)
    requires Valid(s) && staging in s.paths && staging !in s.mounts && target in s.paths && target !in s.mounts
    ensures var parent := BelowParent(s.mounts, staging);
      && (Succeeds(s, Publish(staging, target)) <==> parent != FindMnt(s.mounts, []) && parent != "")
      && (Succeeds(s, Publish(staging, target)) ==> After(s, Publish(staging, target)).mounts == s.mounts[target := parent])
  {
  }

  /* ---- filesystems ---- */

  lemma CallKeepsFilesystem(s: NodeState, op: NodeOp, volume: string)
    ensures var before, after := ContentOf(s, volume), ContentOf(After(s, op), volume);
      && (before.fsType != "" ==> after == before)
      && before.formats <= after.formats
      && (after.formats > before.formats ==> after.formats == before.formats + 1 && after.fsType != "")
  {
  }

  /** Over any run of the node's calls, clones and expansions, whatever devices the volumes show up as: a volume that has
      a filesystem keeps its type and is never formatted again, and none is formatted twice. */
  lemma {:induction false} FormattedOnce(s: NodeState, ops: seq<NodeOp>, volume: string)
    ensures var before, after := ContentOf(s, volume), ContentOf(RunAll(s, ops), volume);
      && (before.fsType != "" ==> after == before)
      && before.formats <= after.formats <= before.formats + 1
    decreases |ops|
  {
    if ops != [] {
      CallKeepsFilesystem(s, ops[0], volume);
      FormattedOnce(After(s, ops[0]), ops[1..], volume);
    }
  }

  /** The device's name is free, or already this volume's. */
  predicate Enabled(s: NodeState, op: NodeOp) {
    op.Stage? ==>
      && op.device != ""
      && if op.device in s.devices then s.devices[op.device] == op.volume else op.device !in s.mounts.Values
  }

  /** Whatever attached device is mounted anywhere, its volume has a filesystem. */
  predicate MountedHaveFilesystems(s: NodeState) {
    forall p :: p in s.mounts && s.mounts[p] in s.devices ==> ContentOf(s, s.devices[s.mounts[p]]).fsType != ""
  }

  lemma AttachKeepsMounted(s: NodeState, op: NodeOp)
    requires op.Stage? && Valid(s) && MountedHaveFilesystems(s) && Enabled(s, op)
    ensures MountedHaveFilesystems(Attached(s, op))
    ensures Already(s, op) ==> ContentOf(s, op.volume).fsType != ""
  {
    FoundIsMounted(s.mounts, op.target);
  }

  lemma FormatKeepsMounted(s: NodeState, volume: string, fsType: string)
    requires MountedHaveFilesystems(s) && fsType != ""
    ensures MountedHaveFilesystems(Formatted(s, volume, fsType))
  {
    forall v | v != volume ensures ContentOf(Formatted(s, volume, fsType), v) == ContentOf(s, v) {
    }
  }

  lemma MountKeepsMounted(s: NodeState, device: string, target: Path)
    requires MountedHaveFilesystems(s)
    requires device in s.devices ==> ContentOf(s, s.devices[device]).fsType != ""
    ensures MountedHaveFilesystems(Mounted(s, device, target))
  {
  }

  /** A stage that succeeds leaves the volume with a filesystem, of the type asked for unless it was staged before; one
      that fails touches neither volumes nor mounts. */
  lemma {:induction false} StageKeepsMounted(s: NodeState, op: NodeOp)
    requires op.Stage? && Valid(s) && MountedHaveFilesystems(s) && Enabled(s, op)
    ensures var t := After(s, op);
      && MountedHaveFilesystems(t)
      && (Succeeds(s, op) ==> ContentOf(t, op.volume).fsType != "")
      && (Succeeds(s, op) && !Already(s, op) ==> ContentOf(t, op.volume).fsType == Requested(op.fsType))
      && (!Succeeds(s, op) ==> t.mounts == s.mounts && t.volumes == s.volumes)
  {
    AttachKeepsMounted(s, op);
    if Succeeds(s, op) && !Already(s, op) {
      var t, want := Attached(s, op), Requested(op.fsType);
      if ContentOf(s, op.volume).fsType == "" {
        FormatKeepsMounted(t, op.volume, want);
        MountKeepsMounted(Formatted(t, op.volume, want), op.device, op.target);
      } else {
        MountKeepsMounted(t, op.device, op.target);
      }
    }
  }

  lemma PublishKeepsMounted(s: NodeState, staging: Path, target: Path)
    requires Valid(s) && MountedHaveFilesystems(s)
    ensures MountedHaveFilesystems(After(s, Publish(staging, target)))
  {
    FoundIsMounted(s.mounts, staging);
  }

  lemma CallKeepsMounted(s: NodeState, op: NodeOp)
    requires Valid(s) && MountedHaveFilesystems(s) && Enabled(s, op)
    ensures MountedHaveFilesystems(After(s, op))
  {
    match op {
      case Stage(_, _, _, _) => StageKeepsMounted(s, op);
      case Publish(staging, target) => PublishKeepsMounted(s, staging, target);
      case CloneTo(source, volume) =>
        forall v | v != volume ensures ContentOf(After(s, op), v) == ContentOf(s, v) {
        }
      case _ =>
    }
  }

  /** Each call finds its device's name free or its own. */
  predicate AllEnabled(s: NodeState, ops: seq<NodeOp>)
    decreases |ops|
  {
    ops != [] ==> Enabled(s, ops[0]) && AllEnabled(After(s, ops[0]), ops[1..])
  }

  /** Over any run of the calls, a volume that is mounted has a filesystem; so no mounted volume is ever formatted. */
  lemma {:induction false} NoneFormattedWhileMounted(s: NodeState, ops: seq<NodeOp>, op: NodeOp, path: Path)
    requires Valid(s) && MountedHaveFilesystems(s) && AllEnabled(s, ops)
    ensures var t := RunAll(s, ops);
      && Valid(t) && MountedHaveFilesystems(t)
      && (path in t.mounts && t.mounts[path] in t.devices ==>
            var volume := t.devices[t.mounts[path]];
            ContentOf(After(t, op), volume) == ContentOf(t, volume))
    decreases |ops|
  {
    if ops == [] {
      if path in s.mounts && s.mounts[path] in s.devices {
        CallKeepsFilesystem(s, op, s.devices[s.mounts[path]]);
      }
    } else {
      AfterIsValid(s, ops[0]);
      CallKeepsMounted(s, ops[0]);
      NoneFormattedWhileMounted(After(s, ops[0]), ops[1..], op, path);
    }
  }
}
