/** The volume, snapshot and mapping calls as operations on the appliance: what a call answers, the state a
    complete call leaves, and the states a call cut short may leave. */
module Lifecycle {
  import opened Identifiers
  import opened Appliance

  /** A request together with the choices the appliance makes for it (clock, promotion, mapping id and LUN). Stage is
      NodeStageVolume with its target group settled; Restaging has the whole call. */
  datatype Op =
    | CreateVolume(path: VolPath, size: int)
    | CreateFromSnapshot(source: SnapKey, path: VolPath)
    | CreateClone(original: VolPath, path: VolPath, now: int)
    | CreateSnapshot(volume: VolPath, name: string, now: int)
    | DeleteSnapshot(key: SnapKey)
    | DeleteVolume(volume: VolPath, promotion: Promotion)
    | Expand(volume: VolPath, size: int)
    | Unpublish(volume: VolPath)
    | Stage(targetGroup: string, volume: VolPath, hostGroup: string, id: nat, lun: nat)

  datatype Outcome =
    Ok | InvalidArgument | FailedPrecondition | NotFound | AlreadyExists | Internal | Unknown | Interrupted

  /** The name createClonedVolume gives its snapshot. */
  function CloneSnapshotName(path: VolPath): string {
    "k8s-clone-snapshot-" + path.name
  }

  /** A snapshot of that name belongs to another volume of the group. */
  predicate NameTaken(s: State, volume: VolPath, name: string) {
    exists k :: k in s.snapshots && k.parent.group == volume.group && k.name == name && k.parent != volume
  }

  function SnapshotVerdict(s: State, volume: VolPath, name: string): Outcome {
    if volume.group !in s.groups then NotFound
    else if NameTaken(s, volume, name) then AlreadyExists
    else if SnapKey(volume, name) !in s.snapshots && volume !in s.volumes then Internal
    else Ok
  }

  function AfterSnapshot(s: State, volume: VolPath, name: string, now: int): State {
    if SnapshotVerdict(s, volume, name) == Ok then AddSnapshot(s, SnapKey(volume, name), now).1 else s
  }

  function CloneVerdict(s: State, original: VolPath, path: VolPath): Outcome {
    var snapshot := SnapshotVerdict(s, original, CloneSnapshotName(path));
    if snapshot != Ok then snapshot
    else if path !in s.volumes && path.group !in s.groups then NotFound
    else Ok
  }

  function WithoutLuns(s: State, volume: VolPath): State {
    s.(mappings := map id | id in s.mappings && s.mappings[id].volume != volume :: s.mappings[id])
  }

  function StageFilter(op: Op): LunFilter
    requires op.Stage?
  {
    LunFilter(op.targetGroup, op.volume, op.hostGroup)
  }

  /** The answer of a call that runs to its end. */
  function Verdict(op: Op, s: State): Outcome {
    match op
    case CreateVolume(path, size) =>
      if path in s.volumes then (if size == 0 || s.volumes[path].size == size then Ok else AlreadyExists)
      else if path.group !in s.groups then Internal else Ok
    case CreateFromSnapshot(source, path) =>
      if source !in s.snapshots then NotFound
      else if path !in s.volumes && path.group !in s.groups then Internal else Ok
    case CreateClone(original, path, _) => CloneVerdict(s, original, path)
    case CreateSnapshot(volume, name, _) => SnapshotVerdict(s, volume, name)
    case DeleteSnapshot(key) => if key in s.snapshots && HasClones(s, key) then Internal else Ok
    case DeleteVolume(_, _) => Ok
    case Expand(volume, _) => if volume in s.volumes then Ok else Unknown
    case Unpublish(_) => Ok
    case Stage(_, volume, _, _, _) =>
      if LunIds(s, StageFilter(op)) != {} || volume in s.volumes then Ok else Unknown
  }

  /** The state it leaves. */
  function After(op: Op, s: State): State {
    match op
    case CreateVolume(path, size) => AddVolume(s, path, size).1
    case CreateFromSnapshot(source, path) => CloneSnapshot(s, source, path).1
    case CreateClone(original, path, now) =>
      var name := CloneSnapshotName(path);
      if SnapshotVerdict(s, original, name) != Ok then s
      else CloneSnapshot(AfterSnapshot(s, original, name, now), SnapKey(original, name), path).1
    case CreateSnapshot(volume, name, now) => AfterSnapshot(s, volume, name, now)
    case DeleteSnapshot(key) => RemoveSnapshot(s, key).1
    case DeleteVolume(volume, promotion) => RemoveVolume(WithoutLuns(s, volume), volume, promotion).1
    case Expand(volume, size) =>
      if volume in s.volumes && s.volumes[volume].size < size then SetSize(s, volume, size).1 else s
    case Unpublish(volume) => WithoutLuns(s, volume)
    case Stage(targetGroup, volume, hostGroup, id, lun) =>
      if LunIds(s, StageFilter(op)) != {} then s
      else AddMapping(s, id, Mapping(targetGroup, volume, hostGroup, lun)).1
  }

  /** The appliance's choices are ones it can make: a real clone to promote, an unused mapping id. */
  predicate Enabled(op: Op, s: State) {
    match op
    case DeleteVolume(volume, promotion) => ValidPromotion(s, volume, promotion)
    case Stage(_, _, _, id, _) => id !in s.mappings
    case _ => true
  }

  /** t is s with some, maybe all, of the volume's mappings gone. */
  predicate SomeLunsGone(s: State, t: State, volume: VolPath) {
    && t == s.(mappings := t.mappings)
    && (forall id :: id in t.mappings ==> id in s.mappings && t.mappings[id] == s.mappings[id])
    && (forall id :: id in s.mappings && s.mappings[id].volume != volume ==> id in t.mappings)
  }

  /** A state a call leaves part of the way. */
  predicate Midway(op: Op, s: State, t: State) {
    match op
    case CreateClone(original, path, now) => t == AfterSnapshot(s, original, CloneSnapshotName(path), now)
    case DeleteVolume(volume, _) => SomeLunsGone(s, t, volume)
    case Unpublish(volume) => SomeLunsGone(s, t, volume)
    case _ => false
  }

  /** A call from s, complete or cut short after any backend call, leaves t. */
  predicate Step(op: Op, s: State, t: State) {
    Enabled(op, s) && (t == s || Midway(op, s, t) || t == After(op, s))
  }

  /** The same request, with perhaps other choices of the appliance. */
  predicate SameRequest(a: Op, b: Op) {
    match a
    case CreateClone(original, path, _) => b.CreateClone? && b.original == original && b.path == path
    case CreateSnapshot(volume, name, _) => b.CreateSnapshot? && b.volume == volume && b.name == name
    case DeleteVolume(volume, _) => b.DeleteVolume? && b.volume == volume
    case Stage(targetGroup, volume, hostGroup, _, _) =>
      b.Stage? && b.targetGroup == targetGroup && b.volume == volume && b.hostGroup == hostGroup
    case _ => a == b
  }
}
