/** The controller's calls, backend call by backend call. Each is proved to do what Lifecycle says of its request. */
module Controller {
  import opened Wrappers
  import opened Text
  import opened Identifiers
  import opened Appliance
  import opened Lifecycle
  import opened Provider
  import opened Promises

  /** What resolving the request's volume group gave: this appliance, a not-found error, or another error. */
  datatype Resolution = Resolved | NoSuchGroup | ResolveFailed

  datatype ContentSource = Blank | FromSnapshot(key: SnapKey) | FromVolume(volume: VolPath)

  /** The content source as the request names it. */
  datatype RequestedSource = NoSource | SnapshotSource(id: string) | VolumeSource(id: string) | OtherSource

  /** A CreateVolume request: whether each capability is supported, whether the sparseVolume parameter can be parsed,
      and the required bytes of the capacity range. */
  datatype VolumeRequest = VolumeRequest(
    name: string, capabilities: Option<seq<bool>>, sparseParses: bool, required: int, source: RequestedSource)

  function SourceId(source: RequestedSource): string {
    if source.SnapshotSource? || source.VolumeSource? then source.id else ""
  }

  /** An empty id counts as no source. */
  function SourceOf(source: RequestedSource): ContentSource
    requires SourceId(source) == "" || SplitConfig(source.id).Pair?
  {
    if SourceId(source) == "" then Blank
    else if source.SnapshotSource? then FromSnapshot(SnapKeyOf(SplitConfig(source.id).rest))
    else FromVolume(VolPathOf(SplitConfig(source.id).rest))
  }

  function Capacity(request: VolumeRequest): int {
    if request.required == 0 then GIBIBYTE else request.required
  }

  /** How a request is refused before the appliance is looked for, Ok when it is not. */
  function Rejection(request: VolumeRequest, refreshed: bool): (r: Outcome)
    ensures r == Ok ==> SourceId(request.source) == "" || SplitConfig(request.source.id).Pair?
  {
    if request.name == "" then InvalidArgument
    else if !refreshed then FailedPrecondition
    else if request.capabilities == None then InvalidArgument
    else if exists i :: 0 <= i < |request.capabilities.value| && !request.capabilities.value[i] then FailedPrecondition
    else if !request.sparseParses || request.source == OtherSource then InvalidArgument
    else if SourceId(request.source) != "" && SplitConfig(request.source.id) == Malformed then NotFound
    else Ok
  }

  predicate IsUnresolved(resolution: Resolution, r: Outcome) {
    (resolution == NoSuchGroup ==> r == NotFound) && (resolution == ResolveFailed ==> r == Internal)
  }

  /** What each content source promises. */
  predicate SourcePromise(s: State, t: State, source: ContentSource, path: VolPath, size: int) {
    match source
    case Blank => VolumeCreated(s, t, path, size) && t.volumes[path].size == size
    case FromSnapshot(key) => ClonedFrom(s, t, key, path)
    case FromVolume(volume) => ClonedFrom(s, t, CloneKey(volume, path), path)
  }

  function Unresolved(resolution: Resolution): Outcome {
    if resolution == NoSuchGroup then NotFound else Internal
  }

  /** The volume and the snapshot that a path names to the appliance. */
  function VolPathOf(path: string): VolPath {
    var upTo := UpToLastSlash(path);
    VolPath(if upTo == "" then "" else upTo[..|upTo| - 1], path[|upTo|..])
  }

  function SnapKeyOf(path: string): SnapKey {
    var parts := Split(path, '@');
    SnapKey(VolPathOf(parts[0]), Join(parts[1..], '@'))
  }

  const GIBIBYTE := 1073741824

  function CreateOp(path: VolPath, size: int, source: ContentSource, now: int): Op {
    match source
    case Blank => Op.CreateVolume(path, size)
    case FromSnapshot(key) => CreateFromSnapshot(key, path)
    case FromVolume(volume) => CreateClone(volume, path, now)
  }

  /** The call from s ended in t with the given answer: its request's own, or no answer part of the way. */
  predicate Settled(op: Op, s: State, t: State, r: Outcome) {
    if r == Interrupted then Step(op, s, t) else r == Verdict(op, s) && t == After(op, s)
  }

  function PathString(path: VolPath): string {
    path.group + "/" + path.name
  }

  class ControllerServer {
    const ns: NsProvider

    constructor (ns: NsProvider)
      ensures this.ns == ns
    {
      this.ns := ns;
    }

    method CreateNewVolume(path: VolPath, size: int) returns (r: Outcome)
      modifies ns
      ensures Settled(Op.CreateVolume(path, size), old(ns.state), ns.state, r)
      ensures r == Ok ==> VolumeCreated(old(ns.state), ns.state, path, size)
      ensures old(ns.budget) >= 2 ==> r != Interrupted
    {
      CreateKeepsPromise(ns.state, path, size);
      var created := ns.CreateVolume(path, size);
      if created == Fault { return Interrupted; }
      if created == Refused(AlreadyExist) {
        var existing := ns.GetVolume(path);
        if !existing.Done? { return Interrupted; }
        return if size != 0 && existing.value.size != size then AlreadyExists else Ok;
      }
      return if created.Refused? then Internal else Ok;
    }

    method CreateNewVolumeFromSnapshot(key: SnapKey, path: VolPath) returns (r: Outcome)
      modifies ns
      ensures Settled(CreateFromSnapshot(key, path), old(ns.state), ns.state, r)
      ensures r == Ok ==> ClonedFrom(old(ns.state), ns.state, key, path)
      ensures old(ns.budget) >= 2 ==> r != Interrupted
    {
      FromSnapshotKeepsPromise(ns.state, key, path);
      var snapshot := ns.GetSnapshot(key);
      if snapshot == Fault { return Interrupted; }
      if snapshot.Refused? { return NotFound; }
      var cloned := ns.Clone(key, path);
      if cloned == Fault { return Interrupted; }
      return if cloned.Refused? && cloned.error != AlreadyExist then Internal else Ok;
    }

    method CreateClonedVolume(original: VolPath, path: VolPath, now: int) returns (r: Outcome)
      modifies ns
      ensures Settled(CreateClone(original, path, now), old(ns.state), ns.state, r)
      ensures r == Ok ==> ClonedFrom(old(ns.state), ns.state, CloneKey(original, path), path)
      ensures r == Ok ==> SnapshotTaken(old(ns.state), ns.state, CloneKey(original, path), now)
      ensures old(ns.budget) >= 4 ==> r != Interrupted
    {
      CloneKeepsPromise(ns.state, original, path, now);
      var name := CloneSnapshotName(path);
      var snapshot, _ := CreateSnapshotOnNS(original, name, now);
      if snapshot != Ok { return snapshot; }
      var cloned := ns.Clone(SnapKey(original, name), path);
      if cloned == Fault { return Interrupted; }
      return if cloned.Refused? && cloned.error != AlreadyExist then NotFound else Ok;
    }

    method CapabilitiesSupported(capabilities: seq<bool>) returns (ok: bool)
      ensures ok <==> forall i :: 0 <= i < |capabilities| ==> capabilities[i]
    {
      for i := 0 to |capabilities|
        invariant forall j :: 0 <= j < i ==> capabilities[j]
      {
        if !capabilities[i] { return false; }
      }
      return true;
    }

    /** `refreshed` says whether the configuration could be refreshed; resolving gave the group and the config name. */
    method CreateVolume(request: VolumeRequest, refreshed: bool, resolution: Resolution, config: string, group: string, now: int)
      returns (r: Outcome, volumeId: string, capacity: int)
      modifies ns
      ensures var rejected, path := Rejection(request, refreshed), VolPath(group, request.name);
        if rejected != Ok then r == rejected && ns.state == old(ns.state)
        else if resolution != Resolved then IsUnresolved(resolution, r) && ns.state == old(ns.state)
        else
          && Settled(CreateOp(path, Capacity(request), SourceOf(request.source), now), old(ns.state), ns.state, r)
          && (r == Ok ==> SourcePromise(old(ns.state), ns.state, SourceOf(request.source), path, capacity))
      ensures r == Ok ==> volumeId == config + ":" + (group + "/" + request.name)
      ensures r == Ok ==> capacity == if request.required != 0 then request.required else 1073741824
      ensures old(ns.budget) >= 4 ==> r != Interrupted
    {
      var path := VolPath(group, request.name);
      volumeId, capacity := VolumeId(config, PathString(path)), request.required;
      if request.name == "" { return InvalidArgument, volumeId, capacity; }
      if !refreshed { return FailedPrecondition, volumeId, capacity; }
      if request.capabilities == None { return InvalidArgument, volumeId, capacity; }
      var supported := CapabilitiesSupported(request.capabilities.value);
      if !supported { return FailedPrecondition, volumeId, capacity; }
      if !request.sparseParses || request.source == OtherSource { return InvalidArgument, volumeId, capacity; }
      if capacity == 0 { capacity := GIBIBYTE; }
      if request.source.SnapshotSource? && request.source.id != "" {
        var source := SplitConfig(request.source.id);
        if source == Malformed { return NotFound, volumeId, capacity; }
        if resolution != Resolved { return Unresolved(resolution), volumeId, capacity; }
        r := CreateNewVolumeFromSnapshot(SnapKeyOf(source.rest), path);
      } else if request.source.VolumeSource? && request.source.id != "" {
        var source := SplitConfig(request.source.id);
        if source == Malformed { return NotFound, volumeId, capacity; }
        if resolution != Resolved { return Unresolved(resolution), volumeId, capacity; }
        r := CreateClonedVolume(VolPathOf(source.rest), path, now);
      } else {
        if resolution != Resolved { return Unresolved(resolution), volumeId, capacity; }
        r := CreateNewVolume(path, capacity);
      }
    }

    method CreateSnapshotOnNS(volume: VolPath, name: string, now: int) returns (r: Outcome, snapshot: Snap)
      modifies ns
      ensures Settled(Op.CreateSnapshot(volume, name, now), old(ns.state), ns.state, r)
      ensures r == Ok ==> SnapshotTaken(old(ns.state), ns.state, SnapKey(volume, name), now)
      ensures r == Ok ==> SnapKey(volume, name) in ns.state.snapshots && snapshot == ns.state.snapshots[SnapKey(volume, name)]
      ensures r == Ok ==> old(ns.budget) >= 3 && ns.budget == old(ns.budget) - 3
      ensures old(ns.budget) >= 3 ==> r != Interrupted
    {
      snapshot := Snap(0, 0);
      SnapshotKeepsPromise(ns.state, volume, name, now);
      var existing := ns.GetSnapshots(volume.group);
      if existing.Fault? { return Interrupted, snapshot; }
      if existing.Refused? { return NotFound, snapshot; }
      for i := 0 to |existing.value|
        invariant ns.state == old(ns.state) && ns.budget == old(ns.budget) - 1
        invariant forall j :: 0 <= j < i ==> !(existing.value[j].name == name && existing.value[j].parent != volume)
      {
        if existing.value[i].name == name && existing.value[i].parent != volume {
          assert existing.value[i] in existing.value;
          return AlreadyExists, snapshot;
        }
      }
      assert !NameTaken(ns.state, volume, name) by {
        assert forall k :: k in existing.value ==> !(k.name == name && k.parent != volume);
      }
      var created := ns.CreateSnapshot(SnapKey(volume, name), now);
      if created == Fault { return Interrupted, snapshot; }
      if created.Refused? && created.error != AlreadyExist { return Internal, snapshot; }
      var got := ns.GetSnapshot(SnapKey(volume, name));
      if !got.Done? { return Interrupted, snapshot; }
      return Ok, got.value;
    }

    /** The volume and the snapshot are named by the request's strings; the id in the response names them again. */
    method CreateSnapshot(sourceVolumeId: string, name: string, resolution: Resolution, now: int)
      returns (r: Outcome, snapshotId: string, snapshot: Snap)
      modifies ns
      ensures var source := ParseVolumeId(sourceVolumeId);
        if !source.Volume? || name == "" then r == InvalidArgument && ns.state == old(ns.state)
        else if resolution != Resolved then IsUnresolved(resolution, r) && ns.state == old(ns.state)
        else
          && Settled(Op.CreateSnapshot(source.path, name, now), old(ns.state), ns.state, r)
          && (r == Ok ==>
                && SnapshotTaken(old(ns.state), ns.state, SnapKey(source.path, name), now)
                && snapshot == ns.state.snapshots[SnapKey(source.path, name)]
                && snapshotId == sourceVolumeId + "@" + name)
      ensures old(ns.budget) >= 3 ==> r != Interrupted
    {
      snapshot, snapshotId := Snap(0, 0), "";
      var source := ParseVolumeId(sourceVolumeId);
      if !source.Volume? || name == "" { return InvalidArgument, snapshotId, snapshot; }
      if resolution != Resolved {
        return Unresolved(resolution), snapshotId, snapshot;
      }
      r, snapshot := CreateSnapshotOnNS(source.path, name, now);
      snapshotId := SnapshotId(source.config, PathString(source.path), name);
      VolumeIdRebuilt(sourceVolumeId);
      assert snapshotId == VolumeId(source.config, PathString(source.path)) + "@" + name;
    }

    method DeleteSnapshot(snapshotId: string, resolution: Resolution) returns (r: Outcome)
      modifies ns
      ensures var target := ParseSnapshotId(snapshotId);
        if snapshotId == "" || target.BadVolume? then r == InvalidArgument && ns.state == old(ns.state)
        else if target.NotSnapshot? || resolution == NoSuchGroup then r == Ok && ns.state == old(ns.state)
        else if resolution == ResolveFailed then r == Internal && ns.state == old(ns.state)
        else
          && Settled(Op.DeleteSnapshot(SnapKey(target.path, target.name)), old(ns.state), ns.state, r)
          && (r == Ok ==> SnapshotDeleted(old(ns.state), ns.state, SnapKey(target.path, target.name)))
      ensures old(ns.budget) >= 1 ==> r != Interrupted
    {
      if snapshotId == "" { return InvalidArgument; }
      var target := ParseSnapshotId(snapshotId);
      if target.NotSnapshot? { return Ok; }
      if target.BadVolume? { return InvalidArgument; }
      if resolution == NoSuchGroup { return Ok; }
      if resolution == ResolveFailed { return Internal; }
      DeleteSnapshotKeepsPromise(ns.state, SnapKey(target.path, target.name));
      var destroyed := ns.DestroySnapshot(SnapKey(target.path, target.name));
      if destroyed == Fault { return Interrupted; }
      return if destroyed.Refused? && destroyed.error != NotExist then Internal else Ok;
    }

    /** The loop that DeleteVolume and ControllerUnpublishVolume share: list the volume's mappings, destroy each. */
    method DestroyLuns(volume: VolPath) returns (r: Outcome)
      modifies ns
      ensures r == Ok ==> ns.state == WithoutLuns(old(ns.state), volume)
      ensures r == Ok ==> ns.budget == old(ns.budget) - 1 - |LunIds(old(ns.state), VolumeLuns(volume))|
      ensures r != Ok ==> r == Interrupted && SomeLunsGone(old(ns.state), ns.state, volume)
      ensures old(ns.budget) > |LunIds(old(ns.state), VolumeLuns(volume))| ==> r == Ok
    {
      var luns := ns.GetLunMappings(VolumeLuns(volume));
      if !luns.Done? { return Interrupted; }
      ghost var ids := LunIds(ns.state, VolumeLuns(volume));
      ListingDistinct(luns.value, ids);
      assert forall j :: 0 <= j < |luns.value| ==> luns.value[j] in luns.value && luns.value[j] in ids;
      for i := 0 to |luns.value|
        invariant ns.state == old(ns.state).(mappings := old(ns.state).mappings - (set j | 0 <= j < i :: luns.value[j]))
        invariant ns.budget == old(ns.budget) - 1 - i
      {
        assert luns.value[i] in luns.value;
        var destroyed := ns.DestroyLunMapping(luns.value[i]);
        if !destroyed.Done? { return Interrupted; }
      }
      assert (set j | 0 <= j < |luns.value| :: luns.value[j]) == ids;
      return Ok;
    }

    method DeleteVolume(volumeId: string, resolution: Resolution, promotion: Promotion) returns (r: Outcome)
      requires var target := ParseVolumeId(volumeId);
        target.Volume? ==> ValidPromotion(ns.state, target.path, promotion)
      modifies ns
      ensures var target := ParseVolumeId(volumeId);
        if volumeId == "" then r == InvalidArgument && ns.state == old(ns.state)
        else if !target.Volume? || resolution == NoSuchGroup then r == Ok && ns.state == old(ns.state)
        else if resolution == ResolveFailed then r == Internal && ns.state == old(ns.state)
        else
          && Settled(Op.DeleteVolume(target.path, promotion), old(ns.state), ns.state, r)
          && (r == Ok ==> VolumeDeleted(old(ns.state), ns.state, target.path, promotion))
          && (old(ns.budget) >= |LunIds(old(ns.state), VolumeLuns(target.path))| + 2 ==> r == Ok)
    {
      if volumeId == "" { return InvalidArgument; }
      var target := ParseVolumeId(volumeId);
      if !target.Volume? || resolution == NoSuchGroup { return Ok; }
      if resolution == ResolveFailed { return Internal; }
      r := DestroyLuns(target.path);
      if r != Ok { return; }
      SameClones(old(ns.state), WithoutLuns(old(ns.state), target.path), target.path);
      DeleteKeepsPromise(old(ns.state), target.path, promotion);
      var destroyed := ns.DestroyVolume(target.path, promotion);
      if destroyed == Fault { return Interrupted; }
      return if destroyed.Refused? && destroyed.error != NotExist then Internal else Ok;
    }

    /** ControllerUnpublishVolume up to its second reading of the mappings; Polling has the wait that follows. */
    method ControllerUnpublishVolume(volumeId: string, resolution: Resolution) returns (r: Outcome, left: seq<nat>)
      modifies ns
      ensures var target := ParseVolumeId(volumeId);
        if volumeId == "" then r == InvalidArgument && ns.state == old(ns.state)
        else if !target.Volume? || resolution == NoSuchGroup then r == Ok && ns.state == old(ns.state)
        else if resolution == ResolveFailed then r == Internal && ns.state == old(ns.state)
        else
          && Settled(Op.Unpublish(target.path), old(ns.state), ns.state, r)
          && (r == Ok ==> LunsGone(old(ns.state), ns.state, target.path) && ns.state == old(ns.state).(mappings := ns.state.mappings))
          && (old(ns.budget) >= |LunIds(old(ns.state), VolumeLuns(target.path))| + 2 ==> r == Ok)
      ensures r == Ok ==> left == []
    {
      left := [];
      if volumeId == "" { return InvalidArgument, left; }
      var target := ParseVolumeId(volumeId);
      if !target.Volume? || resolution == NoSuchGroup { return Ok, left; }
      if resolution == ResolveFailed { return Internal, left; }
      r := DestroyLuns(target.path);
      if r != Ok { return; }
      UnpublishKeepsPromise(old(ns.state), target.path);
      var luns := ns.GetLunMappings(VolumeLuns(target.path));
      if !luns.Done? { return Interrupted, left; }
      assert LunIds(ns.state, VolumeLuns(target.path)) == {};
      left := luns.value;
    }

    method ControllerExpandVolume(volumeId: string, required: int, resolution: Resolution)
      returns (r: Outcome, capacity: int, nodeExpansion: bool)
      modifies ns
      ensures var target := ParseVolumeId(volumeId);
        if required == 0 || target.BadId? then r == InvalidArgument && ns.state == old(ns.state)
        else if target.BadPath? then r == Ok && ns.state == old(ns.state)
        else if resolution != Resolved then IsUnresolved(resolution, r) && ns.state == old(ns.state)
        else
          && Settled(Expand(target.path, required), old(ns.state), ns.state, r)
          && (r == Ok ==>
                && VolumeExpanded(old(ns.state), ns.state, target.path, required)
                && capacity == required
                && (nodeExpansion <==> ns.state != old(ns.state)))
      ensures old(ns.budget) >= 2 ==> r != Interrupted
    {
      capacity, nodeExpansion := 0, false;
      if required == 0 || volumeId == "" { return InvalidArgument, 0, false; }
      var target := ParseVolumeId(volumeId);
      if target.BadId? { return InvalidArgument, 0, false; }
      if target.BadPath? { return Ok, 0, false; }
      if resolution != Resolved {
        return Unresolved(resolution), 0, false;
      }
      ExpandKeepsPromise(ns.state, target.path, required);
      var info := ns.GetVolume(target.path);
      if info.Fault? { return Interrupted, 0, false; }
      if info.Refused? { return Unknown, 0, false; }
      if info.value.size < required {
        var updated := ns.UpdateVolume(target.path, required);
        if !updated.Done? { return Interrupted, 0, false; }
        assert ns.state.volumes[target.path].size == required;
        return Ok, required, true;
      }
      return Ok, required, false;
    }
  }

  predicate AllTrue(capabilities: Option<seq<bool>>) {
    capabilities.Some? && forall i :: 0 <= i < |capabilities.value| ==> capabilities.value[i]
  }

  /** Which requests CreateVolume refuses outright, and how. */
  lemma RejectedExactly(request: VolumeRequest, refreshed: bool)
    ensures var usable := request.name != "" && refreshed && AllTrue(request.capabilities);
      var readable := request.sparseParses && request.source != OtherSource;
      var named := request.source.NoSource? || request.source.OtherSource? || request.source.id == "" || HasOne(request.source.id, ':');
      var r := Rejection(request, refreshed);
      && (r == Ok <==> usable && readable && named)
      && (r == NotFound <==> usable && readable && !named)
      && (r == FailedPrecondition <==>
            request.name != "" && (!refreshed || (request.capabilities.Some? && !AllTrue(request.capabilities))))
      && (r == InvalidArgument <==>
            request.name == "" || (refreshed && request.capabilities == None) || (usable && !readable))
  {
    if request.source.SnapshotSource? || request.source.VolumeSource? {
      ClassesExactly(request.source.id);
    }
  }

  /** Two requests for one name with different sizes: the second is never answered Ok. */
  lemma OneSizePerRequest(s: State, path: VolPath, first: VolumeRequest, second: VolumeRequest)
    requires first.required != 0 && second.required != 0 && first.required != second.required
    ensures Verdict(CreateOp(path, Capacity(first), Blank, 0), s) == Ok ==>
      var t := After(CreateOp(path, Capacity(first), Blank, 0), s);
      Verdict(CreateOp(path, Capacity(second), Blank, 0), t) == AlreadyExists
  {
    OneSizePerName(s, path, first.required, second.required);
  }

  /** The id in the response to a create names the created volume to every later call. */
  lemma CreatedVolumeIsNamed(config: string, pool: string, group: string, name: string)
    requires ':' !in config && Free(':', pool, group, name) && Free('/', pool, group, name)
    ensures var path := VolPath(pool + "/" + group, name);
      ParseVolumeId(VolumeId(config, PathString(path))) == Volume(config, path)
  {
    assert (pool + "/" + group) + "/" + name == VolumePath(pool, group, name);
    VolumeIdRoundTrip(config, pool, group, name);
  }

  /** A content source names to CreateVolume the volume or the snapshot that the id was made for. */
  lemma {:induction false} SourceNamesItsVolume(config: string, path: VolPath, snapshot: string)
    requires ':' !in config && ':' !in path.group && ':' !in path.name && '/' !in path.name
    ensures var id := VolumeId(config, PathString(path));
      SplitConfig(id).Pair? && SourceOf(VolumeSource(id)) == FromVolume(path)
    ensures var id := SnapshotId(config, PathString(path), snapshot);
      ':' !in snapshot && '@' !in path.group && '@' !in path.name ==>
        SplitConfig(id).Pair? && SourceOf(SnapshotSource(id)) == FromSnapshot(SnapKey(path, snapshot))
    ensures SourceOf(NoSource) == SourceOf(VolumeSource("")) == SourceOf(SnapshotSource("")) == Blank
  {
    var text := PathString(path);
    UpToLastSlashOf(path.group, path.name);
    assert VolPathOf(text) == path;
    InConcat(path.group, path.name, '/', ':');
    SplitTwo(config, text, ':');
    if ':' !in snapshot && '@' !in path.group && '@' !in path.name {
      InConcat(path.group, path.name, '/', '@');
      InConcat(text, snapshot, '@', ':');
      SplitTwo(config, text + "@" + snapshot, ':');
      SplitAfterSeparator(text, snapshot, '@');
      assert Join(Split(snapshot, '@'), '@') == snapshot;
    }
  }

  lemma {:induction false} ListingDistinct(listing: seq<nat>, items: set<nat>)
    requires Lists(listing, items)
    ensures forall i, j :: 0 <= i < j < |listing| ==> listing[i] != listing[j]
  {
    forall i, j | 0 <= i < j < |listing| && listing[i] == listing[j] ensures false {
      var shorter := listing[..j] + listing[j + 1..];
      forall x | x in items ensures x in shorter {
        var k :| 0 <= k < |listing| && listing[k] == x;
        var m := if k == j then i else k;
        assert listing[m] == x && shorter[if m < j then m else m - 1] == x;
      }
      SetOfListing(shorter, items);
    }
  }

  lemma {:induction false} SetOfListing(listing: seq<nat>, items: set<nat>)
    requires forall x :: x in items ==> x in listing
    ensures |items| <= |listing|
  {
    if listing != [] {
      SetOfListing(listing[1..], items - {listing[0]});
    }
  }

  class NodeServer {
    const ns: NsProvider

    constructor (ns: NsProvider)
      ensures this.ns == ns
    {
      this.ns := ns;
    }

    /** NodeStageVolume's mapping check: reuse the mapping of the target group, volume and host group, or make it. */
    method EnsureMapping(targetGroup: string, volume: VolPath, hostGroup: string, id: nat, lun: nat)
      returns (r: Outcome, stagedLun: nat)
      requires id !in ns.state.mappings
      modifies ns
      ensures var op := Stage(targetGroup, volume, hostGroup, id, lun);
        && Settled(op, old(ns.state), ns.state, r)
        && (r == Ok ==> VolumeMapped(old(ns.state), ns.state, targetGroup, volume, hostGroup, id))
        && (r == Ok ==> exists i :: i in ns.state.mappings && Serves(ns.state.mappings[i], targetGroup, volume, hostGroup)
                          && ns.state.mappings[i].lun == stagedLun)
      ensures old(ns.budget) >= 3 ==> r != Interrupted
    {
      stagedLun := 0;
      StageKeepsPromise(ns.state, targetGroup, volume, hostGroup, id, lun);
      var filter := LunFilter(targetGroup, volume, hostGroup);
      var luns := ns.GetLunMappings(filter);
      if !luns.Done? { return Interrupted, 0; }
      if luns.value == [] {
        var created := ns.CreateLunMapping(id, Mapping(targetGroup, volume, hostGroup, lun));
        if created == Fault { return Interrupted, 0; }
        if created.Refused? { return Unknown, 0; }
        assert id in LunIds(ns.state, filter);
        luns := ns.GetLunMappings(filter);
        if !luns.Done? { return Interrupted, 0; }
      }
      assert luns.value[0] in luns.value;
      assert Serves(ns.state.mappings[luns.value[0]], targetGroup, volume, hostGroup);
      return Ok, ns.state.mappings[luns.value[0]].lun;
    }
  }
}
