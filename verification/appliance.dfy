/** The NexentaStor appliance as the driver sees it through its provider interface. What each call does to the
    appliance is an assumption about a library that is not part of this model. */
module Appliance {
  import opened Wrappers
  import opened Identifiers

  datatype SnapKey = SnapKey(parent: VolPath, name: string)

  datatype Snap = Snap(created: int, size: int)

  datatype VolumeInfo = VolumeInfo(size: int, origin: Option<SnapKey>)

  datatype Mapping = Mapping(targetGroup: string, volume: VolPath, hostGroup: string, lun: nat)

  datatype State = State(
    groups: set<string>,
    volumes: map<VolPath, VolumeInfo>,
    snapshots: map<SnapKey, Snap>,
    mappings: map<nat, Mapping>)

  datatype NefError = AlreadyExist | NotExist | Busy

  /** Done, refused with one of the errors the driver tells apart, or no answer at all. */
  datatype Reply<+T> = Done(value: T) | Refused(error: NefError) | Fault

  /** The clone the appliance promotes when it destroys a volume, and which snapshots go over to it. */
  datatype Promotion = Promotion(clone: VolPath, moved: set<string>)

  /** GetLunMappings' filter: an empty target or host group matches all. */
  datatype LunFilter = LunFilter(targetGroup: string, volume: VolPath, hostGroup: string)

  predicate Matches(f: LunFilter, m: Mapping) {
    && (f.targetGroup == "" || m.targetGroup == f.targetGroup)
    && m.volume == f.volume
    && (f.hostGroup == "" || m.hostGroup == f.hostGroup)
  }

  function LunIds(s: State, f: LunFilter): set<nat> {
    set id | id in s.mappings && Matches(f, s.mappings[id])
  }

  function VolumeLuns(volume: VolPath): LunFilter {
    LunFilter("", volume, "")
  }

  /** A listing in the order the appliance likes. */
  ghost predicate Lists(listing: seq<nat>, items: set<nat>) {
    && (forall x :: x in listing <==> x in items)
    && |listing| == |items|
  }

  function AddVolume(s: State, path: VolPath, size: int): (r: (Reply<()>, State)) {
    if path in s.volumes then (Refused(AlreadyExist), s)
    else if path.group !in s.groups then (Refused(NotExist), s)
    else (Done(()), s.(volumes := s.volumes[path := VolumeInfo(size, None)]))
  }

  function CloneSnapshot(s: State, key: SnapKey, path: VolPath): (r: (Reply<()>, State)) {
    if path in s.volumes then (Refused(AlreadyExist), s)
    else if key !in s.snapshots || path.group !in s.groups then (Refused(NotExist), s)
    else (Done(()), s.(volumes := s.volumes[path := VolumeInfo(s.snapshots[key].size, Some(key))]))
  }

  function AddSnapshot(s: State, key: SnapKey, now: int): (r: (Reply<()>, State)) {
    if key in s.snapshots then (Refused(AlreadyExist), s)
    else if key.parent !in s.volumes then (Refused(NotExist), s)
    else (Done(()), s.(snapshots := s.snapshots[key := Snap(now, s.volumes[key.parent].size)]))
  }

  predicate HasClones(s: State, key: SnapKey) {
    exists w :: w in s.volumes && s.volumes[w].origin == Some(key)
  }

  function RemoveSnapshot(s: State, key: SnapKey): (r: (Reply<()>, State)) {
    if key !in s.snapshots then (Refused(NotExist), s)
    else if HasClones(s, key) then (Refused(Busy), s)
    else (Done(()), s.(snapshots := s.snapshots - {key}))
  }

  predicate IsCloneOf(s: State, clone: VolPath, volume: VolPath) {
    clone in s.volumes && s.volumes[clone].origin.Some? && s.volumes[clone].origin.value.parent == volume
  }

  predicate IsCloned(s: State, volume: VolPath) {
    exists w :: w in s.volumes && IsCloneOf(s, w, volume)
  }

  /** The appliance promotes some clone of the volume, which takes at least the snapshots that have clones. */
  predicate ValidPromotion(s: State, volume: VolPath, p: Promotion) {
    IsCloned(s, volume) ==>
      && p.clone != volume
      && IsCloneOf(s, p.clone, volume)
      && forall w :: w in s.volumes && IsCloneOf(s, w, volume) ==> s.volumes[w].origin.value.name in p.moved
  }

  /** Where a surviving volume's origin is once `volume` is destroyed. */
  function NewOrigin(s: State, volume: VolPath, p: Promotion, w: VolPath): Option<SnapKey>
    requires volume in s.volumes && w in s.volumes
  {
    if !IsCloneOf(s, w, volume) then s.volumes[w].origin
    else if w == p.clone then s.volumes[volume].origin
    else Some(SnapKey(p.clone, s.volumes[w].origin.value.name))
  }

  /** Destroying a volume with DestroySnapshots and PromoteMostRecentCloneIfExists. */
  function RemoveVolume(s: State, volume: VolPath, p: Promotion): (r: (Reply<()>, State)) {
    if volume !in s.volumes then (Refused(NotExist), s)
    else
      var kept := map k | k in s.snapshots && k.parent != volume :: s.snapshots[k];
      var moved := map n | n in p.moved && SnapKey(volume, n) in s.snapshots ::
                         SnapKey(p.clone, n) := s.snapshots[SnapKey(volume, n)];
      (Done(()), s.(
        volumes := map w | w in s.volumes && w != volume :: s.volumes[w].(origin := NewOrigin(s, volume, p, w)),
        snapshots := if IsCloned(s, volume) then kept + moved else kept))
  }

  function SetSize(s: State, path: VolPath, size: int): (r: (Reply<()>, State)) {
    if path !in s.volumes then (Refused(NotExist), s)
    else (Done(()), s.(volumes := s.volumes[path := s.volumes[path].(size := size)]))
  }

  /** Mapping a missing volume is refused; a second mapping like one there is not. The appliance picks the LUN. */
  function AddMapping(s: State, id: nat, m: Mapping): (r: (Reply<()>, State)) {
    if m.volume !in s.volumes then (Refused(NotExist), s)
    else (Done(()), s.(mappings := s.mappings[id := m]))
  }

  function RemoveMapping(s: State, id: nat): (r: (Reply<()>, State)) {
    if id !in s.mappings then (Refused(NotExist), s)
    else (Done(()), s.(mappings := s.mappings - {id}))
  }
}
