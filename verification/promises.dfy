/** What a caller is promised by an answer Ok, said of the appliance's volumes, snapshots and mappings themselves. Each
    lemma shows that the state a request leaves keeps the promise of its kind. */
module Promises {
  import opened Wrappers
  import opened Identifiers
  import opened Appliance
  import opened Lifecycle

  /** All volumes but this one are as they were, and so is the rest. */
  predicate OnlyVolume(s: State, t: State, path: VolPath) {
    && t.groups == s.groups && t.mappings == s.mappings
    && (forall v :: v in s.volumes ==> v in t.volumes && (v != path ==> t.volumes[v] == s.volumes[v]))
    && (forall v :: v in t.volumes ==> v in s.volumes || v == path)
  }

  /** All snapshots but this one are as they were. */
  predicate OnlySnapshot(s: State, t: State, key: SnapKey) {
    && (forall k :: k in s.snapshots ==> k in t.snapshots && t.snapshots[k] == s.snapshots[k])
    && (forall k :: k in t.snapshots ==> k in s.snapshots || k == key)
  }

  /** The volume exists, in the size asked for; a new one is no clone. */
  predicate VolumeCreated(s: State, t: State, path: VolPath, size: int) {
    && OnlyVolume(s, t, path) && t.snapshots == s.snapshots
    && path in t.volumes
    && (size != 0 ==> t.volumes[path].size == size)
    && (if path in s.volumes then t.volumes[path] == s.volumes[path] else t.volumes[path] == VolumeInfo(size, None))
  }

  /** The volume exists; a new one is a clone of the snapshot. */
  predicate ClonedFrom(s: State, t: State, key: SnapKey, path: VolPath) {
    && OnlyVolume(s, t, path)
    && path in t.volumes && key in t.snapshots
    && (if path in s.volumes then t.volumes[path] == s.volumes[path]
        else t.volumes[path].origin == Some(key) && t.volumes[path].size == t.snapshots[key].size)
  }

  /** The snapshot exists; a new one has the volume's size. No other volume of the group has one of its name. */
  predicate SnapshotTaken(s: State, t: State, key: SnapKey, now: int) {
    && OnlySnapshot(s, t, key) && key in t.snapshots
    && (key !in s.snapshots ==> key.parent in s.volumes && t.snapshots[key] == Snap(now, s.volumes[key.parent].size))
    && (forall k :: k in t.snapshots && k.name == key.name && k.parent.group == key.parent.group ==> k == key)
  }

  /** The snapshot a clone is made from: it is the original's, and carries the clone's own name. */
  function CloneKey(original: VolPath, path: VolPath): SnapKey {
    SnapKey(original, "k8s-clone-snapshot-" + path.name)
  }

  predicate SnapshotDeleted(s: State, t: State, key: SnapKey) {
    && t == s.(snapshots := t.snapshots)
    && key !in t.snapshots
    && (forall k :: k in s.snapshots && k != key ==> k in t.snapshots && t.snapshots[k] == s.snapshots[k])
    && (forall k :: k in t.snapshots ==> k in s.snapshots)
  }

  /** No mapping of the volume is left, and all others are. */
  predicate LunsGone(s: State, t: State, volume: VolPath) {
    && (forall id :: id in t.mappings ==> id in s.mappings && t.mappings[id] == s.mappings[id] && t.mappings[id].volume != volume)
    && (forall id :: id in s.mappings && s.mappings[id].volume != volume ==> id in t.mappings)
  }

  /** The volume is gone, with its mappings and snapshots; the others exist as before, and each snapshot of it that had a
      clone is the promoted clone's now, and the origin of the clones it had. */
  predicate VolumeDeleted(s: State, t: State, volume: VolPath, p: Promotion) {
    && t.groups == s.groups
    && LunsGone(s, t, volume)
    && volume !in t.volumes
    && (forall v :: v in t.volumes ==> v in s.volumes)
    && (forall v :: v in s.volumes && v != volume ==> v in t.volumes && t.volumes[v].size == s.volumes[v].size)
    && SnapshotsHandedOver(s, t, volume, p)
    && ClonesHandedOver(s, t, volume, p)
  }

  predicate SnapshotsHandedOver(s: State, t: State, volume: VolPath, p: Promotion) {
    && (volume in s.volumes ==> forall k :: k in t.snapshots ==> k.parent != volume)
    && (forall k :: k in s.snapshots && k.parent != volume ==> k in t.snapshots)
    && (forall k :: k in t.snapshots ==>
          k in s.snapshots || (k.parent == p.clone && IsCloneOf(s, p.clone, volume) && SnapKey(volume, k.name) in s.snapshots))
  }

  predicate ClonesHandedOver(s: State, t: State, volume: VolPath, p: Promotion) {
    forall w :: w in s.volumes && w != volume && w in t.volumes ==>
      if volume in s.volumes && s.volumes[w].origin.Some? && s.volumes[w].origin.value.parent == volume then
        var name := s.volumes[w].origin.value.name;
        && (SnapKey(volume, name) in s.snapshots ==>
              SnapKey(p.clone, name) in t.snapshots && t.snapshots[SnapKey(p.clone, name)] == s.snapshots[SnapKey(volume, name)])
        && t.volumes[w].origin == if w == p.clone then s.volumes[volume].origin else Some(SnapKey(p.clone, name))
      else t.volumes[w].origin == s.volumes[w].origin
  }

  /** The volume has at least the size asked for, and exactly that if it was smaller. */
  predicate VolumeExpanded(s: State, t: State, volume: VolPath, size: int) {
    && OnlyVolume(s, t, volume) && t.snapshots == s.snapshots
    && volume in s.volumes
    && t.volumes[volume] == VolumeInfo(if s.volumes[volume].size < size then size else s.volumes[volume].size, s.volumes[volume].origin)
  }

  /** The group maps the volume to the host group; when it did not, there is one new mapping. */
  predicate VolumeMapped(s: State, t: State, targetGroup: string, volume: VolPath, hostGroup: string, id: nat) {
    && t == s.(mappings := t.mappings)
    && (exists i :: i in t.mappings && Serves(t.mappings[i], targetGroup, volume, hostGroup))
    && (forall i :: i in s.mappings ==> i in t.mappings && t.mappings[i] == s.mappings[i])
    && (forall i :: i in t.mappings ==> i in s.mappings || i == id)
    && ((exists i :: i in s.mappings && Serves(s.mappings[i], targetGroup, volume, hostGroup)) ==> t == s)
    && (id !in s.mappings && id in t.mappings ==>
          && t.mappings[id].targetGroup == targetGroup && t.mappings[id].volume == volume && t.mappings[id].hostGroup == hostGroup)
  }

  /** A mapping a listing by these names would show; an empty name shows all. */
  predicate Serves(m: Mapping, targetGroup: string, volume: VolPath, hostGroup: string) {
    m.volume == volume && (targetGroup == "" || m.targetGroup == targetGroup) && (hostGroup == "" || m.hostGroup == hostGroup)
  }

  /* ---- every request keeps its promise ---- */

  /** A create is Ok exactly when the volume is there in that size, or is not there and its group is. */
  lemma CreateKeepsPromise(s: State, path: VolPath, size: int)
    ensures var op := CreateVolume(path, size);
      && (Verdict(op, s) == Ok <==>
            if path in s.volumes then size == 0 || s.volumes[path].size == size else path.group in s.groups)
      && (Verdict(op, s) == AlreadyExists <==> path in s.volumes && size != 0 && s.volumes[path].size != size)
      && (Verdict(op, s) == Internal <==> path !in s.volumes && path.group !in s.groups)
      && (Verdict(op, s) == Ok ==> VolumeCreated(s, After(op, s), path, size))
  {
  }

  /** One name, two sizes: the second create is refused, whatever was there before. */
  lemma OneSizePerName(s: State, path: VolPath, size0: int, size1: int)
    requires size0 != 0 && size1 != 0 && size0 != size1
    ensures Verdict(CreateVolume(path, size0), s) == Ok ==>
      Verdict(CreateVolume(path, size1), After(CreateVolume(path, size0), s)) == AlreadyExists
  {
    CreateKeepsPromise(s, path, size0);
    CreateKeepsPromise(After(CreateVolume(path, size0), s), path, size1);
  }

  lemma FromSnapshotKeepsPromise(s: State, key: SnapKey, path: VolPath)
    ensures var op := CreateFromSnapshot(key, path);
      && (Verdict(op, s) == Ok <==> key in s.snapshots && (path in s.volumes || path.group in s.groups))
      && (key !in s.snapshots <==> Verdict(op, s) == NotFound)
      && (Verdict(op, s) == Internal <==> key in s.snapshots && path !in s.volumes && path.group !in s.groups)
      && (Verdict(op, s) == Ok ==> ClonedFrom(s, After(op, s), key, path) && After(op, s).snapshots == s.snapshots)
  {
  }

  lemma SnapshotKeepsPromise(s: State, volume: VolPath, name: string, now: int)
    ensures var op, key := CreateSnapshot(volume, name, now), SnapKey(volume, name);
      && (Verdict(op, s) == Ok ==> SnapshotTaken(s, After(op, s), key, now) && After(op, s) == s.(snapshots := After(op, s).snapshots))
      && (Verdict(op, s) == AlreadyExists <==>
            volume.group in s.groups && exists k :: k in s.snapshots && k.name == name && k.parent.group == volume.group && k.parent != volume)
      && (volume.group !in s.groups <==> Verdict(op, s) == NotFound)
      && (Verdict(op, s) != Ok ==> Verdict(op, s) in {NotFound, AlreadyExists, Internal} && After(op, s) == s)
      && (Verdict(op, s) == Internal ==> volume !in s.volumes && key !in s.snapshots)
      && (volume !in s.volumes && key !in s.snapshots ==> Verdict(op, s) != Ok)
  {
  }

  /** A clone is made from its original's snapshot that carries the clone's name. */
  lemma CloneKeepsPromise(s: State, original: VolPath, path: VolPath, now: int)
    ensures var op, t := CreateClone(original, path, now), After(CreateClone(original, path, now), s);
      && (Verdict(op, s) == Ok ==> ClonedFrom(s, t, CloneKey(original, path), path) && SnapshotTaken(s, t, CloneKey(original, path), now))
      && var snapshot := Verdict(CreateSnapshot(original, CloneKey(original, path).name, now), s);
         Verdict(op, s) == if snapshot != Ok then snapshot else if path in s.volumes || path.group in s.groups then Ok else NotFound
  {
    var key := CloneKey(original, path);
    SnapshotKeepsPromise(s, original, key.name, now);
    var middle := AfterSnapshot(s, original, key.name, now);
    assert Verdict(CreateClone(original, path, now), s) == Ok ==> key in middle.snapshots;
  }

  /** Clones of different names never share a snapshot; so the snapshot of a clone is a new one unless an earlier attempt at
      this very clone, or someone else, left one of that name. */
  lemma {:induction false} CloneKeysDiffer(original0: VolPath, path0: VolPath, original1: VolPath, path1: VolPath)
    ensures CloneKey(original0, path0) == CloneKey(original1, path1) <==> original0 == original1 && path0.name == path1.name
  {
    var start := "k8s-clone-snapshot-";
    assert (start + path0.name)[|start|..] == path0.name && (start + path1.name)[|start|..] == path1.name;
  }

  /** Where there are no snapshots, two clones of different names succeed one after the other, each with its own origin,
      whatever they are clones of. */
  lemma {:induction false} TwoClonesSucceed(s: State, a: VolPath, ca: VolPath, b: VolPath, cb: VolPath, now0: int, now1: int)
    requires s.snapshots == map[] && a in s.volumes && b in s.volumes && ca !in s.volumes && cb !in s.volumes
    requires a.group in s.groups && b.group in s.groups && ca.group in s.groups && cb.group in s.groups
    requires ca.name != cb.name
    ensures var first, second := CreateClone(a, ca, now0), CreateClone(b, cb, now1);
      var t := After(first, s);
      var u := After(second, t);
      && Verdict(first, s) == Ok && Verdict(second, t) == Ok
      && ca in u.volumes && u.volumes[ca].origin == Some(CloneKey(a, ca))
      && cb in u.volumes && u.volumes[cb].origin == Some(CloneKey(b, cb))
      && CloneKey(a, ca) != CloneKey(b, cb)
  {
    var first, second := CreateClone(a, ca, now0), CreateClone(b, cb, now1);
    CloneKeysDiffer(a, ca, b, cb);
    assert forall k :: k !in s.snapshots;
    assert Verdict(first, s) == Ok;
    CloneKeepsPromise(s, a, ca, now0);
    var t := After(first, s);
    assert t.groups == s.groups && b in t.volumes && cb !in t.volumes;
    assert forall k :: k in t.snapshots ==> k == CloneKey(a, ca);
    var start := "k8s-clone-snapshot-";
    assert (start + ca.name)[|start|..] == ca.name && (start + cb.name)[|start|..] == cb.name;
    assert !NameTaken(t, b, CloneKey(b, cb).name);
    assert Verdict(second, t) == Ok;
    CloneKeepsPromise(t, b, cb, now1);
  }

  lemma DeleteSnapshotKeepsPromise(s: State, key: SnapKey)
    ensures var op := DeleteSnapshot(key);
      && (Verdict(op, s) == Ok <==> !(key in s.snapshots && exists w :: w in s.volumes && s.volumes[w].origin == Some(key)))
      && (Verdict(op, s) == Ok ==> SnapshotDeleted(s, After(op, s), key))
      && (Verdict(op, s) != Ok ==> Verdict(op, s) == Internal && After(op, s) == s)
  {
  }

  lemma UnpublishKeepsPromise(s: State, volume: VolPath)
    ensures var t := After(Unpublish(volume), s);
      Verdict(Unpublish(volume), s) == Ok && LunsGone(s, t, volume) && t == s.(mappings := t.mappings)
  {
  }

  lemma {:induction false} DeleteKeepsPromise(s: State, volume: VolPath, p: Promotion)
    requires ValidPromotion(s, volume, p)
    ensures var op := DeleteVolume(volume, p);
      Verdict(op, s) == Ok && VolumeDeleted(s, After(op, s), volume, p)
  {
    var bare := WithoutLuns(s, volume);
    var t := After(DeleteVolume(volume, p), s);
    SameClones(s, bare, volume);
    if volume in s.volumes {
      SnapshotsAfterRemoval(bare, volume, p);
      ClonesAfterRemoval(bare, volume, p);
    }
    assert LunsGone(s, t, volume);
  }

  lemma SameClones(s: State, t: State, volume: VolPath)
    requires t.volumes == s.volumes
    ensures forall w :: IsCloneOf(t, w, volume) == IsCloneOf(s, w, volume)
    ensures IsCloned(t, volume) == IsCloned(s, volume)
    ensures forall p :: ValidPromotion(s, volume, p) ==> ValidPromotion(t, volume, p)
  {
    assert forall w :: IsCloneOf(t, w, volume) == IsCloneOf(s, w, volume);
    if w :| w in s.volumes && IsCloneOf(s, w, volume) {
      assert IsCloneOf(t, w, volume);
    }
  }

  lemma SnapshotsAfterRemoval(s: State, volume: VolPath, p: Promotion)
    requires volume in s.volumes && ValidPromotion(s, volume, p)
    ensures SnapshotsHandedOver(s, RemoveVolume(s, volume, p).1, volume, p)
  {
  }

  lemma {:induction false} ClonesAfterRemoval(s: State, volume: VolPath, p: Promotion)
    requires volume in s.volumes && ValidPromotion(s, volume, p)
    ensures ClonesHandedOver(s, RemoveVolume(s, volume, p).1, volume, p)
  {
    var t := RemoveVolume(s, volume, p).1;
    forall w | w in s.volumes && w != volume && IsCloneOf(s, w, volume)
      ensures IsCloned(s, volume) && s.volumes[w].origin.value.name in p.moved
    {
      assert IsCloned(s, volume);
    }
  }

  lemma ExpandKeepsPromise(s: State, volume: VolPath, size: int)
    ensures var op := Expand(volume, size);
      && Verdict(op, s) == (if volume in s.volumes then Ok else Unknown)
      && (Verdict(op, s) == Ok ==> VolumeExpanded(s, After(op, s), volume, size))
  {
  }

  lemma StageKeepsPromise(s: State, targetGroup: string, volume: VolPath, hostGroup: string, id: nat, lun: nat)
    requires id !in s.mappings
    ensures var op := Stage(targetGroup, volume, hostGroup, id, lun);
      && (Verdict(op, s) == Ok <==> volume in s.volumes || exists i :: i in s.mappings && Serves(s.mappings[i], targetGroup, volume, hostGroup))
      && (Verdict(op, s) != Ok ==> Verdict(op, s) == Unknown && After(op, s) == s)
      && (Verdict(op, s) == Ok ==> VolumeMapped(s, After(op, s), targetGroup, volume, hostGroup, id))
  {
    var op := Stage(targetGroup, volume, hostGroup, id, lun);
    var t := After(op, s);
    assert forall i :: i in LunIds(s, StageFilter(op)) <==> i in s.mappings && Serves(s.mappings[i], targetGroup, volume, hostGroup);
    if LunIds(s, StageFilter(op)) == {} {
      assert volume in s.volumes ==> id in t.mappings && Serves(t.mappings[id], targetGroup, volume, hostGroup);
    } else {
      var i :| i in LunIds(s, StageFilter(op));
      assert Serves(t.mappings[i], targetGroup, volume, hostGroup);
    }
  }
}
