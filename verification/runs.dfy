/** What holds over every sequential run of calls, each complete or cut short after any backend call. */
module Runs {
  import opened Wrappers
  import opened Identifiers
  import opened Appliance
  import opened Lifecycle

  /** trace[i] is the state before ops[i]; calls follow one another. */
  predicate IsRun(ops: seq<Op>, trace: seq<State>) {
    && |trace| == |ops| + 1
    && forall i :: 0 <= i < |ops| ==> Step(ops[i], trace[i], trace[i + 1])
  }

  /* ---- snapshot names ---- */

  /** In one volume group, snapshots of the same name have the same parent. */
  predicate UniqueNames(s: State) {
    forall k0, k1 :: (k0 in s.snapshots && k1 in s.snapshots && k0.name == k1.name &&
      k0.parent.group == k1.parent.group) ==> k0.parent == k1.parent
  }

  predicate CloneInGroup(s: State, w: VolPath)
    requires w in s.volumes
  {
    s.volumes[w].origin.Some? ==> s.volumes[w].origin.value.parent.group == w.group
  }

  /** Every clone is in its source's group. */
  predicate ClonesInGroup(s: State) {
    forall w :: w in s.volumes ==> CloneInGroup(s, w)
  }

  predicate ParentsExist(s: State) {
    forall k :: k in s.snapshots ==> k.parent in s.volumes
  }

  predicate GoodSnapshots(s: State) {
    UniqueNames(s) && ClonesInGroup(s) && ParentsExist(s)
  }

  /** The request keeps a clone in its source's group. */
  predicate KeepsGroup(op: Op) {
    match op
    case CreateFromSnapshot(source, path) => source.parent.group == path.group
    case CreateClone(original, path, _) => original.group == path.group
    case _ => true
  }

  lemma SnapshotKeepsGood(s: State, volume: VolPath, name: string, now: int)
    requires GoodSnapshots(s)
    ensures GoodSnapshots(AfterSnapshot(s, volume, name, now))
  {
    var t := AfterSnapshot(s, volume, name, now);
    forall w | w in t.volumes ensures CloneInGroup(t, w) {
      assert CloneInGroup(s, w);
    }
  }

  lemma CloneKeepsGood(s: State, key: SnapKey, path: VolPath)
    requires GoodSnapshots(s) && key.parent.group == path.group
    ensures GoodSnapshots(CloneSnapshot(s, key, path).1)
  {
    var t := CloneSnapshot(s, key, path).1;
    forall w | w in t.volumes ensures CloneInGroup(t, w) {
      assert w in s.volumes ==> CloneInGroup(s, w);
    }
  }

  /** The snapshots after a volume is destroyed: the others', and those its clone took over. */
  lemma SnapshotsAfterRemoval(s: State, volume: VolPath, p: Promotion, k: SnapKey)
    requires volume in s.volumes && k in RemoveVolume(s, volume, p).1.snapshots
    ensures (k in s.snapshots && k.parent != volume) ||
            (IsCloned(s, volume) && k.parent == p.clone && SnapKey(volume, k.name) in s.snapshots)
  {
  }

  lemma RemoveVolumeKeepsGroups(s: State, volume: VolPath, p: Promotion)
    requires ClonesInGroup(s) && ValidPromotion(s, volume, p) && volume in s.volumes
    ensures ClonesInGroup(RemoveVolume(s, volume, p).1)
    ensures IsCloned(s, volume) ==> p.clone.group == volume.group
  {
    var t := RemoveVolume(s, volume, p).1;
    if IsCloned(s, volume) {
      assert CloneInGroup(s, p.clone);
    }
    assert CloneInGroup(s, volume);
    forall w | w in t.volumes ensures CloneInGroup(t, w) {
      assert CloneInGroup(s, w);
      assert IsCloneOf(s, w, volume) ==> IsCloned(s, volume);
    }
  }

  /** No snapshot the clone takes over meets another of its name in the clone's group. */
  predicate MovesFreely(s: State, volume: VolPath, p: Promotion) {
    forall n :: n in p.moved && SnapKey(volume, n) in s.snapshots ==> NameFree(s, volume, p.clone, n)
  }

  /** No third volume of the clone's group has a snapshot of that name. */
  predicate NameFree(s: State, volume: VolPath, clone: VolPath, name: string) {
    !exists k :: k in s.snapshots && k.name == name && k.parent.group == clone.group && k.parent != volume && k.parent != clone
  }

  /** Destroying a volume with promotion keeps names unique exactly when the snapshots move freely. */
  lemma {:induction false} RemovalKeepsNames(s: State, volume: VolPath, p: Promotion)
    requires UniqueNames(s) && ValidPromotion(s, volume, p) && volume in s.volumes
    ensures UniqueNames(RemoveVolume(s, volume, p).1) <==> (IsCloned(s, volume) ==> MovesFreely(s, volume, p))
  {
    var t := RemoveVolume(s, volume, p).1;
    forall k | k in t.snapshots
      ensures (k in s.snapshots && k.parent != volume) ||
              (IsCloned(s, volume) && k.parent == p.clone && k.name in p.moved && SnapKey(volume, k.name) in s.snapshots)
    {
    }
    if IsCloned(s, volume) {
      forall k | k in s.snapshots && k.parent != volume ensures k in t.snapshots {
      }
      forall n | n in p.moved && SnapKey(volume, n) in s.snapshots ensures SnapKey(p.clone, n) in t.snapshots {
      }
    }
  }

  /** Whatever clone the appliance may promote, and whatever it moves, names stay unique. */
  predicate SafeToDelete(s: State, volume: VolPath) {
    forall w, k :: w in s.volumes && Promotable(s, volume, w) && k in s.snapshots && k.parent == volume ==> NameFree(s, volume, w, k.name)
  }

  predicate Promotable(s: State, volume: VolPath, w: VolPath) {
    w != volume && IsCloneOf(s, w, volume)
  }

  /** A promotion of the clone that moves the snapshot, with all those it has to. */
  lemma {:induction false} SomePromotion(s: State, volume: VolPath, w: VolPath, name: string) returns (p: Promotion)
    requires Promotable(s, volume, w)
    ensures ValidPromotion(s, volume, p) && p.clone == w && name in p.moved
  {
    var names := set u | u in s.volumes && IsCloneOf(s, u, volume) :: s.volumes[u].origin.value.name;
    p := Promotion(w, {name} + names);
    forall u | u in s.volumes && IsCloneOf(s, u, volume) ensures s.volumes[u].origin.value.name in p.moved {
      assert s.volumes[u].origin.value.name in names;
    }
  }

  lemma SafeMovesFreely(s: State, volume: VolPath, p: Promotion)
    requires SafeToDelete(s, volume) && ValidPromotion(s, volume, p) && IsCloned(s, volume)
    ensures MovesFreely(s, volume, p)
  {
    assert Promotable(s, volume, p.clone);
    forall n | n in p.moved && SnapKey(volume, n) in s.snapshots ensures NameFree(s, volume, p.clone, n) {
      var k := SnapKey(volume, n);
      assert k.parent == volume && k.name == n;
    }
  }

  /** What a caller can know before a delete, which does not choose the promotion. */
  lemma {:induction false} DeleteIsSafeExactly(s: State, volume: VolPath)
    requires UniqueNames(s) && volume in s.volumes
    ensures (forall p :: ValidPromotion(s, volume, p) ==> UniqueNames(RemoveVolume(s, volume, p).1))
            <==> SafeToDelete(s, volume)
  {
    if SafeToDelete(s, volume) {
      forall p | ValidPromotion(s, volume, p) ensures UniqueNames(RemoveVolume(s, volume, p).1) {
        RemovalKeepsNames(s, volume, p);
        if IsCloned(s, volume) {
          SafeMovesFreely(s, volume, p);
        }
      }
    } else {
      var w, k :| Promotable(s, volume, w) && k in s.snapshots && k.parent == volume && !NameFree(s, volume, w, k.name);
      var p := SomePromotion(s, volume, w, k.name);
      RemovalKeepsNames(s, volume, p);
      assert k == SnapKey(volume, k.name);
      assert !MovesFreely(s, volume, p);
    }
  }

  /** With every clone in its source's group every delete is safe. */
  lemma ClonesInGroupAreSafe(s: State, volume: VolPath)
    requires UniqueNames(s) && ClonesInGroup(s)
    ensures SafeToDelete(s, volume)
  {
    assert forall w :: w in s.volumes ==> CloneInGroup(s, w);
  }

  /** Promotion renames a volume's snapshots to its clone's; no two of the group's snapshots collide by it. */
  lemma RemoveVolumeKeepsGood(s: State, volume: VolPath, p: Promotion)
    requires GoodSnapshots(s) && ValidPromotion(s, volume, p)
    ensures GoodSnapshots(RemoveVolume(s, volume, p).1)
  {
    if volume in s.volumes {
      var t := RemoveVolume(s, volume, p).1;
      RemoveVolumeKeepsGroups(s, volume, p);
      ClonesInGroupAreSafe(s, volume);
      DeleteIsSafeExactly(s, volume);
      forall k | k in t.snapshots
        ensures k.parent in t.volumes
        ensures (k in s.snapshots && k.parent != volume) ||
                (IsCloned(s, volume) && k.parent == p.clone && SnapKey(volume, k.name) in s.snapshots)
      {
        SnapshotsAfterRemoval(s, volume, p, k);
      }
    }
  }

  lemma StepKeepsGood(op: Op, s: State, t: State)
    requires GoodSnapshots(s) && Step(op, s, t) && KeepsGroup(op)
    ensures GoodSnapshots(t)
  {
    if t == s {
    } else if Midway(op, s, t) && !op.CreateClone? {
      SameVolumesAndSnapshots(s, t);
    } else {
      match op {
        case CreateFromSnapshot(source, path) => CloneKeepsGood(s, source, path);
        case CreateClone(original, path, now) =>
          var name := CloneSnapshotName(path);
          SnapshotKeepsGood(s, original, name, now);
          CloneKeepsGood(AfterSnapshot(s, original, name, now), SnapKey(original, name), path);
        case CreateSnapshot(volume, name, now) => SnapshotKeepsGood(s, volume, name, now);
        case DeleteVolume(volume, p) =>
          SameVolumesAndSnapshots(s, WithoutLuns(s, volume));
          RemoveVolumeKeepsGood(WithoutLuns(s, volume), volume, p);
        case _ =>
          forall w | w in t.volumes ensures CloneInGroup(t, w) {
            assert w in s.volumes ==> CloneInGroup(s, w);
          }
      }
    }
  }

  lemma SameVolumesAndSnapshots(s: State, t: State)
    requires t.volumes == s.volumes && t.snapshots == s.snapshots
    ensures GoodSnapshots(s) ==> GoodSnapshots(t)
    ensures forall volume, p :: ValidPromotion(s, volume, p) ==> ValidPromotion(t, volume, p)
  {
    if ClonesInGroup(s) {
      forall w | w in t.volumes ensures CloneInGroup(t, w) {
        assert CloneInGroup(s, w);
      }
    }
    forall volume, p | ValidPromotion(s, volume, p) ensures ValidPromotion(t, volume, p) {
      assert forall w :: IsCloneOf(t, w, volume) == IsCloneOf(s, w, volume);
      if IsCloned(t, volume) {
        var w :| w in t.volumes && IsCloneOf(t, w, volume);
        assert IsCloneOf(s, w, volume);
      }
    }
  }

  /** Over any run that keeps clones in their source's group, snapshot names stay unique in each group,
      deletes with promotion included. */
  lemma {:induction false} NamesStayUnique(ops: seq<Op>, trace: seq<State>)
    requires IsRun(ops, trace) && GoodSnapshots(trace[0])
    requires forall i :: 0 <= i < |ops| ==> KeepsGroup(ops[i])
    ensures forall i :: 0 <= i < |trace| ==> GoodSnapshots(trace[i])
  {
    if ops != [] {
      StepKeepsGood(ops[0], trace[0], trace[1]);
      NamesStayUnique(ops[1..], trace[1..]);
      forall i | 0 <= i < |trace| ensures GoodSnapshots(trace[i]) {
        assert i > 0 ==> trace[i] == trace[1..][i - 1];
      }
    }
  }

  /** The call is a complete delete that moves a snapshot onto another of its name. */
  predicate Clashes(op: Op, s: State, t: State) {
    && op.DeleteVolume? && t == After(op, s) && op.volume in s.volumes
    && IsCloned(s, op.volume) && !MovesFreely(s, op.volume, op.promotion)
  }

  lemma {:induction false} StepKeepsNames(op: Op, s: State, t: State)
    requires UniqueNames(s) && Step(op, s, t)
    ensures UniqueNames(t) <==> !Clashes(op, s, t)
  {
    if op.DeleteVolume? && t == After(op, s) {
      var bare := WithoutLuns(s, op.volume);
      SameVolumesAndSnapshots(s, bare);
      assert forall w :: IsCloneOf(bare, w, op.volume) == IsCloneOf(s, w, op.volume);
      assert IsCloned(bare, op.volume) == IsCloned(s, op.volume) by {
        if IsCloned(s, op.volume) {
          var w :| w in s.volumes && IsCloneOf(s, w, op.volume);
          assert IsCloneOf(bare, w, op.volume);
        }
      }
      if op.volume in s.volumes {
        RemovalKeepsNames(bare, op.volume, op.promotion);
        assert MovesFreely(bare, op.volume, op.promotion) == MovesFreely(s, op.volume, op.promotion);
      }
    }
  }

  /** Over any run at all, clones anywhere, names stay unique exactly when no delete clashes. */
  lemma {:induction false} NamesStayUniqueExactly(ops: seq<Op>, trace: seq<State>)
    requires IsRun(ops, trace) && UniqueNames(trace[0])
    ensures (forall i :: 0 <= i < |trace| ==> UniqueNames(trace[i]))
            <==> forall i :: 0 <= i < |ops| ==> !Clashes(ops[i], trace[i], trace[i + 1])
  {
    if ops != [] {
      StepKeepsNames(ops[0], trace[0], trace[1]);
      if UniqueNames(trace[1]) {
        NamesStayUniqueExactly(ops[1..], trace[1..]);
        if forall i :: 0 <= i < |ops| ==> !Clashes(ops[i], trace[i], trace[i + 1]) {
          forall i | 0 <= i < |trace| ensures UniqueNames(trace[i]) {
            assert i > 0 ==> trace[i] == trace[1..][i - 1];
          }
        }
        if forall i :: 0 <= i < |trace| ==> UniqueNames(trace[i]) {
          forall i | 0 <= i < |ops| ensures !Clashes(ops[i], trace[i], trace[i + 1]) {
            StepKeepsNames(ops[i], trace[i], trace[i + 1]);
          }
        }
      }
    }
  }

  /** Two snapshots of the same name in different groups. */
  lemma SnapshotsInTwoGroups(s: State, v: VolPath, u: VolPath, name: string, now: int)
    requires v in s.volumes && u in s.volumes && v.group != u.group
    requires v.group in s.groups && u.group in s.groups && s.snapshots == map[]
    ensures var first, second := CreateSnapshot(v, name, now), CreateSnapshot(u, name, now);
      var t := After(first, s);
      && Verdict(first, s) == Ok && Verdict(second, t) == Ok
      && After(second, t) == s.(snapshots := After(second, t).snapshots)
      && After(second, t).snapshots.Keys == {SnapKey(v, name), SnapKey(u, name)}
  {
    assert !NameTaken(s, v, name);
    var t := AfterSnapshot(s, v, name, now);
    assert t.snapshots.Keys == {SnapKey(v, name)};
    assert !NameTaken(t, u, name);
  }

  /** Without that, names collide: v is cloned into another group where u has a snapshot of the same name, and
      v's deletion hands its snapshot to the clone. Every call answers Ok. */
  lemma ForeignCloneBreaksNames(s: State, v: VolPath, u: VolPath, c: VolPath, name: string, now: int)
    requires v in s.volumes && u in s.volumes && c !in s.volumes && v.group != u.group && c.group == u.group
    requires v.group in s.groups && u.group in s.groups && s.snapshots == map[]
    requires forall w :: w in s.volumes ==> s.volumes[w].origin == None
    ensures var s1 := After(CreateSnapshot(v, name, now), s);
      var s2 := After(CreateSnapshot(u, name, now), s1);
      var clone := CreateFromSnapshot(SnapKey(v, name), c);
      var s3 := After(clone, s2);
      var delete := DeleteVolume(v, Promotion(c, {name}));
      && Verdict(clone, s2) == Ok && Enabled(delete, s3) && Verdict(delete, s3) == Ok
      && !UniqueNames(After(delete, s3))
  {
    SnapshotsInTwoGroups(s, v, u, name, now);
    var s2 := After(CreateSnapshot(u, name, now), After(CreateSnapshot(v, name, now), s));
    var s3 := After(CreateFromSnapshot(SnapKey(v, name), c), s2);
    assert s3.volumes == s.volumes[c := s3.volumes[c]] && s3.volumes[c].origin == Some(SnapKey(v, name));
    assert IsCloneOf(s3, c, v) && forall w :: IsCloneOf(s3, w, v) ==> w == c;
    var s4 := After(DeleteVolume(v, Promotion(c, {name})), s3);
    assert IsCloned(WithoutLuns(s3, v), v) by {
      assert IsCloneOf(WithoutLuns(s3, v), c, v);
    }
    assert SnapKey(v, name) in s3.snapshots;
    assert SnapKey(c, name) in s4.snapshots && SnapKey(u, name) in s4.snapshots;
  }

  /* ---- LUN mappings ---- */

  /** One mapping for a target group, volume and host group, and none without its volume. */
  predicate GoodMappings(s: State) {
    && (forall i, j :: i in s.mappings && j in s.mappings && SameTriple(s.mappings[i], s.mappings[j]) ==> i == j)
    && (forall i :: i in s.mappings ==> s.mappings[i].volume in s.volumes)
  }

  predicate SameTriple(m: Mapping, n: Mapping) {
    m.targetGroup == n.targetGroup && m.volume == n.volume && m.hostGroup == n.hostGroup
  }

  lemma FewerKeepsMappings(s: State, t: State)
    requires GoodMappings(s)
    requires forall i :: i in t.mappings ==>
      i in s.mappings && t.mappings[i] == s.mappings[i] && (s.mappings[i].volume in s.volumes ==> s.mappings[i].volume in t.volumes)
    ensures GoodMappings(t)
  {
  }

  lemma StageKeepsMappings(op: Op, s: State)
    requires op.Stage? && GoodMappings(s) && Enabled(op, s)
    ensures GoodMappings(After(op, s))
  {
    if LunIds(s, StageFilter(op)) == {} && op.volume in s.volumes {
      forall i | i in s.mappings
        ensures !SameTriple(s.mappings[i], Mapping(op.targetGroup, op.volume, op.hostGroup, op.lun))
      {
        assert i !in LunIds(s, StageFilter(op));
      }
    }
  }

  lemma StepKeepsMappings(op: Op, s: State, t: State)
    requires GoodMappings(s) && Step(op, s, t)
    ensures GoodMappings(t)
  {
    if op.Stage? {
      StageKeepsMappings(op, s);
    } else {
      FewerKeepsMappings(s, t);
    }
  }

  /** Over any run of all the calls, stagings and half-done deletes included. */
  lemma {:induction false} MappingsStayGood(ops: seq<Op>, trace: seq<State>)
    requires IsRun(ops, trace) && GoodMappings(trace[0])
    ensures forall i :: 0 <= i < |trace| ==> GoodMappings(trace[i])
  {
    if ops != [] {
      StepKeepsMappings(ops[0], trace[0], trace[1]);
      MappingsStayGood(ops[1..], trace[1..]);
      forall i | 0 <= i < |trace| ensures GoodMappings(trace[i]) {
        assert i > 0 ==> trace[i] == trace[1..][i - 1];
      }
    }
  }

  /* ---- sizes ---- */

  predicate Throughout(trace: seq<State>, path: VolPath) {
    forall i :: 0 <= i < |trace| ==> path in trace[i].volumes
  }

  predicate Expanded(op: Op, s: State, t: State, path: VolPath) {
    op.Expand? && op.volume == path && t == After(op, s)
  }

  lemma StepKeepsSize(op: Op, s: State, t: State, path: VolPath)
    requires Step(op, s, t) && path in s.volumes && path in t.volumes
    ensures s.volumes[path].size <= t.volumes[path].size
  {
  }

  /** A volume never shrinks while it exists; and once an expand has been answered Ok, it keeps at least that size. */
  lemma {:induction false} SizeNeverDecreases(ops: seq<Op>, trace: seq<State>, path: VolPath)
    requires IsRun(ops, trace) && Throughout(trace, path)
    ensures trace[0].volumes[path].size <= trace[|ops|].volumes[path].size
    ensures forall i :: 0 <= i < |ops| && Expanded(ops[i], trace[i], trace[i + 1], path)
              ==> ops[i].size <= trace[|ops|].volumes[path].size
  {
    if ops != [] {
      StepKeepsSize(ops[0], trace[0], trace[1], path);
      SizeNeverDecreases(ops[1..], trace[1..], path);
      var last := trace[|ops|];
      assert last == trace[1..][|ops[1..]|];
      forall i | 0 <= i < |ops| && Expanded(ops[i], trace[i], trace[i + 1], path)
        ensures ops[i].size <= last.volumes[path].size
      {
        if i > 0 {
          assert ops[i] == ops[1..][i - 1] && trace[i] == trace[1..][i - 1] && trace[i + 1] == trace[1..][i];
        }
      }
    }
  }
}
