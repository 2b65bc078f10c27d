/** Volume and snapshot identifiers, "config:pool/group/volume" and "config:pool/group/volume@snapshot",
    as CreateVolume and CreateSnapshot build them and as the other calls take them apart. */
module Identifiers {
  import opened Text

  /** A volume path split before its last component: "pool/group" and the volume's own name. */
  datatype VolPath = VolPath(group: string, name: string)

  datatype ParsedVolume = BadId | BadPath | Volume(config: string, path: VolPath)

  datatype ParsedSnapshot =
    | NotSnapshot
    | BadVolume
    | Snapshot(config: string, path: VolPath, name: string)
    | OutOfRange   // an index panic

  datatype ConfigAndRest = Malformed | Pair(config: string, rest: string)

  function VolumePath(pool: string, group: string, volume: string): string {
    pool + "/" + (group + "/" + volume)
  }

  function VolumeId(config: string, path: string): string {
    config + ":" + path
  }

  function SnapshotId(config: string, path: string, snapshot: string): string {
    config + ":" + (path + "@" + snapshot)
  }

  /** DeleteVolume, ControllerExpandVolume, ControllerUnpublishVolume, CreateSnapshot: one ":" and two "/". */
  function ParseVolumeId(id: string): ParsedVolume {
    var parts := Split(id, ':');
    if |parts| != 2 then BadId
    else
      var path := Split(parts[1], '/');
      if |path| != 3 then BadPath
      else Volume(parts[0], VolPath(path[0] + "/" + path[1], path[2]))
  }

  /** DeleteSnapshot: one "@" first, then the volume part as above. */
  function ParseSnapshotId(id: string): ParsedSnapshot {
    var parts := Split(id, '@');
    if |parts| != 2 then NotSnapshot
    else
      match ParseVolumeId(parts[0])
      case Volume(config, path) => Snapshot(config, path, parts[1])
      case _ => BadVolume
  }

  /** ListSnapshots for one snapshot: as DeleteSnapshot, but the number of parts around ":" is not looked at. */
  function ParseListedSnapshot(id: string): ParsedSnapshot {
    var parts := Split(id, '@');
    if |parts| != 2 then NotSnapshot
    else
      var volume := Split(parts[0], ':');
      if |volume| < 2 then OutOfRange
      else
        var path := Split(volume[1], '/');
        if |path| != 3 then BadVolume
        else Snapshot(volume[0], VolPath(path[0] + "/" + path[1], path[2]), parts[1])
  }

  /** NodeStageVolume, NodeExpandVolume, and CreateVolume for its content source: one ":", the rest untouched. */
  function SplitConfig(id: string): ConfigAndRest {
    var parts := Split(id, ':');
    if |parts| != 2 then Malformed else Pair(parts[0], parts[1])
  }

  /** No path component holds the separator. */
  predicate Free(sep: char, pool: string, group: string, volume: string) {
    sep !in pool && sep !in group && sep !in volume
  }

  lemma InConcat(a: string, b: string, sep: char, c: char)
    ensures c in a + [sep] + b <==> c in a || c == sep || c in b
  {
    var s := a + [sep] + b;
    forall i | 0 <= i < |b| ensures b[i] in s {
      assert s[|a| + 1 + i] == b[i];
    }
    forall i | 0 <= i < |a| ensures a[i] in s {
      assert s[i] == a[i];
    }
    assert s[|a|] == sep;
  }

  lemma InPath(pool: string, group: string, volume: string, c: char)
    requires c != '/'
    ensures c !in VolumePath(pool, group, volume) <==> Free(c, pool, group, volume)
  {
    InConcat(pool, group + "/" + volume, '/', c);
    InConcat(group, volume, '/', c);
  }

  lemma SplitTwo(a: string, b: string, sep: char)
    ensures var parts := Split(a + [sep] + b, sep);
      && (|parts| == 2 <==> sep !in a && sep !in b)
      && (|parts| == 2 ==> parts == [a, b])
  {
    SplitConcat(a, b, sep);
    SplitOnce(a, sep);
    SplitOnce(b, sep);
  }

  lemma SplitPath(pool: string, group: string, volume: string)
    ensures var parts := Split(VolumePath(pool, group, volume), '/');
      && (|parts| == 3 <==> Free('/', pool, group, volume))
      && (|parts| == 3 ==> parts == [pool, group, volume])
  {
    var tail := group + "/" + volume;
    SplitConcat(pool, tail, '/');
    SplitTwo(group, volume, '/');
    SplitOnce(pool, '/');
    SplitConcat(group, volume, '/');
    SplitOnce(group, '/');
    SplitOnce(volume, '/');
  }

  /** A volume id comes back as the same config name, group and volume exactly when ":" is in no
      component and "/" in no path component; otherwise it is rejected, never misread. */
  lemma VolumeIdRoundTrip(config: string, pool: string, group: string, volume: string)
    ensures var parsed := ParseVolumeId(VolumeId(config, VolumePath(pool, group, volume)));
      && (parsed.Volume? <==>
            ':' !in config && Free(':', pool, group, volume) && Free('/', pool, group, volume))
      && (parsed.Volume? ==> parsed == Volume(config, VolPath(pool + "/" + group, volume)))
  {
    var path := VolumePath(pool, group, volume);
    SplitTwo(config, path, ':');
    InPath(pool, group, volume, ':');
    SplitPath(pool, group, volume);
  }

  /** The same for DeleteSnapshot: "@" must be in no component; the snapshot's own name is otherwise free. */
  lemma SnapshotIdRoundTrip(config: string, pool: string, group: string, volume: string, snapshot: string)
    ensures var parsed := ParseSnapshotId(SnapshotId(config, VolumePath(pool, group, volume), snapshot));
      && (parsed.Snapshot? <==>
            && '@' !in config && Free('@', pool, group, volume) && '@' !in snapshot
            && ':' !in config && Free(':', pool, group, volume) && Free('/', pool, group, volume))
      && (parsed.Snapshot? ==> parsed == Snapshot(config, VolPath(pool + "/" + group, volume), snapshot))
  {
    var path := VolumePath(pool, group, volume);
    var id := VolumeId(config, path);
    assert SnapshotId(config, path, snapshot) == id + "@" + snapshot;
    SplitTwo(id, snapshot, '@');
    InConcat(config, path, ':', '@');
    InPath(pool, group, volume, '@');
    VolumeIdRoundTrip(config, pool, group, volume);
  }

  /** ListSnapshots reads an id as DeleteSnapshot does exactly when it has no volume part, or one with a single ":", or
      one with more of which the second piece is no path of three. On the others it panics, or lists a snapshot
      under an id that DeleteSnapshot rejects. */
  lemma ListedSnapshotAgrees(id: string)
    ensures var parts := Split(id, '@');
      var volume := Split(parts[0], ':');
      ParseListedSnapshot(id) == ParseSnapshotId(id) <==>
        |parts| != 2 || |volume| == 2 || (|volume| > 2 && |Split(volume[1], '/')| != 3)
    ensures ParseSnapshotId(id).Snapshot? ==> ParseListedSnapshot(id) == ParseSnapshotId(id)
  {
  }

  /** The two ways in which they differ, for all ids of the kind: no ":" at all, and one ":" too many. */
  lemma ListedSnapshotMisread(config: string, pool: string, group: string, volume: string, more: string, snapshot: string)
    requires '@' !in config && Free('@', pool, group, volume) && '@' !in more && '@' !in snapshot
    requires ':' !in config && Free(':', pool, group, volume) && Free('/', pool, group, volume)
    ensures ParseListedSnapshot(config + "@" + snapshot) == OutOfRange
    ensures ParseSnapshotId(config + "@" + snapshot) == BadVolume
    ensures var id := (VolumeId(config, VolumePath(pool, group, volume)) + ":" + more) + "@" + snapshot;
      && ParseListedSnapshot(id) == Snapshot(config, VolPath(pool + "/" + group, volume), snapshot)
      && ParseSnapshotId(id) == BadVolume
  {
    var path := VolumePath(pool, group, volume);
    SplitTwo(config, snapshot, '@');
    SplitWithoutSeparator(config, ':');
    InPath(pool, group, volume, '@');
    InPath(pool, group, volume, ':');
    SplitPath(pool, group, volume);
    var extended := VolumeId(config, path) + ":" + more;
    InConcat(config, path, ':', '@');
    InConcat(VolumeId(config, path), more, ':', '@');
    SplitTwo(extended, snapshot, '@');
    SplitTwo(config, path, ':');
    SplitConcat(VolumeId(config, path), more, ':');
  }

  /** ListSnapshots gets back the components of a snapshot id exactly when DeleteSnapshot does; but where
      DeleteSnapshot rejects, it may take the id for another snapshot's. */
  lemma ListedSnapshotRoundTrip(config: string, pool: string, group: string, volume: string, snapshot: string)
    ensures var id := SnapshotId(config, VolumePath(pool, group, volume), snapshot);
      var whole := Snapshot(config, VolPath(pool + "/" + group, volume), snapshot);
      ParseListedSnapshot(id) == whole <==> ParseSnapshotId(id) == whole
  {
    var path := VolumePath(pool, group, volume);
    var id := SnapshotId(config, path, snapshot);
    assert id == VolumeId(config, path) + "@" + snapshot;
    SplitTwo(VolumeId(config, path), snapshot, '@');
    ListedSnapshotAgrees(id);
    if ParseListedSnapshot(id) == Snapshot(config, VolPath(pool + "/" + group, volume), snapshot) {
      var read := Split(VolumeId(config, path), ':');
      PathFree(read[1], pool, group, volume, ':');
      SplitTwo(config, path, ':');
    }
  }

  /** A string without the separator yields components without it. */
  lemma PathFree(s: string, pool: string, group: string, volume: string, c: char)
    requires c !in s && c != '/'
    requires var pieces := Split(s, '/');
      |pieces| == 3 && pieces[0] + "/" + pieces[1] == pool + "/" + group && pieces[2] == volume
    ensures c !in VolumePath(pool, group, volume)
  {
    var pieces := Split(s, '/');
    JoinTwo(pieces[1..], '/');
    assert s == pieces[0] + "/" + (pieces[1] + "/" + pieces[2]);
    assert (pieces[0] + "/" + pieces[1]) + "/" + pieces[2] == s;
    assert (pool + "/" + group) + "/" + volume == VolumePath(pool, group, volume);
  }

  /** CreateVolume reads a snapshot id differently: only ":" matters, but in the snapshot's name too. */
  lemma SnapshotSourceRoundTrip(config: string, pool: string, group: string, volume: string, snapshot: string)
    ensures var path := VolumePath(pool, group, volume);
      var parsed := SplitConfig(SnapshotId(config, path, snapshot));
      && (parsed.Pair? <==> ':' !in config && Free(':', pool, group, volume) && ':' !in snapshot)
      && (parsed.Pair? ==> parsed == Pair(config, path + "@" + snapshot))
  {
    var path := VolumePath(pool, group, volume);
    SplitTwo(config, path + "@" + snapshot, ':');
    InConcat(path, snapshot, '@', ':');
    InPath(pool, group, volume, ':');
  }

  /** Whatever ids the parsers accept, different ids name different volumes and different snapshots. */
  lemma ParsersInjective(id0: string, id1: string)
    ensures ParseVolumeId(id0).Volume? && ParseVolumeId(id0) == ParseVolumeId(id1) ==> id0 == id1
    ensures ParseSnapshotId(id0).Snapshot? && ParseSnapshotId(id0) == ParseSnapshotId(id1) ==> id0 == id1
  {
    VolumeIdRebuilt(id0);
    VolumeIdRebuilt(id1);
    if ParseSnapshotId(id0).Snapshot? && ParseSnapshotId(id0) == ParseSnapshotId(id1) {
      var volume0, volume1 := Split(id0, '@')[0], Split(id1, '@')[0];
      VolumeIdRebuilt(volume0);
      VolumeIdRebuilt(volume1);
      JoinTwo(Split(id0, '@'), '@');
      JoinTwo(Split(id1, '@'), '@');
    }
  }

  lemma JoinTwo(parts: seq<string>, sep: char)
    requires |parts| == 2
    ensures Join(parts, sep) == parts[0] + [sep] + parts[1]
  {
    assert Join(parts[1..], sep) == parts[1];
  }

  /** An accepted volume id is rebuilt from what it was split into. */
  lemma VolumeIdRebuilt(id: string)
    ensures var parsed := ParseVolumeId(id);
      parsed.Volume? ==> id == VolumeId(parsed.config, parsed.path.group + "/" + parsed.path.name)
  {
    var parts := Split(id, ':');
    if |parts| == 2 && |Split(parts[1], '/')| == 3 {
      JoinTwo(parts, ':');
      var path := Split(parts[1], '/');
      JoinTwo(path[1..], '/');
      assert Join(path, '/') == path[0] + "/" + (path[1] + "/" + path[2]);
      assert path[0] + "/" + (path[1] + "/" + path[2]) == (path[0] + "/" + path[1]) + "/" + path[2];
    }
  }

  /** The separator is in the string once. */
  ghost predicate HasOne(s: string, sep: char) {
    exists a, b :: sep !in a && sep !in b && s == a + [sep] + b
  }

  lemma OneSeparator(s: string, sep: char)
    ensures |Split(s, sep)| == 2 <==> HasOne(s, sep)
  {
    var parts := Split(s, sep);
    if |parts| == 2 {
      JoinTwo(parts, sep);
      assert sep !in parts[0] && sep !in parts[1] && s == parts[0] + [sep] + parts[1];
    } else if a, b :| sep !in a && sep !in b && s == a + [sep] + b {
      SplitTwo(a, b, sep);
    }
  }

  /** Some separator-free components make up the id. */
  ghost predicate IsVolumeId(id: string) {
    exists config, pool, group, volume ::
      && ':' !in config && Free(':', pool, group, volume) && Free('/', pool, group, volume)
      && id == VolumeId(config, VolumePath(pool, group, volume))
  }

  ghost predicate IsSnapshotId(id: string) {
    exists volume, name :: '@' !in volume && '@' !in name && IsVolumeId(volume) && id == volume + "@" + name
  }

  /** Which answer each string gets from the parsers. */
  lemma {:induction false} ClassesExactly(id: string)
    ensures ParseVolumeId(id).BadId? <==> !HasOne(id, ':')
    ensures ParseVolumeId(id).Volume? <==> IsVolumeId(id)
    ensures SplitConfig(id) == Malformed <==> !HasOne(id, ':')
    ensures ParseSnapshotId(id).NotSnapshot? <==> !HasOne(id, '@')
    ensures ParseSnapshotId(id).Snapshot? <==> IsSnapshotId(id)
  {
    OneSeparator(id, ':');
    OneSeparator(id, '@');
    VolumesExactly(id);
    SnapshotsExactly(id);
  }

  lemma {:induction false} SnapshotsExactly(id: string)
    ensures ParseSnapshotId(id).Snapshot? <==> IsSnapshotId(id)
  {
    var parts := Split(id, '@');
    if ParseSnapshotId(id).Snapshot? {
      JoinTwo(parts, '@');
      VolumesExactly(parts[0]);
      assert '@' !in parts[0] && '@' !in parts[1] && id == parts[0] + "@" + parts[1];
    } else if volume, name :| '@' !in volume && '@' !in name && IsVolumeId(volume) && id == volume + "@" + name {
      SplitTwo(volume, name, '@');
      VolumesExactly(volume);
    }
  }

  lemma {:induction false} VolumesExactly(id: string)
    ensures ParseVolumeId(id).Volume? <==> IsVolumeId(id)
  {
    if ParseVolumeId(id).Volume? {
      var parts := Split(id, ':');
      var path := Split(parts[1], '/');
      JoinTwo(parts, ':');
      JoinTwo(path[1..], '/');
      var whole := VolumePath(path[0], path[1], path[2]);
      assert parts[1] == whole;
      InPath(path[0], path[1], path[2], ':');
      assert id == VolumeId(parts[0], whole);
    } else if config, pool, group, volume :|
      && ':' !in config && Free(':', pool, group, volume) && Free('/', pool, group, volume)
      && id == VolumeId(config, VolumePath(pool, group, volume))
    {
      VolumeIdRoundTrip(config, pool, group, volume);
    }
  }

  predicate Dots(component: string) {
    component == "." || component == ".."
  }

  lemma CleanOf(pool: string, group: string, last: string)
    requires Free('/', pool, group, last)
    ensures var path := VolumePath(pool, group, last);
      var body := Join(CleanParts(pool == "", [], [pool, group, last]), '/');
      Clean(path) == if pool == "" then "/" + body else if body == "" then "." else body
  {
    SplitPath(pool, group, last);
  }

  /** What cleaning keeps of "pool/group/". */
  lemma KeptOfGroup(pool: string, group: string)
    requires group != "" && group != "." && pool != "." && (group == ".." ==> pool == "..")
    ensures CleanParts(pool == "", [], [pool, group, ""]) == if pool == "" then [group] else [pool, group]
  {
    assert [pool, group, ""][1..] == [group, ""];
    assert [group, ""][1..] == [""];
    assert CleanParts(pool == "", if pool == "" then [group] else [pool, group], [""]) ==
           if pool == "" then [group] else [pool, group];
    assert [] + [pool] == [pool] && [] + [group] == [group] && [pool] + [group] == [pool, group];
  }

  /** When the group is a dot name (or the pool is "."), cleaning keeps less than two components. */
  lemma KeptOfDots(pool: string, group: string)
    requires group == "" || group == "." || pool == "." || (group == ".." && pool != "..")
    ensures var kept := CleanParts(pool == "", [], [pool, group, ""]);
      kept == [] || (kept == [pool] && pool != "") || (kept == [group] && pool == ".")
  {
    assert [pool, group, ""][1..] == [group, ""];
    assert [group, ""][1..] == [""];
    assert [] + [pool] == [pool] && [] + [group] == [group];
    assert [pool][..0] == [];
    assert CleanParts(pool == "", [], [""]) == [];
    assert CleanParts(pool == "", [pool], [""]) == [pool];
    assert CleanParts(pool == "", [group], [""]) == [group];
  }

  /** CreateSnapshotOnNS takes the group with filepath.Dir, the other calls from the first two path parts.
      The two agree exactly when neither is "." and an empty or ".." group follows a pool of the same spelling. */
  lemma GroupsAgree(pool: string, group: string, volume: string)
    requires Free('/', pool, group, volume)
    ensures Dir(VolumePath(pool, group, volume)) == pool + "/" + group <==>
      pool != "." && group != "." && (group == "" || group == ".." ==> pool == group)
  {
    var dir := pool + "/" + group;
    assert VolumePath(pool, group, volume) == dir + "/" + volume;
    UpToLastSlashOf(dir, volume);
    assert dir + "/" == VolumePath(pool, group, "");
    CleanOf(pool, group, "");
    var kept := CleanParts(pool == "", [], [pool, group, ""]);
    if group != "" && group != "." && pool != "." && (group == ".." ==> pool == "..") {
      KeptOfGroup(pool, group);
      if pool != "" {
        JoinTwo(kept, '/');
      }
    } else {
      KeptOfDots(pool, group);
      assert pool == group == "" || |Dir(VolumePath(pool, group, volume))| != |dir|;
    }
  }

  /** The id CreateVolume returns for a volume named `volume` in "pool/group" names that volume to every later call, and
      the id CreateSnapshot makes from it names that snapshot to DeleteSnapshot and ListSnapshots. */
  lemma CreatedIdRoundTrip(config: string, pool: string, group: string, volume: string, snapshot: string)
    requires ':' !in config && Free(':', pool, group, volume) && Free('/', pool, group, volume)
    requires pool != "" && group != "" && volume != "" && !Dots(pool) && !Dots(group) && !Dots(volume)
    ensures var path := JoinPath(pool + "/" + group, volume);
      && ParseVolumeId(VolumeId(config, path)) == Volume(config, VolPath(pool + "/" + group, volume))
      && SplitConfig(VolumeId(config, path)) == Pair(config, path)
      && Dir(path) == pool + "/" + group
      && ('@' !in config && Free('@', pool, group, volume) && '@' !in snapshot ==>
            && ParseSnapshotId(SnapshotId(config, path, snapshot)) == Snapshot(config, VolPath(pool + "/" + group, volume), snapshot)
            && ParseListedSnapshot(SnapshotId(config, path, snapshot)) == ParseSnapshotId(SnapshotId(config, path, snapshot)))
  {
    var path := VolumePath(pool, group, volume);
    assert JoinPath(pool + "/" + group, volume) == path by {
      assert (pool + "/" + group) + "/" + volume == path;
      CleanOf(pool, group, volume);
      KeptOfPath(pool, group, volume);
    }
    VolumeIdRoundTrip(config, pool, group, volume);
    SnapshotIdRoundTrip(config, pool, group, volume, snapshot);
    ListedSnapshotAgrees(SnapshotId(config, path, snapshot));
    GroupsAgree(pool, group, volume);
    SplitTwo(config, path, ':');
    InPath(pool, group, volume, ':');
  }

  lemma KeptOfPath(pool: string, group: string, volume: string)
    requires pool != "" && group != "" && volume != "" && !Dots(pool) && !Dots(group) && !Dots(volume)
    ensures CleanParts(false, [], [pool, group, volume]) == [pool, group, volume]
    ensures Join([pool, group, volume], '/') == VolumePath(pool, group, volume)
  {
    var path := [pool, group, volume];
    assert path[1..] == [group, volume];
    JoinTwo(path[1..], '/');
    assert path[1..][1..] == [volume];
    assert [] + [pool] == [pool] && [pool] + [group] == [pool, group] && [pool, group] + [volume] == path;
    assert CleanParts(false, [pool, group], [volume]) == path;
  }
}
