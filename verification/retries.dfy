/** Calls repeated after a success, or after having been cut short. */
module Retries {
  import opened Identifiers
  import opened Appliance
  import opened Lifecycle

  /** Repeating a call that succeeded succeeds and changes nothing, whatever the appliance would choose anew; a staging, as
      long as its target group is the same. */
  lemma RepeatIsIdempotent(first: Op, again: Op, s: State)
    requires SameRequest(first, again) && Enabled(first, s) && Verdict(first, s) == Ok
    ensures Verdict(again, After(first, s)) == Ok
    ensures After(again, After(first, s)) == After(first, s)
  {
    var t := After(first, s);
    match first {
      case CreateVolume(path, size) =>
      case CreateFromSnapshot(source, path) =>
      case CreateClone(_, _, _) => CloneIsIdempotent(first, again, s);
      case CreateSnapshot(volume, name, now) => SnapshotStays(s, volume, name, now);
      case DeleteSnapshot(key) =>
      case DeleteVolume(volume, promotion) => assert WithoutLuns(t, volume) == t;
      case Expand(volume, size) =>
      case Unpublish(volume) => assert WithoutLuns(t, volume) == t;
      case Stage(targetGroup, volume, hostGroup, id, lun) =>
        if LunIds(s, StageFilter(first)) == {} {
          assert id in LunIds(t, StageFilter(again));
        }
    }
  }

  lemma CloneIsIdempotent(first: Op, again: Op, s: State)
    requires first.CreateClone? && SameRequest(first, again) && Verdict(first, s) == Ok
    ensures Verdict(again, After(first, s)) == Ok
    ensures After(again, After(first, s)) == After(first, s)
  {
    var name := CloneSnapshotName(first.path);
    SnapshotStays(s, first.original, name, first.now);
    CloneKeepsVerdict(AfterSnapshot(s, first.original, name, first.now), first.original, name, first.path);
  }

  lemma SnapshotStays(s: State, volume: VolPath, name: string, now: int)
    requires SnapshotVerdict(s, volume, name) == Ok
    ensures var t := AfterSnapshot(s, volume, name, now);
      && SnapshotVerdict(t, volume, name) == Ok
      && SnapKey(volume, name) in t.snapshots
      && forall later :: AfterSnapshot(t, volume, name, later) == t
  {
    var t := AfterSnapshot(s, volume, name, now);
    assert forall k :: k in t.snapshots ==> k in s.snapshots || k == SnapKey(volume, name);
  }

  lemma CloneKeepsVerdict(s: State, original: VolPath, name: string, path: VolPath)
    requires SnapshotVerdict(s, original, name) == Ok && SnapKey(original, name) in s.snapshots
    ensures SnapshotVerdict(CloneSnapshot(s, SnapKey(original, name), path).1, original, name) == Ok
  {
    var t := CloneSnapshot(s, SnapKey(original, name), path).1;
    assert t.snapshots == s.snapshots;
    assert NameTaken(t, original, name) == NameTaken(s, original, name);
  }

  /** One attempt before the call that counts: the answer is the same as without it, and so is the final state,
      with the appliance's choices of one attempt or the other. */
  lemma OneAttempt(attempt: Op, last: Op, s: State, t: State)
    requires SameRequest(attempt, last) && Step(attempt, s, t) && Enabled(last, t)
    ensures Verdict(last, t) == Verdict(last, s)
    ensures (Enabled(last, s) && After(last, t) == After(last, s)) || After(last, t) == After(attempt, s)
  {
    if t == s {
    } else if t == After(attempt, s) {
      AfterAttempt(attempt, last, s);
    } else {
      MidwayAttempt(attempt, last, s, t);
    }
  }

  lemma MidwayAttempt(attempt: Op, last: Op, s: State, t: State)
    requires SameRequest(attempt, last) && Midway(attempt, s, t) && Enabled(last, t)
    ensures Verdict(last, t) == Verdict(last, s)
    ensures (Enabled(last, s) && After(last, t) == After(last, s)) || After(last, t) == After(attempt, s)
  {
    match attempt {
      case CreateClone(original, path, now) =>
        if SnapshotVerdict(s, original, CloneSnapshotName(path)) == Ok {
          SnapshotStays(s, original, CloneSnapshotName(path), now);
        }
      case DeleteVolume(volume, _) =>
        assert WithoutLuns(t, volume) == WithoutLuns(s, volume);
        SameClones(s, t, volume, last.promotion);
      case Unpublish(volume) =>
        assert WithoutLuns(t, volume) == WithoutLuns(s, volume);
    }
  }

  lemma SameClones(s: State, t: State, volume: VolPath, p: Promotion)
    requires t.volumes == s.volumes
    ensures ValidPromotion(t, volume, p) ==> ValidPromotion(s, volume, p)
  {
    assert forall w :: IsCloneOf(t, w, volume) == IsCloneOf(s, w, volume);
    if IsCloned(s, volume) {
      var w :| w in s.volumes && IsCloneOf(s, w, volume);
      assert IsCloneOf(t, w, volume);
    }
  }

  lemma {:induction false} AfterAttempt(attempt: Op, last: Op, s: State)
    requires SameRequest(attempt, last) && Enabled(attempt, s)
    ensures var t := After(attempt, s);
      Verdict(last, t) == Verdict(last, s) && After(last, t) == t
  {
    SameVerdict(attempt, last, s);
    if Verdict(attempt, s) == Ok {
      RepeatIsIdempotent(attempt, last, s);
    } else {
      FailureChangesNothing(attempt, s);
      FailureChangesNothing(last, s);
      if attempt.CreateClone? && SnapshotVerdict(s, attempt.original, CloneSnapshotName(attempt.path)) == Ok {
        SnapshotStays(s, attempt.original, CloneSnapshotName(attempt.path), attempt.now);
      }
    }
  }

  /** A call that ends with an error of its own leaves the appliance as it was, except that a clone into a missing
      group leaves its snapshot behind. */
  lemma {:induction false} FailureChangesNothing(op: Op, s: State)
    requires Verdict(op, s) != Ok
    ensures After(op, s) ==
      if op.CreateClone? then AfterSnapshot(s, op.original, CloneSnapshotName(op.path), op.now) else s
    ensures op.CreateClone? && op.path.group in s.groups ==> After(op, s) == s
  {
  }

  predicate Attempts(ops: seq<Op>, trace: seq<State>) {
    && |trace| == |ops|
    && (forall i :: 0 <= i < |ops| - 1 ==> Step(ops[i], trace[i], trace[i + 1]))
  }

  /** A request cut short after any backend call, any number of times, and then run to its end, leaves the state
      and gives the answer of one uninterrupted call (made with the choices of one of the attempts); a staging, if its
      attempts settle on one target group. */
  lemma {:induction false} RetriesConverge(ops: seq<Op>, trace: seq<State>) returns (k: nat)
    requires ops != [] && Attempts(ops, trace)
    requires forall i :: 0 <= i < |ops| ==> SameRequest(ops[i], ops[|ops| - 1])
    requires Enabled(ops[|ops| - 1], trace[|ops| - 1])
    ensures k < |ops| && Enabled(ops[k], trace[0])
    ensures After(ops[|ops| - 1], trace[|ops| - 1]) == After(ops[k], trace[0])
    ensures Verdict(ops[|ops| - 1], trace[|ops| - 1]) == Verdict(ops[k], trace[0])
  {
    if |ops| == 1 {
      k := 0;
    } else {
      var j := RetriesConverge(ops[1..], trace[1..]);
      assert SameRequest(ops[0], ops[j + 1]);
      OneAttempt(ops[0], ops[j + 1], trace[0], trace[1]);
      SameVerdict(ops[0], ops[j + 1], trace[0]);
      k := if Enabled(ops[j + 1], trace[0]) && After(ops[j + 1], trace[1]) == After(ops[j + 1], trace[0]) then j + 1 else 0;
    }
  }

  lemma SameVerdict(a: Op, b: Op, s: State)
    requires SameRequest(a, b)
    ensures Verdict(a, s) == Verdict(b, s)
  {
  }
}
