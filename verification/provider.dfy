/** One appliance behind the provider interface. `budget` is the number of calls it will still answer: the next
    one gets no answer and has no effect, which cuts the running request short at that point. */
module Provider {
  import opened Identifiers
  import opened Appliance

  /** A call's reply and effect, or none of either when the budget is spent. */
  function Answered<T>(budget: nat, full: (Reply<T>, State), s: State): (Reply<T>, State) {
    if budget == 0 then (Fault, s) else full
  }

  function Spent(budget: nat): nat {
    if budget == 0 then 0 else budget - 1
  }

  class NsProvider {
    var state: State
    var budget: nat

    method Spend() returns (answered: bool)
      modifies this`budget
      ensures answered <==> old(budget) > 0
      ensures budget == Spent(old(budget))
    {
      answered := budget > 0;
      if answered {
        budget := budget - 1;
      }
    }

    method CreateVolume(path: VolPath, size: int) returns (r: Reply<()>)
      modifies this
      ensures (r, state) == Answered(old(budget), AddVolume(old(state), path, size), old(state))
      ensures budget == Spent(old(budget))
    {
      var answered := Spend();
      if !answered { return Fault; }
      var (reply, next) := AddVolume(state, path, size);
      r, state := reply, next;
    }

    method GetVolume(path: VolPath) returns (r: Reply<VolumeInfo>)
      modifies this`budget
      ensures r == if old(budget) == 0 then Fault else if path in state.volumes then Done(state.volumes[path]) else Refused(NotExist)
      ensures budget == Spent(old(budget))
    {
      var answered := Spend();
      if !answered { return Fault; }
      return if path in state.volumes then Done(state.volumes[path]) else Refused(NotExist);
    }

    method UpdateVolume(path: VolPath, size: int) returns (r: Reply<()>)
      modifies this
      ensures (r, state) == Answered(old(budget), SetSize(old(state), path, size), old(state))
      ensures budget == Spent(old(budget))
    {
      var answered := Spend();
      if !answered { return Fault; }
      var (reply, next) := SetSize(state, path, size);
      r, state := reply, next;
    }

    method DestroyVolume(path: VolPath, promotion: Promotion) returns (r: Reply<()>)
      requires ValidPromotion(state, path, promotion)
      modifies this
      ensures (r, state) == Answered(old(budget), RemoveVolume(old(state), path, promotion), old(state))
      ensures budget == Spent(old(budget))
    {
      var answered := Spend();
      if !answered { return Fault; }
      var (reply, next) := RemoveVolume(state, path, promotion);
      r, state := reply, next;
    }

    /** The snapshots of all the volumes of a group, in any order. */
    method GetSnapshots(group: string) returns (r: Reply<seq<SnapKey>>)
      modifies this`budget
      ensures r.Fault? <==> old(budget) == 0
      ensures old(budget) > 0 ==> (r.Refused? <==> group !in state.groups)
      ensures r.Done? ==> forall k :: k in r.value <==> k in state.snapshots && k.parent.group == group
      ensures budget == Spent(old(budget))
    {
      var answered := Spend();
      if !answered { return Fault; }
      if group !in state.groups { return Refused(NotExist); }
      var listing, left := [], set k | k in state.snapshots && k.parent.group == group;
      ghost var all := left;
      while left != {}
        invariant left <= all
        invariant forall k :: k in listing <==> k in all - left
      {
        var k :| k in left;
        listing, left := listing + [k], left - {k};
      }
      return Done(listing);
    }

    method GetSnapshot(key: SnapKey) returns (r: Reply<Snap>)
      modifies this`budget
      ensures r == if old(budget) == 0 then Fault else if key in state.snapshots then Done(state.snapshots[key]) else Refused(NotExist)
      ensures budget == Spent(old(budget))
    {
      var answered := Spend();
      if !answered { return Fault; }
      return if key in state.snapshots then Done(state.snapshots[key]) else Refused(NotExist);
    }

    method CreateSnapshot(key: SnapKey, now: int) returns (r: Reply<()>)
      modifies this
      ensures (r, state) == Answered(old(budget), AddSnapshot(old(state), key, now), old(state))
      ensures budget == Spent(old(budget))
    {
      var answered := Spend();
      if !answered { return Fault; }
      var (reply, next) := AddSnapshot(state, key, now);
      r, state := reply, next;
    }

    method DestroySnapshot(key: SnapKey) returns (r: Reply<()>)
      modifies this
      ensures (r, state) == Answered(old(budget), RemoveSnapshot(old(state), key), old(state))
      ensures budget == Spent(old(budget))
    {
      var answered := Spend();
      if !answered { return Fault; }
      var (reply, next) := RemoveSnapshot(state, key);
      r, state := reply, next;
    }

    method Clone(key: SnapKey, path: VolPath) returns (r: Reply<()>)
      modifies this
      ensures (r, state) == Answered(old(budget), CloneSnapshot(old(state), key, path), old(state))
      ensures budget == Spent(old(budget))
    {
      var answered := Spend();
      if !answered { return Fault; }
      var (reply, next) := CloneSnapshot(state, key, path);
      r, state := reply, next;
    }

    method GetLunMappings(f: LunFilter) returns (r: Reply<seq<nat>>)
      modifies this`budget
      ensures r.Fault? <==> old(budget) == 0
      ensures old(budget) > 0 ==> r.Done? && Lists(r.value, LunIds(state, f))
      ensures budget == Spent(old(budget))
    {
      var answered := Spend();
      if !answered { return Fault; }
      var listing, left := [], LunIds(state, f);
      ghost var all := left;
      while left != {}
        invariant left <= all
        invariant |listing| + |left| == |all|
        invariant forall k :: k in listing <==> k in all - left
      {
        var k :| k in left;
        listing, left := listing + [k], left - {k};
      }
      return Done(listing);
    }

    method CreateLunMapping(id: nat, m: Mapping) returns (r: Reply<()>)
      modifies this
      ensures (r, state) == Answered(old(budget), AddMapping(old(state), id, m), old(state))
      ensures budget == Spent(old(budget))
    {
      var answered := Spend();
      if !answered { return Fault; }
      var (reply, next) := AddMapping(state, id, m);
      r, state := reply, next;
    }

    method DestroyLunMapping(id: nat) returns (r: Reply<()>)
      modifies this
      ensures (r, state) == Answered(old(budget), RemoveMapping(old(state), id), old(state))
      ensures budget == Spent(old(budget))
    {
      var answered := Spend();
      if !answered { return Fault; }
      var (reply, next) := RemoveMapping(state, id);
      r, state := reply, next;
    }
  }
}
