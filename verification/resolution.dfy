/** Finding the appliance for a request. The loops go over a Go map: `order` is the order one run of them takes. */
module Resolution {

  /** One configured appliance: its zone and default group, the groups it holds, and whether its certificate fails. */
  datatype Appliance = Appliance(zone: string, defaultGroup: string, groups: set<string>, badCertificate: bool)

  datatype Params = Params(volumeGroup: string, zone: string, configName: string)

  datatype Outcome =
    | Found(name: string, group: string)
    | NotFound
    | Unauthenticated
    | ZoneMismatch
    | Refused        // the one appliance asked for does not resolve the group
    | NilDereference // no appliance was asked at all

  type Appliances = map<string, Appliance>

  /** An order in which the loop may visit the map. */
  ghost predicate IsOrder(order: seq<string>, all: Appliances) {
    && (forall n :: n in order <==> n in all)
    && (forall i, j :: 0 <= i < j < |order| ==> order[i] != order[j])
  }

  predicate Resolves(all: Appliances, name: string, group: string) {
    name in all && group in all[name].groups
  }

  /** A missing name has the zero configuration. */
  function DefaultGroup(all: Appliances, name: string): string {
    if name in all then all[name].defaultGroup else ""
  }

  function Zone(all: Appliances, name: string): string {
    if name in all then all[name].zone else ""
  }

  /** The group given, or else the appliance's own default. */
  function Wanted(all: Appliances, volumeGroup: string, name: string): string {
    if volumeGroup == "" then DefaultGroup(all, name) else volumeGroup
  }

  function Failure(asked: bool, badCertificate: bool): Outcome {
    if !asked then NilDereference else if badCertificate then Unauthenticated else NotFound
  }

  /** Sound and complete whatever the order: an appliance is found exactly when one resolves the group wanted of it. */
  method ResolveNSNoZone(all: Appliances, params: Params, order: seq<string>) returns (r: Outcome)
    requires IsOrder(order, all)
    ensures r.Found? ==> Resolves(all, r.name, r.group) && r.group == Wanted(all, params.volumeGroup, r.name)
    ensures params.configName != "" ==>
      if Resolves(all, params.configName, Wanted(all, params.volumeGroup, params.configName))
      then r.Found? && r.name == params.configName else r == Refused
    ensures params.configName == "" ==>
      (r.Found? <==> exists n :: n in all && Resolves(all, n, Wanted(all, params.volumeGroup, n)))
    ensures r == NilDereference <==> params.configName == "" && all == map[]
    ensures params.configName == "" && all != map[] && !r.Found? ==>
      order != [] && r == if all[order[|order| - 1]].badCertificate then Unauthenticated else NotFound
  {
    var volumeGroup := params.volumeGroup;
    if params.configName != "" {
      if volumeGroup == "" {
        volumeGroup := DefaultGroup(all, params.configName);
      }
      return if Resolves(all, params.configName, volumeGroup) then Found(params.configName, volumeGroup) else Refused;
    }
    var badCertificate := false;
    for i := 0 to |order|
      invariant forall j :: 0 <= j < i ==> !Resolves(all, order[j], Wanted(all, params.volumeGroup, order[j]))
      invariant params.volumeGroup != "" ==> volumeGroup == params.volumeGroup
      invariant i > 0 ==> order[i - 1] in all && badCertificate == all[order[i - 1]].badCertificate
    {
      if params.volumeGroup == "" {
        volumeGroup := DefaultGroup(all, order[i]);
      }
      assert order[i] in order;
      if Resolves(all, order[i], volumeGroup) { return Found(order[i], volumeGroup); }
      badCertificate := all[order[i]].badCertificate;
    }
    assert all == map[] <==> order == [] by {
      assert order != [] ==> order[0] in order && order[0] in all;
      assert all != map[] ==> exists n :: n in all;
    }
    return Failure(order != [], badCertificate);
  }

  /** The loop with a zone: once a default group has been taken, the later appliances are asked for that same group. */
  function ZoneScan(all: Appliances, zone: string, volumeGroup: string, order: seq<string>, asked: bool, bad: bool): Outcome
    decreases |order|
  {
    if order == [] then Failure(asked, bad)
    else
      var name := order[0];
      if Zone(all, name) != zone then ZoneScan(all, zone, volumeGroup, order[1..], asked, bad)
      else
        var group := Wanted(all, volumeGroup, name);
        if Resolves(all, name, group) then Found(name, group)
        else ZoneScan(all, zone, group, order[1..], true, name in all && all[name].badCertificate)
  }

  method ResolveNSWithZone(all: Appliances, params: Params, order: seq<string>) returns (r: Outcome)
    requires IsOrder(order, all)
    ensures params.configName != "" ==>
      r == if Zone(all, params.configName) != params.zone then ZoneMismatch
           else if Resolves(all, params.configName, Wanted(all, params.volumeGroup, params.configName))
           then Found(params.configName, Wanted(all, params.volumeGroup, params.configName)) else Refused
    ensures params.configName == "" ==> r == ZoneScan(all, params.zone, params.volumeGroup, order, false, false)
  {
    var volumeGroup := params.volumeGroup;
    if params.configName != "" {
      if Zone(all, params.configName) != params.zone { return ZoneMismatch; }
      if volumeGroup == "" {
        volumeGroup := DefaultGroup(all, params.configName);
      }
      return if Resolves(all, params.configName, volumeGroup) then Found(params.configName, volumeGroup) else Refused;
    }
    var asked, bad := false, false;
    for i := 0 to |order|
      invariant ZoneScan(all, params.zone, params.volumeGroup, order, false, false) ==
                ZoneScan(all, params.zone, volumeGroup, order[i..], asked, bad)
    {
      assert order[i..][0] == order[i] && order[i..][1..] == order[i + 1..];
      if params.zone == Zone(all, order[i]) {
        if volumeGroup == "" {
          volumeGroup := DefaultGroup(all, order[i]);
        }
        if Resolves(all, order[i], volumeGroup) { return Found(order[i], volumeGroup); }
        asked, bad := true, order[i] in all && all[order[i]].badCertificate;
      }
    }
    return Failure(asked, bad);
  }

  /** With a zone every success is sound: an appliance of that zone, on which the returned group was resolved. When
      the zone has no appliance the loop's nil error is dereferenced. */
  lemma {:induction false} ZoneScanSound(all: Appliances, zone: string, volumeGroup: string, order: seq<string>, asked: bool, bad: bool)
    ensures var r := ZoneScan(all, zone, volumeGroup, order, asked, bad);
      && (r.Found? ==> r.name in order && Zone(all, r.name) == zone && Resolves(all, r.name, r.group))
      && (r.Found? && volumeGroup != "" ==> r.group == volumeGroup)
      && (r == NilDereference <==> !asked && forall n :: n in order ==> Zone(all, n) != zone)
    decreases |order|
  {
    if order != [] {
      ZoneScanSound(all, zone, Wanted(all, volumeGroup, order[0]), order[1..], true, order[0] in all && all[order[0]].badCertificate);
      ZoneScanSound(all, zone, volumeGroup, order[1..], asked, bad);
    }
  }

  predicate InZone(all: Appliances, zone: string, name: string) {
    name in all && all[name].zone == zone
  }

  /** When no appliance is found, the last one of the zone that was asked decides between the two errors. */
  lemma {:induction false} ZoneScanFailure(all: Appliances, zone: string, group: string, order: seq<string>, asked: bool, bad: bool, last: nat)
    requires last < |order| && InZone(all, zone, order[last])
    requires forall j :: last < j < |order| ==> !InZone(all, zone, order[j])
    requires forall n :: n in order ==> n in all
    requires !ZoneScan(all, zone, group, order, asked, bad).Found?
    ensures ZoneScan(all, zone, group, order, asked, bad) == if all[order[last]].badCertificate then Unauthenticated else NotFound
    decreases |order|
  {
    var inZone, rest := InZone(all, zone, order[0]), order[1..];
    var next := if inZone then Wanted(all, group, order[0]) else group;
    var worse := if inZone then all[order[0]].badCertificate else bad;
    if last > 0 {
      ZoneScanFailure(all, zone, next, rest, asked || inZone, worse, last - 1);
    } else {
      NoneInZone(all, zone, next, rest, true, worse);
    }
  }

  lemma {:induction false} NoneInZone(all: Appliances, zone: string, group: string, order: seq<string>, asked: bool, bad: bool)
    requires forall n :: n in order ==> n in all
    requires forall j :: 0 <= j < |order| ==> !InZone(all, zone, order[j])
    ensures ZoneScan(all, zone, group, order, asked, bad) == Failure(asked, bad)
    decreases |order|
  {
    if order != [] {
      assert !InZone(all, zone, order[0]);
      assert forall j :: 0 <= j < |order| - 1 ==> order[1..][j] == order[j + 1];
      NoneInZone(all, zone, group, order[1..], asked, bad);
    }
  }

  /** Some appliance of the zone resolves the group. */
  predicate Holder(all: Appliances, zone: string, group: string) {
    exists n :: n in all && InZone(all, zone, n) && Resolves(all, n, group)
  }

  /** The group the loop asks for once it has visited these: the one given, or else the first default that is not "". */
  function Sticky(all: Appliances, zone: string, group: string, visited: seq<string>): string
    decreases |visited|
  {
    if group != "" || visited == [] then group
    else Sticky(all, zone, if InZone(all, zone, visited[0]) then all[visited[0]].defaultGroup else "", visited[1..])
  }

  /** The i-th appliance visited is in the zone and resolves the group that it is asked for. */
  predicate Answers(all: Appliances, zone: string, group: string, order: seq<string>, i: nat)
    requires i < |order|
  {
    InZone(all, zone, order[i]) && Resolves(all, order[i], Sticky(all, zone, group, order[..i + 1]))
  }

  /** For every order, with and without a group: success is that some appliance answers what it is asked. */
  lemma {:induction false} ZoneScanExactly(all: Appliances, zone: string, group: string, order: seq<string>, asked: bool, bad: bool)
    requires forall n :: n in order ==> n in all
    ensures ZoneScan(all, zone, group, order, asked, bad).Found? <==>
            exists i :: 0 <= i < |order| && Answers(all, zone, group, order, i)
    decreases |order|
  {
    if order != [] {
      var rest := order[1..];
      var inZone := InZone(all, zone, order[0]);
      var next := if inZone then Wanted(all, group, order[0]) else group;
      ZoneScanExactly(all, zone, next, rest, asked || inZone, if inZone then all[order[0]].badCertificate else bad);
      forall i | 0 < i < |order| ensures Answers(all, zone, group, order, i) == Answers(all, zone, next, rest, i - 1) {
        assert order[..i + 1][1..] == rest[..i];
      }
      assert order[..1][1..] == [] && order[..1][0] == order[0];
      assert Sticky(all, zone, next, order[..1][1..]) == next;
      assert Sticky(all, zone, group, order[..1]) == next || (group == "" && !inZone);
      assert Answers(all, zone, group, order, 0) <==> inZone && Resolves(all, order[0], Wanted(all, group, order[0]));
      if i :| 0 <= i < |rest| && Answers(all, zone, next, rest, i) {
        assert Answers(all, zone, group, order, i + 1);
      }
    }
  }

  /** For a given group, success does not depend on the order. */
  lemma {:induction false} ZoneScanOfGroup(all: Appliances, zone: string, group: string, order: seq<string>, asked: bool, bad: bool)
    requires group != "" && IsOrder(order, all)
    ensures ZoneScan(all, zone, group, order, asked, bad).Found? <==> Holder(all, zone, group)
  {
    ZoneScanExactly(all, zone, group, order, asked, bad);
    if n :| n in all && InZone(all, zone, n) && Resolves(all, n, group) {
      var i :| 0 <= i < |order| && order[i] == n;
      assert Answers(all, zone, group, order, i);
    }
  }

  /* ---- without a group: in which configurations the order matters ---- */

  predicate HasDefault(all: Appliances, zone: string, name: string) {
    InZone(all, zone, name) && all[name].defaultGroup != ""
  }

  /** Asked before a default is known, this appliance is passed over for good. */
  predicate PassedOver(all: Appliances, zone: string, name: string) {
    InZone(all, zone, name) && all[name].defaultGroup == "" && "" !in all[name].groups
  }

  predicate HeldForGood(all: Appliances, zone: string, group: string) {
    exists z :: z in all && InZone(all, zone, z) && !PassedOver(all, zone, z) && Resolves(all, z, group)
  }

  predicate DefaultsHeld(all: Appliances, zone: string) {
    forall y :: y in all && HasDefault(all, zone, y) ==> HeldForGood(all, zone, all[y].defaultGroup)
  }

  /** Each default of the zone is held by an appliance of the zone that cannot have been passed over; or there is no
      default, and an appliance resolves "". */
  predicate AlwaysFound(all: Appliances, zone: string) {
    if exists y :: y in all && HasDefault(all, zone, y) then
      DefaultsHeld(all, zone)
    else
      exists z :: z in all && InZone(all, zone, z) && Resolves(all, z, "")
  }

  /** Some default of the zone is held in the zone, or an appliance without one resolves "". */
  predicate SometimesFound(all: Appliances, zone: string) {
    || (exists y, z :: y in all && z in all && HasDefault(all, zone, y) && InZone(all, zone, z) && Resolves(all, z, all[y].defaultGroup))
    || (exists z :: z in all && InZone(all, zone, z) && all[z].defaultGroup == "" && Resolves(all, z, ""))
  }

  /** The first default in the zone sticks. */
  lemma {:induction false} StickyFirst(all: Appliances, zone: string, visited: seq<string>, j: nat)
    requires j < |visited| && HasDefault(all, zone, visited[j])
    requires forall i :: 0 <= i < j ==> !HasDefault(all, zone, visited[i])
    ensures Sticky(all, zone, "", visited) == all[visited[j]].defaultGroup
    decreases |visited|
  {
    if j > 0 {
      assert !HasDefault(all, zone, visited[0]);
      assert visited[1..][j - 1] == visited[j];
      StickyFirst(all, zone, visited[1..], j - 1);
    }
  }

  lemma {:induction false} StickyNone(all: Appliances, zone: string, visited: seq<string>)
    requires forall i :: 0 <= i < |visited| ==> !HasDefault(all, zone, visited[i])
    ensures Sticky(all, zone, "", visited) == ""
    decreases |visited|
  {
    if visited != [] {
      assert !HasDefault(all, zone, visited[0]);
      StickyNone(all, zone, visited[1..]);
    }
  }

  /** The position of the first default in the zone, |order| if there is none. */
  function FirstDefault(all: Appliances, zone: string, order: seq<string>): (j: nat)
    ensures j <= |order|
    ensures j < |order| ==> HasDefault(all, zone, order[j])
    ensures forall i :: 0 <= i < j ==> !HasDefault(all, zone, order[i])
  {
    if order == [] || HasDefault(all, zone, order[0]) then 0 else 1 + FirstDefault(all, zone, order[1..])
  }

  /** What the i-th appliance is asked for: "" before the first default, then that default. */
  lemma AskedAt(all: Appliances, zone: string, order: seq<string>, i: nat)
    requires i < |order|
    ensures var j := FirstDefault(all, zone, order);
      Sticky(all, zone, "", order[..i + 1]) == if i < j then "" else all[order[j]].defaultGroup
  {
    var j := FirstDefault(all, zone, order);
    if i < j {
      StickyNone(all, zone, order[..i + 1]);
    } else {
      StickyFirst(all, zone, order[..i + 1], j);
    }
  }

  lemma {:induction false} ZoneScanOfDefault(all: Appliances, zone: string, order: seq<string>)
    requires IsOrder(order, all)
    ensures var j := FirstDefault(all, zone, order);
      ZoneScan(all, zone, "", order, false, false).Found? <==>
        exists i :: 0 <= i < |order| && InZone(all, zone, order[i])
          && Resolves(all, order[i], if i < j then "" else all[order[j]].defaultGroup)
  {
    ZoneScanExactly(all, zone, "", order, false, false);
    var j := FirstDefault(all, zone, order);
    forall i | 0 <= i < |order|
      ensures Answers(all, zone, "", order, i) <==>
        InZone(all, zone, order[i]) && Resolves(all, order[i], if i < j then "" else all[order[j]].defaultGroup)
    {
      AskedAt(all, zone, order, i);
    }
  }

  lemma {:induction false} Listing(names: set<string>) returns (q: seq<string>)
    ensures forall n :: n in q <==> n in names
    ensures forall i, j :: 0 <= i < j < |q| ==> q[i] != q[j]
  {
    q := [];
    if names != {} {
      var n :| n in names;
      var rest := Listing(names - {n});
      q := [n] + rest;
      assert forall i :: 0 <= i < |rest| ==> rest[i] in rest;
    }
  }

  /** An order that visits these appliances before y, and y before all others. */
  lemma {:induction false} OrderWith(all: Appliances, before: set<string>, y: string) returns (order: seq<string>, j: nat)
    requires before <= all.Keys && y in all && y !in before
    ensures IsOrder(order, all) && j < |order| && order[j] == y
    ensures forall i :: 0 <= i < |order| ==> (i < j <==> order[i] in before)
  {
    var front := Listing(before);
    var back := Listing(all.Keys - before - {y});
    order, j := front + [y] + back, |front|;
    forall i | 0 <= i < |order|
      ensures order[i] in if i < j then before else if i == j then {y} else all.Keys - before - {y}
    {
      if i < j {
        assert order[i] == front[i] && front[i] in front;
      } else if i > j {
        assert order[i] == back[i - j - 1] && back[i - j - 1] in back;
      }
    }
    forall n | n in all ensures n in order {
      assert n in front || n == y || n in back;
    }
  }

  lemma DefaultMet(all: Appliances, zone: string, order: seq<string>)
    requires IsOrder(order, all)
    ensures FirstDefault(all, zone, order) < |order| <==> exists y :: y in all && HasDefault(all, zone, y)
  {
    var j := FirstDefault(all, zone, order);
    if j < |order| {
      assert order[j] in order && order[j] in all;
    } else {
      forall y | y in all ensures !HasDefault(all, zone, y) {
        var i :| 0 <= i < |order| && order[i] == y;
      }
    }
  }

  lemma {:induction false} AlwaysSuffices(all: Appliances, zone: string, order: seq<string>)
    requires IsOrder(order, all) && AlwaysFound(all, zone)
    ensures ZoneScan(all, zone, "", order, false, false).Found?
  {
    ZoneScanOfDefault(all, zone, order);
    DefaultMet(all, zone, order);
    var j := FirstDefault(all, zone, order);
    if j < |order| {
      var z :| z in all && InZone(all, zone, z) && !PassedOver(all, zone, z) && Resolves(all, z, all[order[j]].defaultGroup);
      var i :| 0 <= i < |order| && order[i] == z;
      assert i < j ==> !HasDefault(all, zone, order[i]);
    } else {
      var z :| z in all && InZone(all, zone, z) && Resolves(all, z, "");
      var i :| 0 <= i < |order| && order[i] == z;
    }
  }

  /** A default that nobody holds who cannot be passed over: visit those first, then its owner. */
  lemma {:induction false} FailingOrder(all: Appliances, zone: string, y: string) returns (order: seq<string>)
    requires y in all && HasDefault(all, zone, y) && !HeldForGood(all, zone, all[y].defaultGroup)
    ensures IsOrder(order, all) && !ZoneScan(all, zone, "", order, false, false).Found?
  {
    var j;
    order, j := OrderWith(all, (set z | z in all && PassedOver(all, zone, z)), y);
    ZoneScanOfDefault(all, zone, order);
    assert FirstDefault(all, zone, order) == j by {
      var f := FirstDefault(all, zone, order);
      assert f < j ==> order[f] in all && PassedOver(all, zone, order[f]);
    }
    assert forall i :: 0 <= i < |order| ==> order[i] in order && order[i] in all;
  }

  /** In every order an appliance is found exactly when the configuration says so. */
  lemma {:induction false} FoundInEveryOrder(all: Appliances, zone: string)
    ensures (forall order :: IsOrder(order, all) ==> ZoneScan(all, zone, "", order, false, false).Found?)
            <==> AlwaysFound(all, zone)
  {
    if AlwaysFound(all, zone) {
      forall order | IsOrder(order, all) ensures ZoneScan(all, zone, "", order, false, false).Found? {
        AlwaysSuffices(all, zone, order);
      }
    } else if exists y :: y in all && HasDefault(all, zone, y) {
      var y :| y in all && HasDefault(all, zone, y) && !HeldForGood(all, zone, all[y].defaultGroup);
      var order := FailingOrder(all, zone, y);
    } else {
      var order := Listing(all.Keys);
      ZoneScanOfDefault(all, zone, order);
      assert forall i :: 0 <= i < |order| ==> order[i] in order && order[i] in all;
    }
  }

  lemma {:induction false} SomeOrderNeeds(all: Appliances, zone: string, order: seq<string>)
    requires IsOrder(order, all) && ZoneScan(all, zone, "", order, false, false).Found?
    ensures SometimesFound(all, zone)
  {
    ZoneScanOfDefault(all, zone, order);
    var j := FirstDefault(all, zone, order);
    var i :| 0 <= i < |order| && InZone(all, zone, order[i])
      && Resolves(all, order[i], if i < j then "" else all[order[j]].defaultGroup);
    assert i < j ==> !HasDefault(all, zone, order[i]);
  }

  lemma {:induction false} OrderFromDefault(all: Appliances, zone: string, y: string, z: string) returns (order: seq<string>)
    requires y in all && z in all && HasDefault(all, zone, y) && InZone(all, zone, z) && Resolves(all, z, all[y].defaultGroup)
    ensures IsOrder(order, all) && ZoneScan(all, zone, "", order, false, false).Found?
  {
    var none: set<string>, j := {}, 0;
    order, j := OrderWith(all, none, y);
    assert 0 < j <==> order[0] in none;
    ZoneScanOfDefault(all, zone, order);
    var i :| 0 <= i < |order| && order[i] == z;
  }

  lemma {:induction false} OrderFromEmpty(all: Appliances, zone: string, z: string) returns (order: seq<string>)
    requires z in all && InZone(all, zone, z) && all[z].defaultGroup == "" && Resolves(all, z, "")
    ensures IsOrder(order, all) && ZoneScan(all, zone, "", order, false, false).Found?
  {
    var none: set<string>, j := {}, 0;
    order, j := OrderWith(all, none, z);
    assert 0 < j <==> order[0] in none;
    ZoneScanOfDefault(all, zone, order);
  }

  /** And in some order exactly when it says this; the order matters in between. */
  lemma {:induction false} FoundInSomeOrder(all: Appliances, zone: string)
    ensures (exists order :: IsOrder(order, all) && ZoneScan(all, zone, "", order, false, false).Found?)
            <==> SometimesFound(all, zone)
  {
    if order :| IsOrder(order, all) && ZoneScan(all, zone, "", order, false, false).Found? {
      SomeOrderNeeds(all, zone, order);
    } else if y, z :| y in all && z in all && HasDefault(all, zone, y) && InZone(all, zone, z) && Resolves(all, z, all[y].defaultGroup) {
      var order := OrderFromDefault(all, zone, y, z);
    } else if z :| z in all && InZone(all, zone, z) && all[z].defaultGroup == "" && Resolves(all, z, "") {
      var order := OrderFromEmpty(all, zone, z);
    }
  }

  predicate Occupied(all: Appliances, zone: string) {
    exists n :: n in all && InZone(all, zone, n)
  }

  predicate AllHaveDefaults(all: Appliances, zone: string) {
    forall n :: n in all && InZone(all, zone, n) ==> HasDefault(all, zone, n)
  }

  /** The default of each appliance of the zone is held by some appliance of the zone. */
  predicate AllDefaultsHeld(all: Appliances, zone: string) {
    forall n :: n in all && InZone(all, zone, n) ==> Holder(all, zone, all[n].defaultGroup)
  }

  /** Where every appliance of the zone has a default: exactly when each of these is held in the zone, and there is one. */
  lemma FoundWhereAllHaveDefaults(all: Appliances, zone: string)
    requires AllHaveDefaults(all, zone)
    ensures AlwaysFound(all, zone) <==> Occupied(all, zone) && AllDefaultsHeld(all, zone)
  {
    if Occupied(all, zone) {
      var n :| n in all && InZone(all, zone, n);
      AlwaysWithDefault(all, zone, n);
      DefaultsHeldByAny(all, zone);
    } else {
      NeverWithoutAppliance(all, zone);
    }
  }

  lemma AlwaysWithDefault(all: Appliances, zone: string, y: string)
    requires y in all && HasDefault(all, zone, y)
    ensures AlwaysFound(all, zone) == DefaultsHeld(all, zone)
  {
  }

  lemma NeverWithoutAppliance(all: Appliances, zone: string)
    requires !Occupied(all, zone)
    ensures !AlwaysFound(all, zone)
  {
    assert forall y :: y in all ==> !HasDefault(all, zone, y);
  }

  lemma DefaultsHeldByAny(all: Appliances, zone: string)
    requires AllHaveDefaults(all, zone)
    ensures DefaultsHeld(all, zone) <==> AllDefaultsHeld(all, zone)
  {
    forall y | y in all && InZone(all, zone, y)
      ensures HeldForGood(all, zone, all[y].defaultGroup) == Holder(all, zone, all[y].defaultGroup)
    {
      HeldByAny(all, zone, all[y].defaultGroup);
    }
    if DefaultsHeld(all, zone) {
      forall n | n in all && InZone(all, zone, n) ensures Holder(all, zone, all[n].defaultGroup) {
        assert HasDefault(all, zone, n);
      }
    }
  }

  lemma HeldByAny(all: Appliances, zone: string, group: string)
    requires AllHaveDefaults(all, zone)
    ensures HeldForGood(all, zone, group) == Holder(all, zone, group)
  {
    if n :| n in all && InZone(all, zone, n) && Resolves(all, n, group) {
      assert HasDefault(all, zone, n) && !PassedOver(all, zone, n);
    }
  }

  /** Two appliances of a zone, only one of which holds its own default group: one order finds it, the other does not. */
  lemma ZoneOrderMatters(zone: string, a: string, b: string, groupA: string, groupB: string)
    requires a != b && groupA != "" && groupB != "" && groupA != groupB
    ensures var all := map[a := Appliance(zone, groupA, {}, false), b := Appliance(zone, groupB, {groupB}, false)];
      && IsOrder([a, b], all) && ZoneScan(all, zone, "", [a, b], false, false) == NotFound
      && IsOrder([b, a], all) && ZoneScan(all, zone, "", [b, a], false, false) == Found(b, groupB)
  {
    var all := map[a := Appliance(zone, groupA, {}, false), b := Appliance(zone, groupB, {groupB}, false)];
    assert [a, b][1..] == [b] && [b][1..] == [] && [b, a][1..] == [a];
    assert ZoneScan(all, zone, groupA, [b], true, false) == NotFound;
  }

  /** The zone's one default is held in the zone, but by an appliance without a default: visited first, it is passed over. */
  lemma DefaultlessHolderMatters(zone: string, x: string, y: string, group: string)
    requires x != y && group != ""
    ensures var all := map[x := Appliance(zone, "", {group}, false), y := Appliance(zone, group, {}, false)];
      && IsOrder([x, y], all) && ZoneScan(all, zone, "", [x, y], false, false) == NotFound
      && IsOrder([y, x], all) && ZoneScan(all, zone, "", [y, x], false, false) == Found(x, group)
      && Holder(all, zone, group) && !AlwaysFound(all, zone)
  {
    var all := map[x := Appliance(zone, "", {group}, false), y := Appliance(zone, group, {}, false)];
    assert [x, y][1..] == [y] && [y][1..] == [] && [y, x][1..] == [x] && [x][1..] == [];
    assert ZoneScan(all, zone, "", [y], true, false) == NotFound;
    assert HasDefault(all, zone, y) && !HeldForGood(all, zone, group);
    assert InZone(all, zone, x) && Resolves(all, x, group);
  }
}
