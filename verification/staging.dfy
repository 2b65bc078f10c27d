/** Many nodes staging volumes at once, without locks, in dynamic allocation mode with an empty context target.
    Every step below is one call to the appliance; steps of different stagings interleave freely. */
module Staging {
  import opened Wrappers
  import opened Text
  import opened Identifiers
  import opened Appliance
  import opened Allocator

  /** A target group member as the scan meets it. */
  datatype Position = Position(group: string, target: string)

  datatype Phase =
    | Scanning(todo: seq<Position>, best: Best)
    | Asking(todo: seq<Position>, best: Best, luns: nat)   // luns of todo[0] read; its CHAP setting outstanding
    | Creating(group: string)                              // target created; its group outstanding
    | Resolved(group: string)                              // the existing mappings are to be listed
    | Unmapped(group: string)                              // none was found; the mapping is to be created

  datatype Staging = Staging(volume: VolPath, hostGroup: string, prefix: string, chap: bool, phase: Phase)

  datatype World = World(
    chapTargets: set<string>,
    mappings: map<nat, Mapping>,
    stagings: map<nat, Staging>)

  datatype Action =
    | Begin(p: nat, staging: Staging)
    | Advance(p: nat)
    | CreateTarget(p: nat, uuid: string)
    | CreateMapping(p: nat, id: nat, lun: nat)
    | Abort(p: nat)                       // any call of p fails
    | Unmap(id: nat)                      // someone unpublishes or deletes a volume
    | SetChap(target: string, chap: bool)

  function LunsOf(mappings: map<nat, Mapping>, group: string): set<nat> {
    set id | id in mappings && mappings[id].targetGroup == group
  }

  function Load(w: World, group: string): nat {
    |LunsOf(w.mappings, group)|
  }

  /** The group is one the staging may yet create its mapping in. */
  predicate Claims(phase: Phase, group: string) {
    match phase
    case Scanning(_, best) => best.group != "" && best.group == group
    case Asking(todo, best, _) => (best.group != "" && best.group == group) || (todo != [] && todo[0].group == group)
    case Creating(g) => g == group
    case Resolved(g) => g == group
    case Unmapped(g) => g == group
  }

  function Claimers(stagings: map<nat, Staging>, group: string): set<nat> {
    set p | p in stagings && Claims(stagings[p].phase, group)
  }

  function WithPhase(w: World, p: nat, phase: Phase): World
    requires p in w.stagings
  {
    w.(stagings := w.stagings[p := w.stagings[p].(phase := phase)])
  }

  function Without(w: World, p: nat): World {
    w.(stagings := w.stagings - {p})
  }

  /** The next step of a staging's scan, or of what follows it, where that takes no choice. */
  function Advanced(w: World, p: nat, cap: int): World
    requires p in w.stagings
  {
    var s := w.stagings[p];
    match s.phase
    case Scanning(todo, best) =>
      if todo == [] then (if best.group == "" then w else WithPhase(w, p, Resolved(best.group)))
      else
        var luns := Load(w, todo[0].group);
        if HasPrefix(todo[0].target, s.prefix) && Improves(best, luns, cap) then WithPhase(w, p, Asking(todo, best, luns))
        else WithPhase(w, p, Scanning(todo[1..], best))
    case Asking(todo, best, luns) =>
      if todo == [] then w
      else
        var taken := (todo[0].target in w.chapTargets) == s.chap;
        WithPhase(w, p, Scanning(todo[1..], if taken then Best(luns, todo[0].group, todo[0].target) else best))
    case Creating(group) => WithPhase(w, p, Resolved(group))
    case Resolved(group) =>
      if exists id :: id in w.mappings && Matches(LunFilter(group, s.volume, s.hostGroup), w.mappings[id])
      then Without(w, p) else WithPhase(w, p, Unmapped(group))
    case Unmapped(_) => w
  }

  /** A random name that nothing uses yet. */
  predicate Unused(w: World, name: string) {
    name != "" && LunsOf(w.mappings, name) == {} && Claimers(w.stagings, name) == {}
  }

  /** One step, with at most k stagings in flight; an action that is not possible changes nothing. */
  function Next(w: World, a: Action, cap: int, k: nat): World {
    match a
    case Begin(p, staging) =>
      if p !in w.stagings && |w.stagings| < k && staging.phase.Scanning? && staging.phase.best == NONE
      then w.(stagings := w.stagings[p := staging]) else w
    case Advance(p) => if p in w.stagings then Advanced(w, p, cap) else w
    case CreateTarget(p, uuid) =>
      if p in w.stagings && w.stagings[p].phase.Scanning? && w.stagings[p].phase.todo == []
        && w.stagings[p].phase.best.group == "" && Unused(w, uuid)
      then WithPhase(w, p, Creating(uuid)) else w
    case CreateMapping(p, id, lun) =>
      if p in w.stagings && w.stagings[p].phase.Unmapped? && id !in w.mappings then
        var s := w.stagings[p];
        Without(w.(mappings := w.mappings[id := Mapping(s.phase.group, s.volume, s.hostGroup, lun)]), p)
      else w
    case Abort(p) => Without(w, p)
    case Unmap(id) => w.(mappings := w.mappings - {id})
    case SetChap(target, chap) =>
      w.(chapTargets := if chap then w.chapTargets + {target} else w.chapTargets - {target})
  }

  function Exec(w: World, actions: seq<Action>, cap: int, k: nat): World
    decreases |actions|
  {
    if actions == [] then w else Exec(Next(w, actions[0], cap, k), actions[1..], cap, k)
  }

  /* ---- left alone, a staging's steps are the scan of ResolveTargetGroup ---- */

  /** What the appliance answers about a member while nothing else happens. */
  function Observed(w: World, todo: seq<Position>): seq<Probe> {
    seq(|todo|, i requires 0 <= i < |todo| =>
      Probe(todo[i].group, Member(todo[i].target, Some(Load(w, todo[i].group)), Some(todo[i].target in w.chapTargets), true)))
  }

  predicate IsScanning(w: World, p: nat) {
    p in w.stagings && w.stagings[p].phase.Scanning?
  }

  /** The scan's outcome if the staging went on from here by itself. */
  function Outlook(w: World, p: nat, cap: int): Resolution
    requires IsScanning(w, p)
  {
    var s := w.stagings[p];
    Scan(Request(s.prefix, cap, s.chap), s.phase.best, Observed(w, s.phase.todo))
  }

  /** One or two steps take the scan past one member, as one pass of the loop body does. */
  lemma {:induction false} OneMember(w: World, p: nat, cap: int) returns (steps: nat, t: World)
    requires IsScanning(w, p) && w.stagings[p].phase.todo != []
    ensures var u := Advanced(w, p, cap);
      (steps == 1 && t == u) || (steps == 2 && p in u.stagings && t == Advanced(u, p, cap))
    ensures IsScanning(t, p) && t == WithPhase(w, p, t.stagings[p].phase)
    ensures t.stagings[p].phase.todo == w.stagings[p].phase.todo[1..]
    ensures Outlook(t, p, cap) == Outlook(w, p, cap)
  {
    var s := w.stagings[p];
    var probes := Observed(w, s.phase.todo);
    ScanOne(Request(s.prefix, cap, s.chap), s.phase.best, probes);
    steps, t := 1, Advanced(w, p, cap);
    if t.stagings[p].phase.Asking? {
      steps, t := 2, Advanced(t, p, cap);
    }
    assert Observed(t, s.phase.todo[1..]) == probes[1..];
  }

  lemma {:induction false} ExecCons(w: World, a: Action, b: seq<Action>, cap: int, k: nat)
    ensures Exec(w, [a] + b, cap, k) == Exec(Next(w, a, cap, k), b, cap, k)
  {
    assert ([a] + b)[1..] == b;
  }

  lemma {:induction false} LoneStagingScans(w: World, p: nat, cap: int, k: nat) returns (actions: seq<Action>)
    requires IsScanning(w, p)
    ensures forall i :: 0 <= i < |actions| ==> actions[i] == Advance(p)
    ensures var t := Exec(w, actions, cap, k);
      && IsScanning(t, p) && t == WithPhase(w, p, t.stagings[p].phase)
      && t.stagings[p].phase.todo == []
      && Finish(t.stagings[p].phase.best) == Outlook(w, p, cap)
    decreases |w.stagings[p].phase.todo|
  {
    actions := [];
    if w.stagings[p].phase.todo != [] {
      var steps, t := OneMember(w, p, cap);
      var rest := LoneStagingScans(t, p, cap, k);
      var w1 := Next(w, Advance(p), cap, k);
      if steps == 2 {
        ExecCons(w1, Advance(p), rest, cap, k);
        rest := [Advance(p)] + rest;
      }
      ExecCons(w, Advance(p), rest, cap, k);
      actions := [Advance(p)] + rest;
    }
  }

  predicate FoundNone(w: World, p: nat) {
    IsScanning(w, p) && w.stagings[p].phase.todo == [] && w.stagings[p].phase.best.group == ""
  }

  lemma CreatesTarget(w: World, p: nat, uuid: string, cap: int, k: nat)
    requires FoundNone(w, p) && Unused(w, uuid)
    ensures Next(w, CreateTarget(p, uuid), cap, k) == WithPhase(w, p, Creating(uuid))
    ensures forall name :: name != uuid && Unused(w, name) ==> Unused(WithPhase(w, p, Creating(uuid)), name)
  {
    forall name | name != uuid && Unused(w, name) ensures Unused(WithPhase(w, p, Creating(uuid)), name) {
      assert Claimers(WithPhase(w, p, Creating(uuid)).stagings, name) <= Claimers(w.stagings, name);
    }
  }

  /** A staging asks for a new target only if it found none to use; two that find none at once both create one. */
  lemma TwoTargetsAtOnce(w: World, p: nat, q: nat, uuid0: string, uuid1: string, cap: int, k: nat)
    requires p != q && FoundNone(w, p) && FoundNone(w, q)
    requires Unused(w, uuid0) && Unused(w, uuid1) && uuid0 != uuid1
    ensures Next(Next(w, CreateTarget(p, uuid0), cap, k), CreateTarget(q, uuid1), cap, k) ==
            WithPhase(WithPhase(w, p, Creating(uuid0)), q, Creating(uuid1))
  {
    CreatesTarget(w, p, uuid0, cap, k);
    CreatesTarget(WithPhase(w, p, Creating(uuid0)), q, uuid1, cap, k);
  }

  /* ---- no group is overfilled by more than the stagings in flight ---- */

  /** Mappings, plus stagings that may still add one, stay within the bound. */
  ghost predicate Bounded(w: World, cap: int, k: nat) {
    |w.stagings| <= k && forall g: string :: Load(w, g) + |Claimers(w.stagings, g)| <= cap + k - 1
  }

  lemma SubsetSize<T>(a: set<T>, b: set<T>)
    requires a <= b
    ensures |a| <= |b|
  {
    if a != {} {
      var x :| x in a;
      SubsetSize(a - {x}, b - {x});
    }
  }

  lemma ClaimersSize(w: World, g: string)
    ensures |Claimers(w.stagings, g)| <= |w.stagings|
  {
    SubsetSize(Claimers(w.stagings, g), w.stagings.Keys);
  }

  lemma SameKeys(m: map<nat, Staging>, n: map<nat, Staging>)
    requires m.Keys == n.Keys
    ensures |m| == |n|
  {
    assert |m| == |m.Keys| && |n| == |n.Keys|;
  }

  /** A staging that claims no new group leaves the bound standing. */
  lemma {:induction false} ClaimNothingNew(w: World, t: World, cap: int, k: nat)
    requires Bounded(w, cap, k) && |t.stagings| <= k
    requires forall id :: id in t.mappings ==> id in w.mappings && t.mappings[id] == w.mappings[id]
    requires forall g: string :: Claimers(t.stagings, g) <= Claimers(w.stagings, g)
    ensures Bounded(t, cap, k)
  {
    forall g: string ensures Load(t, g) + |Claimers(t.stagings, g)| <= cap + k - 1 {
      SubsetSize(Claimers(t.stagings, g), Claimers(w.stagings, g));
      SubsetSize(LunsOf(t.mappings, g), LunsOf(w.mappings, g));
    }
  }

  /** A staging that newly claims a group found below the cap does, too. */
  lemma {:induction false} ClaimBelowCap(w: World, t: World, group: string, cap: int, k: nat)
    requires Bounded(w, cap, k) && |t.stagings| <= k && t.mappings == w.mappings && Load(w, group) < cap
    requires forall g: string :: g != group ==> Claimers(t.stagings, g) <= Claimers(w.stagings, g)
    ensures Bounded(t, cap, k)
  {
    forall g: string ensures Load(t, g) + |Claimers(t.stagings, g)| <= cap + k - 1 {
      ClaimersSize(t, g);
      if g != group {
        SubsetSize(Claimers(t.stagings, g), Claimers(w.stagings, g));
      }
      assert LunsOf(t.mappings, g) == LunsOf(w.mappings, g);
    }
  }

  lemma {:induction false} AdvancedKeepsBound(w: World, p: nat, cap: int, k: nat)
    requires Bounded(w, cap, k) && p in w.stagings
    ensures Bounded(Advanced(w, p, cap), cap, k)
  {
    var t := Advanced(w, p, cap);
    var phase := w.stagings[p].phase;
    if p in t.stagings {
      SameKeys(t.stagings, w.stagings);
    } else {
      assert |t.stagings| == |w.stagings| - 1;
    }
    if phase.Scanning? && phase.todo != [] && t == WithPhase(w, p, Asking(phase.todo, phase.best, Load(w, phase.todo[0].group))) {
      ClaimBelowCap(w, t, phase.todo[0].group, cap, k);
    } else {
      ClaimNothingNew(w, t, cap, k);
    }
  }

  lemma OneMoreMapping(before: map<nat, Mapping>, id: nat, m: Mapping, g: string)
    requires id !in before
    ensures |LunsOf(before[id := m], g)| == |LunsOf(before, g)| + if g == m.targetGroup then 1 else 0
  {
    var luns, after := LunsOf(before, g), LunsOf(before[id := m], g);
    assert id !in luns;
    if g == m.targetGroup {
      assert after == luns + {id};
    } else {
      assert after == luns;
    }
  }

  lemma OneStagingLess(before: map<nat, Staging>, p: nat, g: string)
    requires p in before
    ensures |Claimers(before - {p}, g)| == |Claimers(before, g)| - if Claims(before[p].phase, g) then 1 else 0
  {
    var claimers := Claimers(before, g);
    assert Claimers(before - {p}, g) == claimers - {p};
    assert p in claimers <==> Claims(before[p].phase, g);
  }

  lemma CreateMappingKeepsBound(w: World, p: nat, id: nat, lun: nat, cap: int, k: nat)
    requires Bounded(w, cap, k)
    ensures Bounded(Next(w, CreateMapping(p, id, lun), cap, k), cap, k)
  {
    var t := Next(w, CreateMapping(p, id, lun), cap, k);
    if p in w.stagings && w.stagings[p].phase.Unmapped? && id !in w.mappings {
      var s := w.stagings[p];
      var m := Mapping(s.phase.group, s.volume, s.hostGroup, lun);
      assert |t.stagings| == |w.stagings| - 1;
      forall g: string ensures Load(t, g) + |Claimers(t.stagings, g)| <= cap + k - 1 {
        assert Load(w, g) + |Claimers(w.stagings, g)| <= cap + k - 1;
        OneMoreMapping(w.mappings, id, m, g);
        OneStagingLess(w.stagings, p, g);
      }
    }
  }

  lemma {:induction false} BeginKeepsBound(w: World, p: nat, staging: Staging, cap: int, k: nat)
    requires Bounded(w, cap, k) && p !in w.stagings && |w.stagings| < k
    requires staging.phase.Scanning? && staging.phase.best == NONE
    ensures Bounded(w.(stagings := w.stagings[p := staging]), cap, k)
  {
    var t := w.(stagings := w.stagings[p := staging]);
    assert t.stagings.Keys == w.stagings.Keys + {p};
    assert |t.stagings| == |t.stagings.Keys| && |w.stagings| == |w.stagings.Keys|;
    forall g: string ensures Claimers(t.stagings, g) <= Claimers(w.stagings, g) {
    }
    ClaimNothingNew(w, t, cap, k);
  }

  lemma {:induction false} CreateTargetKeepsBound(w: World, p: nat, uuid: string, cap: int, k: nat)
    requires Bounded(w, cap, k) && 1 <= cap && p in w.stagings && Unused(w, uuid)
    ensures Bounded(WithPhase(w, p, Creating(uuid)), cap, k)
  {
    var t := WithPhase(w, p, Creating(uuid));
    SameKeys(t.stagings, w.stagings);
    ClaimBelowCap(w, t, uuid, cap, k);
  }

  lemma {:induction false} AbortKeepsBound(w: World, p: nat, cap: int, k: nat)
    requires Bounded(w, cap, k)
    ensures Bounded(Without(w, p), cap, k)
  {
    SubsetSize(Without(w, p).stagings.Keys, w.stagings.Keys);
    ClaimNothingNew(w, Without(w, p), cap, k);
  }

  lemma {:induction false} OthersKeepBound(w: World, t: World, cap: int, k: nat)
    requires Bounded(w, cap, k) && t.stagings == w.stagings
    requires forall id :: id in t.mappings ==> id in w.mappings && t.mappings[id] == w.mappings[id]
    ensures Bounded(t, cap, k)
  {
    ClaimNothingNew(w, t, cap, k);
  }

  lemma {:induction false} NextKeepsBound(w: World, a: Action, cap: int, k: nat)
    requires Bounded(w, cap, k) && 1 <= cap && 1 <= k
    ensures Bounded(Next(w, a, cap, k), cap, k)
  {
    var t := Next(w, a, cap, k);
    if t != w {
      match a {
        case Begin(p, staging) => BeginKeepsBound(w, p, staging, cap, k);
        case Advance(p) => AdvancedKeepsBound(w, p, cap, k);
        case CreateTarget(p, uuid) => CreateTargetKeepsBound(w, p, uuid, cap, k);
        case CreateMapping(p, id, lun) => CreateMappingKeepsBound(w, p, id, lun, cap, k);
        case Abort(p) => AbortKeepsBound(w, p, cap, k);
        case Unmap(id) => OthersKeepBound(w, t, cap, k);
        case SetChap(_, _) => OthersKeepBound(w, t, cap, k);
      }
    }
  }

  lemma {:induction false} ExecKeepsBound(w: World, actions: seq<Action>, cap: int, k: nat)
    requires Bounded(w, cap, k) && 1 <= cap && 1 <= k
    ensures Bounded(Exec(w, actions, cap, k), cap, k)
    decreases |actions|
  {
    if actions != [] {
      NextKeepsBound(w, actions[0], cap, k);
      ExecKeepsBound(Next(w, actions[0], cap, k), actions[1..], cap, k);
    }
  }

  /** In every interleaving of at most k stagings, over groups that start at or below the cap N, no target group
      ever holds more than N + k - 1 mappings: exactly the cap when stagings come one at a time. */
  lemma {:induction false} NoGroupOvershoots(w: World, actions: seq<Action>, cap: int, k: nat, group: string)
    requires 1 <= cap && 1 <= k
    requires w.stagings == map[] && forall g: string :: Load(w, g) <= cap
    ensures Load(Exec(w, actions, cap, k), group) <= cap + k - 1
  {
    forall g: string ensures Load(w, g) + |Claimers(w.stagings, g)| <= cap + k - 1 {
      assert Claimers(w.stagings, g) == {};
    }
    ExecKeepsBound(w, actions, cap, k);
    var t := Exec(w, actions, cap, k);
    assert Load(t, group) + |Claimers(t.stagings, group)| <= cap + k - 1;
  }

  /* ---- and the bound is reached ---- */

  /** What the stagings of the run below ask for, each for its own volume, and the one target group member they meet. */
  datatype Scene = Scene(position: Position, volumes: nat -> VolPath, hostGroup: string, prefix: string) {
    ghost predicate Valid() {
      && position.group != "" && HasPrefix(position.target, prefix)
      && forall p, q: nat :: volumes(p) == volumes(q) ==> p == q
    }

    function Newcomer(p: nat, phase: Phase): Staging {
      Staging(volumes(p), hostGroup, prefix, false, phase)
    }

    function Mine(p: nat, lun: nat): Mapping {
      Mapping(position.group, volumes(p), hostGroup, lun)
    }

    function Chosen(luns: nat): Best {
      Best(luns, position.group, position.target)
    }
  }

  ghost predicate IsBelow(s: set<nat>, n: nat) {
    forall i: int :: i in s <==> 0 <= i < n
  }

  function Below(n: nat): (s: set<nat>)
    ensures IsBelow(s, n)
  {
    if n == 0 then {} else Below(n - 1) + {n - 1}
  }

  lemma {:induction false} SizeBelow(s: set<nat>, n: nat)
    requires IsBelow(s, n)
    ensures |s| == n
  {
    if n > 0 {
      SizeBelow(s - {n - 1}, n - 1);
    } else {
      assert s == {};
    }
  }

  /** Every mapping is of another volume and has another LUN. */
  ghost predicate Distinct(mappings: map<nat, Mapping>) {
    forall i, j :: i in mappings && j in mappings && i != j ==>
      mappings[i].volume != mappings[j].volume && mappings[i].lun != mappings[j].lun
  }

  /** No mapping is of a volume that stagings 0 .. i are for. */
  ghost predicate NoneFor(sc: Scene, mappings: map<nat, Mapping>, i: nat) {
    forall id, p: nat :: id in mappings && p < i ==> mappings[id].volume != sc.volumes(p)
  }

  /** The appliance's n mappings are all in the scene's group; stagings 0 .. i have found that it has room for them. */
  ghost predicate Waiting(sc: Scene, w: World, n: nat, i: nat) {
    && IsBelow(w.mappings.Keys, n)
    && (forall id :: id in w.mappings ==> w.mappings[id].targetGroup == sc.position.group && w.mappings[id].lun == id)
    && Distinct(w.mappings) && NoneFor(sc, w.mappings, i)
    && IsBelow(w.stagings.Keys, i)
    && (forall p :: p in w.stagings ==> w.stagings[p] == sc.Newcomer(p, Unmapped(sc.position.group)))
  }

  /** And none is of a volume any of the k stagings is for; no target wants CHAP. */
  ghost predicate Early(sc: Scene, w: World, n: nat, i: nat, k: nat) {
    Waiting(sc, w, n, i) && w.chapTargets == {} && NoneFor(sc, w.mappings, k)
  }

  /** The steps of one staging up to where its mapping is to be created. */
  function Approach(sc: Scene, p: nat): seq<Action> {
    [Begin(p, sc.Newcomer(p, Scanning([sc.position], NONE))), Advance(p), Advance(p), Advance(p), Advance(p)]
  }

  lemma {:induction false} ExecConcat(w: World, a: seq<Action>, b: seq<Action>, cap: int, k: nat)
    ensures Exec(w, a + b, cap, k) == Exec(Exec(w, a, cap, k), b, cap, k)
    decreases |a|
  {
    if a == [] {
      assert a + b == b;
    } else {
      assert (a + b)[1..] == a[1..] + b;
      ExecConcat(Next(w, a[0], cap, k), a[1..], b, cap, k);
    }
  }

  lemma {:induction false} ExecFive(w: World, a: seq<Action>, cap: int, k: nat)
    requires |a| == 5
    ensures Exec(w, a, cap, k) ==
      Next(Next(Next(Next(Next(w, a[0], cap, k), a[1], cap, k), a[2], cap, k), a[3], cap, k), a[4], cap, k)
  {
    var w2 := Next(Next(w, a[0], cap, k), a[1], cap, k);
    assert Exec(w2, a[2..], cap, k) == Next(Next(Next(w2, a[2], cap, k), a[3], cap, k), a[4], cap, k) by {
      var w4 := Next(Next(w2, a[2], cap, k), a[3], cap, k);
      assert a[4..][1..] == [];
      assert Exec(w4, a[4..], cap, k) == Next(w4, a[4], cap, k);
      assert a[2..][1..] == a[3..] && a[3..][1..] == a[4..];
    }
    assert a[1..][1..] == a[2..];
  }

  lemma {:induction false} WaitingLoad(sc: Scene, w: World, n: nat, i: nat)
    requires Waiting(sc, w, n, i)
    ensures Load(w, sc.position.group) == n && |w.stagings| == i
  {
    SizeBelow(LunsOf(w.mappings, sc.position.group), n);
    SizeBelow(w.stagings.Keys, i);
    assert |w.stagings| == |w.stagings.Keys|;
  }

  function At(sc: Scene, w: World, p: nat, phase: Phase): World {
    w.(stagings := w.stagings[p := sc.Newcomer(p, phase)])
  }

  lemma AtWithPhase(sc: Scene, w: World, p: nat, before: Phase, after: Phase)
    ensures WithPhase(At(sc, w, p, before), p, after) == At(sc, w, p, after)
  {
  }

  /** A newcomer reads the group's load, finds the target's CHAP setting as it wants it, and ends its scan. */
  lemma {:induction false} ScanSteps(sc: Scene, w: World, i: nat, cap: int)
    requires sc.Valid() && Load(w, sc.position.group) == cap - 1 && w.chapTargets == {}
    ensures Advanced(At(sc, w, i, Scanning([sc.position], NONE)), i, cap) == At(sc, w, i, Asking([sc.position], NONE, cap - 1))
    ensures Advanced(At(sc, w, i, Asking([sc.position], NONE, cap - 1)), i, cap) == At(sc, w, i, Scanning([], sc.Chosen(cap - 1)))
    ensures Advanced(At(sc, w, i, Scanning([], sc.Chosen(cap - 1))), i, cap) == At(sc, w, i, Resolved(sc.position.group))
  {
    assert [sc.position][1..] == [];
    AtWithPhase(sc, w, i, Scanning([sc.position], NONE), Asking([sc.position], NONE, cap - 1));
    AtWithPhase(sc, w, i, Asking([sc.position], NONE, cap - 1), Scanning([], sc.Chosen(cap - 1)));
    AtWithPhase(sc, w, i, Scanning([], sc.Chosen(cap - 1)), Resolved(sc.position.group));
  }

  /** It finds no mapping of its own, and is about to create one. */
  lemma {:induction false} CheckStep(sc: Scene, w: World, i: nat, cap: int)
    requires forall id :: id in w.mappings ==> w.mappings[id].volume != sc.volumes(i)
    ensures Advanced(At(sc, w, i, Resolved(sc.position.group)), i, cap) == At(sc, w, i, Unmapped(sc.position.group))
  {
    AtWithPhase(sc, w, i, Resolved(sc.position.group), Unmapped(sc.position.group));
  }

  lemma {:induction false} OneApproaches(sc: Scene, w: World, cap: int, k: nat, i: nat) returns (a: seq<Action>)
    requires sc.Valid() && 1 <= cap && i < k && Early(sc, w, cap - 1, i, k)
    ensures Early(sc, Exec(w, a, cap, k), cap - 1, i + 1, k)
  {
    WaitingLoad(sc, w, cap - 1, i);
    a := Approach(sc, i);
    assert Next(w, a[0], cap, k) == At(sc, w, i, Scanning([sc.position], NONE));
    ScanSteps(sc, w, i, cap);
    CheckStep(sc, w, i, cap);
    ExecFive(w, a, cap, k);
    assert Exec(w, a, cap, k) == At(sc, w, i, Unmapped(sc.position.group));
    OneMoreWaiting(sc, w, cap - 1, i, k);
  }

  lemma OneMoreWaiting(sc: Scene, w: World, n: nat, i: nat, k: nat)
    requires Early(sc, w, n, i, k) && i < k
    ensures Early(sc, At(sc, w, i, Unmapped(sc.position.group)), n, i + 1, k)
  {
  }

  /** i stagings one after the other come to the point where their mapping is to be created. */
  lemma {:induction false} AllApproach(sc: Scene, w: World, cap: int, k: nat, i: nat) returns (actions: seq<Action>)
    requires sc.Valid() && 1 <= cap && i <= k && Early(sc, w, cap - 1, 0, k)
    ensures Early(sc, Exec(w, actions, cap, k), cap - 1, i, k)
  {
    actions := [];
    if i > 0 {
      var before := AllApproach(sc, w, cap, k, i - 1);
      var last := OneApproaches(sc, Exec(w, before, cap, k), cap, k, i - 1);
      ExecConcat(w, before, last, cap, k);
      actions := before + last;
    }
  }

  lemma CreateEffect(sc: Scene, w: World, p: nat, id: nat, cap: int, k: nat)
    requires p in w.stagings && w.stagings[p] == sc.Newcomer(p, Unmapped(sc.position.group)) && id !in w.mappings
    ensures var t := Next(w, CreateMapping(p, id, id), cap, k);
      t.mappings == w.mappings[id := sc.Mine(p, id)] && t.stagings == w.stagings - {p}
  {
  }

  lemma {:induction false} OneCreates(sc: Scene, w: World, t: World, n: nat, i: nat)
    requires sc.Valid() && i > 0 && Waiting(sc, w, n, i)
    requires t.mappings == w.mappings[n := sc.Mine(i - 1, n)] && t.stagings == w.stagings - {i - 1}
    ensures Waiting(sc, t, n + 1, i - 1)
  {
  }

  /** And each of the i creates it. */
  lemma {:induction false} AllCreate(sc: Scene, w: World, n: nat, i: nat, cap: int, k: nat) returns (actions: seq<Action>)
    requires sc.Valid() && Waiting(sc, w, n, i)
    ensures Load(Exec(w, actions, cap, k), sc.position.group) == n + i && Distinct(Exec(w, actions, cap, k).mappings)
    decreases i
  {
    if i == 0 {
      actions := [];
      WaitingLoad(sc, w, n, i);
    } else {
      var t := Next(w, CreateMapping(i - 1, n, n), cap, k);
      CreateEffect(sc, w, i - 1, n, cap, k);
      OneCreates(sc, w, t, n, i);
      var rest := AllCreate(sc, t, n + 1, i - 1, cap, k);
      ExecCons(w, CreateMapping(i - 1, n, n), rest, cap, k);
      actions := [CreateMapping(i - 1, n, n)] + rest;
    }
  }

  lemma {:induction false} StartWith(sc: Scene, n: nat, k: nat) returns (w: World)
    requires sc.Valid()
    ensures Early(sc, w, n, 0, k) && w.stagings == map[]
    ensures forall g: string :: Load(w, g) <= n
  {
    w := World({}, map id {:trigger id in Below(n)} | id in Below(n) :: sc.Mine(k + id, id), map[]);
    SizeBelow(Below(n), n);
    forall g: string ensures Load(w, g) <= n {
      SubsetSize(LunsOf(w.mappings, g), Below(n));
    }
  }

  /** For every cap, every number of stagings and every target group there is a run that fills the group to
      N + k - 1: all k read the group's load before any of them creates its mapping. Each mapping is of a volume of
      its own and has a LUN of its own, so the appliance has no reason to refuse one. */
  lemma {:induction false} BoundIsReached(sc: Scene, cap: int, k: nat) returns (w: World, actions: seq<Action>)
    requires sc.Valid() && 1 <= cap && 1 <= k
    ensures w.stagings == map[] && forall g: string :: Load(w, g) <= cap
    ensures Load(Exec(w, actions, cap, k), sc.position.group) == cap + k - 1 && Distinct(Exec(w, actions, cap, k).mappings)
  {
    w := StartWith(sc, cap - 1, k);
    var approach := AllApproach(sc, w, cap, k, k);
    var creation := AllCreate(sc, Exec(w, approach, cap, k), cap - 1, k, cap, k);
    ExecConcat(w, approach, creation, cap, k);
    actions := approach + creation;
  }
}
