/** One whole staging in dynamic mode, scan and mapping check together, and what repeating it does. The request names no
    target group: each call scans anew, and looks for a mapping only in the group it finds this time. */
module Restaging {
  import opened Wrappers
  import opened Text
  import opened Identifiers
  import opened Appliance
  import opened Allocator
  import opened Promises
  import Lifecycle
  import Staging

  /* ---- the scan, when a group has one mapping more ---- */

  function OneMore(p: Probe, group: string): Probe
    requires Answered(p.member)
  {
    if p.group == group then p.(member := p.member.(luns := Some(Luns(p) + 1))) else p
  }

  function AllOneMore(probes: seq<Probe>, group: string): (t: seq<Probe>)
    requires AllAnswered(probes)
    ensures AllAnswered(t) && |t| == |probes|
    ensures forall i :: 0 <= i < |t| ==> t[i] == OneMore(probes[i], group)
  {
    seq(|probes|, i requires 0 <= i < |probes| => OneMore(probes[i], group))
  }

  /** The members of the group are all met with its number of mappings. */
  predicate HasLuns(probes: seq<Probe>, group: string, luns: nat)
    requires AllAnswered(probes)
  {
    forall i :: 0 <= i < |probes| && probes[i].group == group ==> Luns(probes[i]) == luns
  }

  /** The position of the last empty one of another group, -1 when there is none. */
  function LastEmptyElse(e: seq<Probe>, group: string): (z: int)
    requires AllAnswered(e)
    ensures -1 <= z < |e|
    ensures z >= 0 ==> Luns(e[z]) == 0 && e[z].group != group
    ensures forall j :: z < j < |e| ==> Luns(e[j]) > 0 || e[j].group == group
  {
    if e == [] then -1
    else if Luns(e[|e| - 1]) == 0 && e[|e| - 1].group != group then |e| - 1
    else LastEmptyElse(e[..|e| - 1], group)
  }

  /** After the last other empty one, the group with one mapping more is still met first with the fewest. */
  predicate StaysAt(e: seq<Probe>, group: string, luns: nat, k: int)
    requires AllAnswered(e)
  {
    && LastEmptyElse(e, group) < k < |e| && e[k].group == group
    && (forall j :: LastEmptyElse(e, group) < j < k ==> Luns(e[j]) > luns + 1)
    && (forall j :: k < j < |e| && e[j].group != group ==> Luns(e[j]) >= luns + 1)
  }

  /** The eligible members e still lead to the group when it has one more than its `luns` mappings. */
  predicate Stays(e: seq<Probe>, group: string, luns: nat, cap: int)
    requires AllAnswered(e)
  {
    luns + 1 < cap && exists k :: 0 <= k < |e| && StaysAt(e, group, luns, k)
  }

  lemma EligibleHaveLuns(req: Request, probes: seq<Probe>, group: string, luns: nat)
    requires AllAnswered(probes) && HasLuns(probes, group, luns)
    ensures HasLuns(EligibleProbes(req, probes), group, luns)
  {
    var e := EligibleProbes(req, probes);
    forall i | 0 <= i < |e| && e[i].group == group ensures Luns(e[i]) == luns {
      assert e[i] in e && e[i] in probes;
    }
  }

  lemma OneMoreOfCons(p: Probe, rest: seq<Probe>, group: string)
    requires Answered(p.member) && AllAnswered(rest)
    ensures AllAnswered([p] + rest) && AllOneMore([p] + rest, group) == [OneMore(p, group)] + AllOneMore(rest, group)
  {
  }

  lemma {:induction false} EligibleOneMore(req: Request, probes: seq<Probe>, group: string, luns: nat)
    requires AllAnswered(probes) && HasLuns(probes, group, luns) && luns + 1 < req.cap
    ensures EligibleProbes(req, AllOneMore(probes, group)) == AllOneMore(EligibleProbes(req, probes), group)
  {
    if probes != [] {
      var first, rest := probes[0], probes[1..];
      EligibleOneMore(req, rest, group, luns);
      assert probes == [first] + rest;
      OneMoreOfCons(first, rest, group);
      assert AllOneMore(probes, group)[1..] == AllOneMore(rest, group);
      if Eligible(req, first.member) {
        OneMoreOfCons(first, EligibleProbes(req, rest), group);
      }
    }
  }

  lemma LastEmptyOneMore(e: seq<Probe>, group: string)
    requires AllAnswered(e)
    ensures LastEmpty(AllOneMore(e, group)) == LastEmptyElse(e, group)
  {
    var t := AllOneMore(e, group);
    assert forall j :: 0 <= j < |e| ==> (Luns(t[j]) == 0 <==> Luns(e[j]) == 0 && e[j].group != group);
  }

  /** What it takes for one that is not empty to be chosen. */
  lemma LoadedChosen(e: seq<Probe>, k: nat)
    requires AllAnswered(e) && k < |e| && Luns(e[k]) > 0
    ensures Chosen(e, k) <==>
      && LastEmpty(e) < k
      && (forall j :: LastEmpty(e) < j < |e| ==> Luns(e[k]) <= Luns(e[j]))
      && (forall j :: LastEmpty(e) < j < k ==> Luns(e[k]) < Luns(e[j]))
  {
  }

  lemma LunsOneMore(e: seq<Probe>, group: string, luns: nat)
    requires AllAnswered(e) && HasLuns(e, group, luns)
    ensures forall j :: 0 <= j < |e| ==> Luns(AllOneMore(e, group)[j]) == if e[j].group == group then luns + 1 else Luns(e[j])
  {
  }

  lemma StaysIfChosen(e: seq<Probe>, group: string, luns: nat, k: nat)
    requires AllAnswered(e) && HasLuns(e, group, luns) && k < |e| && e[k].group == group
    requires Chosen(AllOneMore(e, group), k)
    ensures StaysAt(e, group, luns, k)
  {
    var t, z := AllOneMore(e, group), LastEmptyElse(e, group);
    LunsOneMore(e, group, luns);
    LastEmptyOneMore(e, group);
    LoadedChosen(t, k);
    forall j | z < j < k ensures Luns(e[j]) > luns + 1 {
      assert Luns(t[k]) < Luns(t[j]);
    }
    forall j | k < j < |e| && e[j].group != group ensures Luns(e[j]) >= luns + 1 {
      assert Luns(t[k]) <= Luns(t[j]);
    }
  }

  lemma ChosenIfStays(e: seq<Probe>, group: string, luns: nat, k: nat)
    requires AllAnswered(e) && HasLuns(e, group, luns) && StaysAt(e, group, luns, k)
    ensures Chosen(AllOneMore(e, group), k)
  {
    var t, z := AllOneMore(e, group), LastEmptyElse(e, group);
    LunsOneMore(e, group, luns);
    LastEmptyOneMore(e, group);
    forall j | z < j < |e| ensures Luns(t[k]) <= Luns(t[j]) && (j < k ==> Luns(t[k]) < Luns(t[j])) {
      assert j < k ==> Luns(e[j]) > luns + 1;
    }
    LoadedChosen(t, k);
  }

  lemma ChosenStays(e: seq<Probe>, group: string, luns: nat, k: nat)
    requires AllAnswered(e) && HasLuns(e, group, luns) && k < |e| && e[k].group == group
    ensures Chosen(AllOneMore(e, group), k) <==> StaysAt(e, group, luns, k)
  {
    if Chosen(AllOneMore(e, group), k) {
      StaysIfChosen(e, group, luns, k);
    } else if StaysAt(e, group, luns, k) {
      ChosenIfStays(e, group, luns, k);
    }
  }

  /** The scan leads to the group that has got one more mapping exactly if it stays. */
  lemma {:induction false} RescanExactly(req: Request, probes: seq<Probe>, group: string, luns: nat)
    requires AllAnswered(probes) && HasLuns(probes, group, luns)
    requires forall i :: 0 <= i < |probes| ==> probes[i].group != ""
    ensures var r := Scan(req, NONE, AllOneMore(probes, group));
      r.Use? && r.group == group <==> Stays(EligibleProbes(req, probes), group, luns, req.cap)
  {
    var more := AllOneMore(probes, group);
    var e, t := EligibleProbes(req, probes), EligibleProbes(req, more);
    var k := ScanChoosesBest(req, more);
    if luns + 1 >= req.cap {
      forall p | p in t ensures p.group != group {
        assert p in more && Eligible(req, p.member);
      }
      assert t != [] ==> t[k] in t;
    } else {
      EligibleOneMore(req, probes, group, luns);
      EligibleHaveLuns(req, probes, group, luns);
      if t != [] {
        assert t[k].group == e[k].group;
        if t[k].group == group {
          ChosenStays(e, group, luns, k);
        }
        if i :| 0 <= i < |e| && StaysAt(e, group, luns, i) {
          ChosenStays(e, group, luns, i);
          ChosenUnique(t, i, k);
        }
      }
    }
  }

  predicate DistinctGroups(e: seq<Probe>) {
    forall i, j :: 0 <= i < j < |e| ==> e[i].group != e[j].group
  }

  /** With one eligible member to a group: what the chosen one's neighbours must have for it to stay. */
  lemma StaysAmongDistinct(e: seq<Probe>, k: nat, cap: int)
    requires AllAnswered(e) && DistinctGroups(e) && Chosen(e, k)
    ensures var luns, z := Luns(e[k]), LastEmptyElse(e, e[k].group);
      Stays(e, e[k].group, luns, cap) <==>
        && luns + 1 < cap
        && (forall j :: z < j < k ==> Luns(e[j]) > luns + 1)
        && (forall j :: k < j < |e| ==> Luns(e[j]) >= luns + 1)
  {
    assert forall j :: 0 <= j < |e| && e[j].group == e[k].group ==> j == k;
    assert LastEmptyElse(e, e[k].group) < k;
    assert StaysAt(e, e[k].group, Luns(e[k]), k) || !exists j :: 0 <= j < |e| && StaysAt(e, e[k].group, Luns(e[k]), j);
  }

  /* ---- the whole call ---- */

  /** The appliance, with the members of its target groups in the order of the listing. */
  datatype Site = Site(state: State, positions: seq<Staging.Position>, chapTargets: set<string>)

  /** What a staging is for; the context names no target. */
  datatype Call = Call(req: Request, volume: VolPath, hostGroup: string)

  /** A random name, the place a new group takes in the listing, and the id and LUN of a new mapping. */
  datatype Choice = Choice(uuid: string, at: nat, id: nat, lun: nat)

  function Seen(w: Site): (probes: seq<Probe>)
    ensures AllAnswered(probes) && |probes| == |w.positions|
  {
    Staging.Observed(Staging.World(w.chapTargets, w.state.mappings, map[]), w.positions)
  }

  function Load(w: Site, group: string): nat {
    |Staging.LunsOf(w.state.mappings, group)|
  }

  function Resolve(w: Site, c: Call): Resolution {
    Scan(c.req, NONE, Seen(w))
  }

  function Created(c: Call, uuid: string): Names {
    NewNames(Context("", "", c.req.prefix, c.req.chap), uuid)
  }

  function WithTarget(w: Site, c: Call, ch: Choice): Site
    requires ch.at <= |w.positions|
  {
    var names := Created(c, ch.uuid);
    w.(positions := w.positions[..ch.at] + [Staging.Position(names.group, names.target)] + w.positions[ch.at..],
       chapTargets := if c.req.chap then w.chapTargets + {names.target} else w.chapTargets)
  }

  function WithMapping(w: Site, group: string, c: Call, ch: Choice): Site {
    w.(state := Lifecycle.After(Lifecycle.Stage(group, c.volume, c.hostGroup, ch.id, ch.lun), w.state))
  }

  /** NodeStageVolume up to the LUN: resolve a target group, make one if there is none, map the volume if it is not. */
  function Staged(w: Site, c: Call, ch: Choice): Site
    requires ch.at <= |w.positions|
  {
    match Resolve(w, c)
    case Use(_, group) => WithMapping(w, group, c, ch)
    case CreateNew => WithMapping(WithTarget(w, c, ch), Created(c, ch.uuid).group, c, ch)
    case _ => w
  }

  predicate Mapped(w: Site, c: Call, group: string) {
    LunIds(w.state, LunFilter(group, c.volume, c.hostGroup)) != {}
  }

  /** No group maps the volume to the node yet. */
  predicate Unmapped(w: Site, c: Call) {
    forall id :: id in w.state.mappings ==> !Matches(LunFilter("", c.volume, c.hostGroup), w.state.mappings[id])
  }

  predicate Named(w: Site) {
    forall i :: 0 <= i < |w.positions| ==> w.positions[i].group != ""
  }

  /** The name and the mapping id are fresh. */
  predicate Enabled(w: Site, c: Call, ch: Choice) {
    && ch.at <= |w.positions| && ch.id !in w.state.mappings && ch.uuid != ""
    && Staging.LunsOf(w.state.mappings, ch.uuid) == {}
    && (forall i :: 0 <= i < |w.positions| ==>
          w.positions[i].group != ch.uuid && w.positions[i].target != Created(c, ch.uuid).target)
    && Created(c, ch.uuid).target !in w.chapTargets
  }

  lemma ResolveIsUse(w: Site, c: Call)
    requires Named(w)
    ensures var r := Resolve(w, c);
      (r.Use? && r.group != "") || (r == CreateNew && EligibleProbes(c.req, Seen(w)) == [])
  {
    assert forall i :: 0 <= i < |w.positions| ==> Seen(w)[i].group == w.positions[i].group;
    var k := ScanChoosesBest(c.req, Seen(w));
    var e := EligibleProbes(c.req, Seen(w));
    if e != [] {
      assert e[k] in e && e[k] in Seen(w);
    }
  }

  /** A staging of an existing volume leaves the appliance as it is exactly when the scan happens on a group that maps the
      volume to the node already. */
  lemma {:induction false} UnchangedExactly(w: Site, c: Call, ch: Choice)
    requires Named(w) && Enabled(w, c, ch) && c.volume in w.state.volumes
    ensures Staged(w, c, ch) == w <==> Resolve(w, c).Use? && Mapped(w, c, Resolve(w, c).group)
  {
    ResolveIsUse(w, c);
    var t := Staged(w, c, ch);
    if Resolve(w, c).Use? {
      if !Mapped(w, c, Resolve(w, c).group) {
        assert ch.id in t.state.mappings;
      }
    } else {
      assert |t.positions| == |w.positions| + 1;
    }
  }

  /** A staging maps the volume, in the group its scan leads to; one that leads to none adds a target, listed in a group of
      its own name, and maps the volume there. */
  lemma {:induction false} StagingMaps(w: Site, c: Call, ch: Choice)
    requires Named(w) && Enabled(w, c, ch) && c.volume in w.state.volumes
    ensures var t, r := Staged(w, c, ch), Resolve(w, c);
      if r.Use? then
        && VolumeMapped(w.state, t.state, r.group, c.volume, c.hostGroup, ch.id)
        && t == w.(state := t.state)
      else
        && VolumeMapped(w.state, t.state, ch.uuid, c.volume, c.hostGroup, ch.id)
        && |t.positions| == |w.positions| + 1
        && t.positions[ch.at] == Staging.Position(ch.uuid, c.req.prefix + ":" + ch.uuid)
        && t.positions[..ch.at] + t.positions[ch.at + 1..] == w.positions
  {
    ResolveIsUse(w, c);
    var r := Resolve(w, c);
    StageKeepsPromise(w.state, if r.Use? then r.group else ch.uuid, c.volume, c.hostGroup, ch.id, ch.lun);
    NewNamesExactly(Context("", "", c.req.prefix, c.req.chap), ch.uuid);
  }

  /** What a new mapping changes in the next scan. */
  lemma {:induction false} SeenAfterMapping(w: Site, group: string, c: Call, ch: Choice)
    requires ch.id !in w.state.mappings && c.volume in w.state.volumes && !Mapped(w, c, group)
    ensures Seen(WithMapping(w, group, c, ch)) == AllOneMore(Seen(w), group)
    ensures HasLuns(Seen(w), group, Load(w, group))
    ensures forall g :: Mapped(WithMapping(w, group, c, ch), c, g) <==> Mapped(w, c, g) || g == group || g == ""
  {
    var t := WithMapping(w, group, c, ch);
    var m := Appliance.Mapping(group, c.volume, c.hostGroup, ch.lun);
    assert t.state.mappings == w.state.mappings[ch.id := m];
    forall g: string ensures Load(t, g) == Load(w, g) + if g == group then 1 else 0 {
      Staging.OneMoreMapping(w.state.mappings, ch.id, m, g);
    }
    forall i | 0 <= i < |w.positions| ensures Seen(t)[i] == AllOneMore(Seen(w), group)[i] {
      assert Load(t, w.positions[i].group) == Load(w, w.positions[i].group) + if w.positions[i].group == group then 1 else 0;
    }
    forall g ensures Mapped(t, c, g) <==> Mapped(w, c, g) || g == group || g == "" {
      var f := LunFilter(g, c.volume, c.hostGroup);
      assert forall id :: id in w.state.mappings ==> (id in LunIds(t.state, f) <==> id in LunIds(w.state, f));
      assert ch.id in LunIds(t.state, f) <==> g == group || g == "";
      if id :| id in LunIds(t.state, f) && id != ch.id {
        assert id in LunIds(w.state, f);
      }
    }
  }

  lemma SeenElsewhere(w: Site, c: Call, ch: Choice, t: Site, i: nat)
    requires Named(w) && Enabled(w, c, ch) && EligibleProbes(c.req, Seen(w)) == []
    requires t.positions == WithTarget(w, c, ch).positions && t.chapTargets == WithTarget(w, c, ch).chapTargets
    requires forall g: string :: g != ch.uuid ==> Load(t, g) == Load(w, g)
    requires i < |t.positions| && i != ch.at
    ensures !Eligible(c.req, Seen(t)[i].member) && Seen(t)[i].group != ""
  {
    var j := if i < ch.at then i else i - 1;
    var position := w.positions[j];
    assert t.positions[i] == position;
    assert Load(t, position.group) == Load(w, position.group);
    assert position.target in t.chapTargets <==> position.target in w.chapTargets;
    assert Seen(t)[i] == Seen(w)[j];
    assert Seen(w)[j] in Seen(w) && Seen(w)[j] !in EligibleProbes(c.req, Seen(w));
  }

  /** The new group is the one eligible member there is, while it has room. */
  lemma {:induction false} ScanAfterCreation(w: Site, c: Call, ch: Choice, t: Site)
    requires Named(w) && Enabled(w, c, ch) && Resolve(w, c) == CreateNew
    requires t.positions == WithTarget(w, c, ch).positions && t.chapTargets == WithTarget(w, c, ch).chapTargets
    requires forall g: string :: g != ch.uuid ==> Load(t, g) == Load(w, g)
    ensures var r := Resolve(t, c);
      (r.Use? && r.group == ch.uuid <==> Load(t, ch.uuid) < c.req.cap) && (r == CreateNew <==> Load(t, ch.uuid) >= c.req.cap)
  {
    ResolveIsUse(w, c);
    var probes, e := Seen(t), EligibleProbes(c.req, Seen(t));
    forall i | 0 <= i < |probes| && i != ch.at ensures !Eligible(c.req, probes[i].member) && probes[i].group != "" {
      SeenElsewhere(w, c, ch, t, i);
    }
    assert t.positions[ch.at] == Staging.Position(ch.uuid, Created(c, ch.uuid).target);
    assert c.req.prefix + ":" + ch.uuid == c.req.prefix + (":" + ch.uuid);
    assert Eligible(c.req, probes[ch.at].member) <==> Load(t, ch.uuid) < c.req.cap;
    var k := ScanChoosesBest(c.req, probes);
    if e == [] {
      assert probes[ch.at] in probes && probes[ch.at] !in e;
    } else {
      assert e[k] in e && e[k] in probes;
      var i :| 0 <= i < |probes| && probes[i] == e[k];
    }
  }

  lemma {:induction false} RepeatAfterUse(w: Site, c: Call, ch: Choice)
    requires Named(w) && c.volume in w.state.volumes && Unmapped(w, c) && Enabled(w, c, ch) && Resolve(w, c).Use?
    ensures var t, group := Staged(w, c, ch), Resolve(w, c).group;
      Resolve(t, c).Use? && Mapped(t, c, Resolve(t, c).group) <==>
        Stays(EligibleProbes(c.req, Seen(w)), group, Load(w, group), c.req.cap)
  {
    ResolveIsUse(w, c);
    var t, group := Staged(w, c, ch), Resolve(w, c).group;
    NowhereMapped(w, c, group);
    SeenAfterMapping(w, group, c, ch);
    assert forall i :: 0 <= i < |w.positions| ==> Seen(w)[i].group == w.positions[i].group;
    RescanExactly(c.req, Seen(w), group, Load(w, group));
    assert Named(t);
    ResolveIsUse(t, c);
    if Resolve(t, c).Use? {
      NowhereMapped(w, c, Resolve(t, c).group);
    }
  }

  lemma {:induction false} RepeatAfterCreation(w: Site, c: Call, ch: Choice)
    requires Named(w) && c.volume in w.state.volumes && Enabled(w, c, ch) && Resolve(w, c) == CreateNew
    ensures var t := Staged(w, c, ch);
      Resolve(t, c).Use? && Mapped(t, c, Resolve(t, c).group) <==> 1 < c.req.cap
  {
    var t, bare := Staged(w, c, ch), WithTarget(w, c, ch);
    assert LunIds(bare.state, LunFilter(ch.uuid, c.volume, c.hostGroup)) <= Staging.LunsOf(w.state.mappings, ch.uuid);
    SeenAfterMapping(bare, ch.uuid, c, ch);
    CreationLoads(w, c, ch);
    ScanAfterCreation(w, c, ch, t);
  }

  /** Staging a volume that no group maps to the node yet, and staging it again: the repeat leaves the appliance as it is
      exactly when the first call's group stays the scan's choice with the mapping it has got; a group made for it does
      when it has room for two. All this can be told before the first call. */
  lemma {:induction false} RepeatExactly(w: Site, c: Call, ch: Choice, again: Choice)
    requires Named(w) && c.volume in w.state.volumes && Unmapped(w, c)
    requires Enabled(w, c, ch) && Enabled(Staged(w, c, ch), c, again)
    ensures Staged(Staged(w, c, ch), c, again) == Staged(w, c, ch) <==>
      match Resolve(w, c)
      case Use(_, group) => Stays(EligibleProbes(c.req, Seen(w)), group, Load(w, group), c.req.cap)
      case _ => 1 < c.req.cap
  {
    ResolveIsUse(w, c);
    StagedIsNamed(w, c, ch);
    UnchangedExactly(Staged(w, c, ch), c, again);
    if Resolve(w, c).Use? {
      RepeatAfterUse(w, c, ch);
    } else {
      RepeatAfterCreation(w, c, ch);
    }
  }

  lemma StagedIsNamed(w: Site, c: Call, ch: Choice)
    requires Named(w) && c.volume in w.state.volumes && Enabled(w, c, ch)
    ensures Named(Staged(w, c, ch)) && Staged(w, c, ch).state.volumes == w.state.volumes
  {
    WithTargetIsNamed(w, c, ch);
  }

  lemma WithTargetIsNamed(w: Site, c: Call, ch: Choice)
    requires Named(w) && Enabled(w, c, ch)
    ensures Named(WithTarget(w, c, ch))
  {
    var t := WithTarget(w, c, ch);
    forall i | 0 <= i < |t.positions| ensures t.positions[i].group != "" {
      assert t.positions[i].group == if i < ch.at then w.positions[i].group else if i == ch.at then ch.uuid else w.positions[i - 1].group;
    }
  }

  lemma NowhereMapped(w: Site, c: Call, group: string)
    requires Unmapped(w, c)
    ensures !Mapped(w, c, group)
  {
    assert forall m :: Matches(LunFilter(group, c.volume, c.hostGroup), m) ==> Matches(LunFilter("", c.volume, c.hostGroup), m);
  }

  lemma CreationLoads(w: Site, c: Call, ch: Choice)
    requires Enabled(w, c, ch) && c.volume in w.state.volumes && !Mapped(WithTarget(w, c, ch), c, ch.uuid)
    ensures var t := WithMapping(WithTarget(w, c, ch), ch.uuid, c, ch);
      Load(t, ch.uuid) == 1 && forall g: string :: g != ch.uuid ==> Load(t, g) == Load(w, g)
  {
    forall g: string
      ensures Load(WithMapping(WithTarget(w, c, ch), ch.uuid, c, ch), g) == Load(w, g) + if g == ch.uuid then 1 else 0
    {
      Staging.OneMoreMapping(w.state.mappings, ch.id, Appliance.Mapping(ch.uuid, c.volume, c.hostGroup, ch.lun), g);
    }
  }

  /** A repeat in general, with the volume mapped through other groups, too: it changes nothing exactly when its scan
      leads to the first call's group or to one that mapped the volume before; after a creation, when there is room. */
  lemma {:induction false} RepeatInGeneral(w: Site, c: Call, ch: Choice, again: Choice)
    requires Named(w) && c.volume in w.state.volumes
    requires Enabled(w, c, ch) && Enabled(Staged(w, c, ch), c, again)
    ensures var t := Staged(w, c, ch);
      Staged(t, c, again) == t <==>
        match Resolve(w, c)
        case Use(_, group) => Resolve(t, c).Use? && (Resolve(t, c).group == group || Mapped(w, c, Resolve(t, c).group))
        case _ => 1 < c.req.cap
  {
    ResolveIsUse(w, c);
    StagedIsNamed(w, c, ch);
    UnchangedExactly(Staged(w, c, ch), c, again);
    if Resolve(w, c).Use? {
      RepeatAfterAnyUse(w, c, ch);
    } else {
      RepeatAfterCreation(w, c, ch);
    }
  }

  lemma {:induction false} RepeatAfterAnyUse(w: Site, c: Call, ch: Choice)
    requires Named(w) && c.volume in w.state.volumes && Enabled(w, c, ch) && Resolve(w, c).Use?
    ensures var t, group := Staged(w, c, ch), Resolve(w, c).group;
      Resolve(t, c).Use? && Mapped(t, c, Resolve(t, c).group) <==>
        Resolve(t, c).Use? && (Resolve(t, c).group == group || Mapped(w, c, Resolve(t, c).group))
  {
    ResolveIsUse(w, c);
    var t, group := Staged(w, c, ch), Resolve(w, c).group;
    if !Mapped(w, c, group) {
      SeenAfterMapping(w, group, c, ch);
    }
    StagedIsNamed(w, c, ch);
    ResolveIsUse(t, c);
  }

  /** A call cut short after it has made a target and its group: the next one uses them, and ends as it would have. */
  lemma {:induction false} CutAfterTarget(w: Site, c: Call, ch: Choice)
    requires Named(w) && Enabled(w, c, ch) && Resolve(w, c) == CreateNew && 1 <= c.req.cap
    ensures Staged(WithTarget(w, c, ch), c, ch) == Staged(w, c, ch)
  {
    var t := WithTarget(w, c, ch);
    assert Load(t, ch.uuid) == 0;
    ScanAfterCreation(w, c, ch, t);
  }

  /** The repeat that fails: two groups are equally loaded, and neither is empty. The first call takes the one listed
      first, which then has more than the other, so that the second takes the other: the volume is mapped twice. */
  lemma {:induction false} StagedTwice(w: Site, c: Call, ch: Choice, again: Choice, a: Staging.Position, b: Staging.Position)
    requires w.positions == [a, b] && a.group != b.group && Named(w) && w.chapTargets == {} && !c.req.chap
    requires HasPrefix(a.target, c.req.prefix) && HasPrefix(b.target, c.req.prefix)
    requires 1 <= Load(w, a.group) == Load(w, b.group) < c.req.cap
    requires c.volume in w.state.volumes && Unmapped(w, c)
    requires Enabled(w, c, ch) && Enabled(Staged(w, c, ch), c, again)
    ensures var m := (group, lun) => Appliance.Mapping(group, c.volume, c.hostGroup, lun);
      Staged(Staged(w, c, ch), c, again).state.mappings ==
        w.state.mappings[ch.id := m(a.group, ch.lun)][again.id := m(b.group, again.lun)]
  {
    var probes := Seen(w);
    TwoEligible(c.req, probes);
    assert Scan(c.req, NONE, probes) == Use(a.target, a.group);
    NowhereMapped(w, c, a.group);
    NowhereMapped(w, c, b.group);
    var t := Staged(w, c, ch);
    SeenAfterMapping(w, a.group, c, ch);
    TwoEligible(c.req, Seen(t));
    assert Resolve(t, c) == Use(b.target, b.group);
  }

  /** Of two loaded members the less loaded is taken, the first if they are equal. */
  lemma TwoEligible(req: Request, probes: seq<Probe>)
    requires AllAnswered(probes) && |probes| == 2 && probes[0].group != "" && probes[1].group != ""
    requires forall i :: 0 <= i < 2 ==> Luns(probes[i]) > 0 && HasPrefix(probes[i].member.target, req.prefix) && probes[i].member.chap.value == req.chap
    requires Luns(probes[1]) < req.cap
    ensures var k := if Luns(probes[0]) < req.cap && Luns(probes[0]) <= Luns(probes[1]) then 0 else 1;
      Scan(req, NONE, probes) == Use(probes[k].member.target, probes[k].group)
  {
    var first := Consider(req, NONE, probes[0]).best;
    assert Scan(req, NONE, probes) == Scan(req, first, probes[1..]);
    assert Scan(req, first, probes[1..]) == Scan(req, Consider(req, first, probes[1]).best, probes[1..][1..]);
    assert probes[1..][1..] == [];
  }

  /* ---- static mode ---- */

  /** NodeStageVolume up to the LUN in static mode: the names are the context's, whether or not the target could be made. */
  function StaticallyStaged(s: State, ctx: Context, uuid: string, volume: VolPath, hostGroup: string, id: nat, lun: nat): State {
    Lifecycle.After(Lifecycle.Stage(NewNames(ctx, uuid).group, volume, hostGroup, id, lun), s)
  }

  /** A context that names target and group, as a valid configuration makes sure, has its volume mapped in just that group. */
  lemma StaticMapsInOwnGroup(s: State, ctx: Context, uuid: string, volume: VolPath, hostGroup: string, id: nat, lun: nat)
    requires ctx.target != "" && ctx.targetGroup != "" && volume in s.volumes && id !in s.mappings
    ensures VolumeMapped(s, StaticallyStaged(s, ctx, uuid, volume, hostGroup, id, lun), ctx.targetGroup, volume, hostGroup, id)
  {
    NewNamesExactly(ctx, uuid);
    StageKeepsPromise(s, ctx.targetGroup, volume, hostGroup, id, lun);
  }

  /** Static staging is idempotent exactly when the context names a target: without one each call makes a new group. */
  lemma {:induction false} StaticRepeatExactly(s: State, ctx: Context, uuid0: string, uuid1: string, volume: VolPath, hostGroup: string,
                                               id0: nat, lun0: nat, id1: nat, lun1: nat)
    requires volume in s.volumes && uuid0 != "" && uuid1 != "" && uuid0 != uuid1
    requires Staging.LunsOf(s.mappings, uuid0) == {} && Staging.LunsOf(s.mappings, uuid1) == {}
    requires id0 !in s.mappings && id1 !in s.mappings && id0 != id1
    ensures var t := StaticallyStaged(s, ctx, uuid0, volume, hostGroup, id0, lun0);
      StaticallyStaged(t, ctx, uuid1, volume, hostGroup, id1, lun1) == t <==> ctx.target != ""
  {
    var t := StaticallyStaged(s, ctx, uuid0, volume, hostGroup, id0, lun0);
    NewNamesExactly(ctx, uuid0);
    NewNamesExactly(ctx, uuid1);
    StageKeepsPromise(s, NewNames(ctx, uuid0).group, volume, hostGroup, id0, lun0);
    StageKeepsPromise(t, NewNames(ctx, uuid1).group, volume, hostGroup, id1, lun1);
    if ctx.target == "" {
      var u := StaticallyStaged(t, ctx, uuid1, volume, hostGroup, id1, lun1);
      forall i | i in t.mappings ensures t.mappings[i].targetGroup != uuid1 {
        assert i in s.mappings ==> i !in Staging.LunsOf(s.mappings, uuid1);
      }
      var i :| i in u.mappings && Serves(u.mappings[i], uuid1, volume, hostGroup);
      assert i !in t.mappings;
    }
  }

  /* ---- a staging among others, left alone ---- */

  /** The steps after the scan: look for a mapping, and make one if there is none. */
  lemma {:induction false} LoneMapping(w: Staging.World, p: nat, s: State, ch: Choice, cap: int, k: nat) returns (actions: seq<Staging.Action>)
    requires p in w.stagings && w.stagings[p].phase.Resolved? && s.mappings == w.mappings
    requires ch.id !in w.mappings && w.stagings[p].volume in s.volumes
    ensures var t, staging := Staging.Exec(w, actions, cap, k), w.stagings[p];
      && t.mappings == Lifecycle.After(Lifecycle.Stage(staging.phase.group, staging.volume, staging.hostGroup, ch.id, ch.lun), s).mappings
      && t.stagings == w.stagings - {p}
  {
    var staging := w.stagings[p];
    var filter := LunFilter(staging.phase.group, staging.volume, staging.hostGroup);
    var found := exists id :: id in w.mappings && Matches(filter, w.mappings[id]);
    var second := Staging.CreateMapping(p, ch.id, ch.lun);
    var u := Staging.Next(w, Staging.Advance(p), cap, k);
    if found {
      var id :| id in w.mappings && Matches(filter, w.mappings[id]);
      assert id in LunIds(s, filter);
    } else {
      assert LunIds(s, filter) == {};
      assert u == Staging.WithPhase(w, p, Staging.Unmapped(staging.phase.group));
    }
    actions := [Staging.Advance(p)] + [second];
    Staging.ExecCons(w, Staging.Advance(p), [second], cap, k);
    Staging.ExecCons(u, second, [], cap, k);
    assert [second] + [] == [second];
    assert Staging.Next(u, second, cap, k).stagings == w.stagings - {p};
  }

  /** With nobody else at work, the interleaved steps of a staging end as the whole call does. */
  lemma {:induction false} LoneStagingIsStaged(w: Staging.World, p: nat, s: State, c: Call, ch: Choice, cap: int, k: nat)
    returns (actions: seq<Staging.Action>)
    requires p in w.stagings && s.mappings == w.mappings && c.volume in s.volumes && cap == c.req.cap
    requires var g := w.stagings[p];
      && g.volume == c.volume && g.hostGroup == c.hostGroup && g.prefix == c.req.prefix && g.chap == c.req.chap
      && g.phase.Scanning? && g.phase.best == NONE
    requires var site := Site(s, w.stagings[p].phase.todo, w.chapTargets);
      Named(site) && Enabled(site, c, ch) && Staging.Claimers(w.stagings, ch.uuid) == {}
    ensures var site := Site(s, w.stagings[p].phase.todo, w.chapTargets);
      var t := Staging.Exec(w, actions, cap, k);
      t.mappings == Staged(site, c, ch).state.mappings && t.stagings == w.stagings - {p}
  {
    var site := Site(s, w.stagings[p].phase.todo, w.chapTargets);
    var scan := Staging.LoneStagingScans(w, p, cap, k);
    var t := Staging.Exec(w, scan, cap, k);
    SameObservation(w, site);
    ResolveIsUse(site, c);
    assert Staging.Outlook(w, p, cap) == Resolve(site, c);
    var steps, u := ToResolved(t, w, p, ch, cap, k);
    var rest := LoneMapping(u, p, s, ch, cap, k);
    Staging.ExecConcat(t, steps, rest, cap, k);
    Staging.ExecConcat(w, scan, steps + rest, cap, k);
    actions := scan + (steps + rest);
    assert u.stagings - {p} == w.stagings - {p};
  }

  /** From the end of its scan a staging comes to the group it has found, or to one of a new target. */
  lemma {:induction false} ToResolved(t: Staging.World, w: Staging.World, p: nat, ch: Choice, cap: int, k: nat)
    returns (steps: seq<Staging.Action>, u: Staging.World)
    requires Staging.IsScanning(t, p) && t.stagings[p].phase.todo == []
    requires p in w.stagings && t == Staging.WithPhase(w, p, t.stagings[p].phase)
    requires ch.uuid != "" && Staging.LunsOf(w.mappings, ch.uuid) == {} && Staging.Claimers(w.stagings, ch.uuid) == {}
    ensures u == Staging.Exec(t, steps, cap, k)
    ensures var best := t.stagings[p].phase.best;
      u == Staging.WithPhase(w, p, Staging.Resolved(if best.group != "" then best.group else ch.uuid))
  {
    var best, advance, create := t.stagings[p].phase.best, Staging.Advance(p), Staging.CreateTarget(p, ch.uuid);
    if best.group != "" {
      steps, u := [advance], Staging.Next(t, advance, cap, k);
      Staging.ExecCons(t, advance, [], cap, k);
      assert [advance] + [] == [advance];
    } else {
      assert Staging.Claimers(t.stagings, ch.uuid) <= Staging.Claimers(w.stagings, ch.uuid);
      var v := Staging.Next(t, create, cap, k);
      steps, u := [create, advance], Staging.Next(v, advance, cap, k);
      Staging.ExecCons(t, create, [advance], cap, k);
      Staging.ExecCons(v, advance, [], cap, k);
      assert [create] + [advance] == steps && [advance] + [] == [advance];
    }
  }

  lemma SameObservation(w: Staging.World, site: Site)
    requires site.state.mappings == w.mappings && site.chapTargets == w.chapTargets
    ensures Seen(site) == Staging.Observed(w, site.positions)
  {
    assert forall g :: Staging.Load(Staging.World(w.chapTargets, w.mappings, map[]), g) == Staging.Load(w, g);
  }
}
