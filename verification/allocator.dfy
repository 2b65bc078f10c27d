/** ResolveTargetGroup: the scan that picks the iSCSI target a volume is staged through. */
module Allocator {
  import opened Wrappers
  import opened Text

  /** What the scan asks for: the target prefix, the cap on LUNs per target group, and whether CHAP is wanted. */
  datatype Request = Request(prefix: string, cap: int, chap: bool)

  /** One member of a target group, with what the appliance answers when the scan asks about it: the number of
      LUN mappings of its group, whether the target authenticates with CHAP, and whether the node's CHAP
      credentials could be set. None stands for a failed call. */
  datatype Member = Member(target: string, luns: Option<nat>, chap: Option<bool>, credentials: bool)

  datatype TargetGroup = TargetGroup(name: string, members: seq<Member>)

  datatype Probe = Probe(group: string, member: Member)

  /** The best choice so far. An empty group's count and "none yet" are both 0. */
  datatype Best = Best(luns: nat, group: string, target: string)

  datatype Resolution =
    | Use(target: string, group: string)
    | CreateNew
    | NoGroup(target: string)   // a listing failed: a nil error and no group
    | Failed

  datatype Verdict = Continue(best: Best) | Stop(resolution: Resolution)

  const NONE := Best(0, "", "")

  predicate Improves(best: Best, luns: nat, cap: int) {
    (best.luns == 0 || luns < best.luns) && luns < cap
  }

  /** The loop body for one member. */
  function Consider(req: Request, best: Best, p: Probe): Verdict {
    var m := p.member;
    if !HasPrefix(m.target, req.prefix) then Continue(best)
    else if m.luns == None then Stop(NoGroup(best.target))
    else if !Improves(best, m.luns.value, req.cap) then Continue(best)
    else if m.chap == None then Stop(Failed)
    else if m.chap.value != req.chap then Continue(best)
    else if req.chap && !m.credentials then Stop(Failed)
    else Continue(Best(m.luns.value, p.group, m.target))
  }

  function Finish(best: Best): Resolution {
    if best.group != "" then Use(best.target, best.group) else CreateNew
  }

  function Scan(req: Request, best: Best, probes: seq<Probe>): Resolution
    decreases |probes|
  {
    if probes == [] then Finish(best)
    else
      match Consider(req, best, probes[0])
      case Stop(resolution) => resolution
      case Continue(next) => Scan(req, next, probes[1..])
  }

  function GroupProbes(g: TargetGroup): (probes: seq<Probe>)
    ensures |probes| == |g.members|
  {
    seq(|g.members|, i requires 0 <= i < |g.members| => Probe(g.name, g.members[i]))
  }

  /** The members in the order in which the two nested loops reach them. */
  function Probes(groups: seq<TargetGroup>): seq<Probe> {
    if groups == [] then [] else GroupProbes(groups[0]) + Probes(groups[1..])
  }

  /** How many members are listed before the i-th group's. */
  function Offset(groups: seq<TargetGroup>, i: nat): nat
    requires i <= |groups|
  {
    if i == 0 then 0 else |groups[0].members| + Offset(groups[1..], i - 1)
  }

  /** The scan meets the groups in the order of the listing, and the members in the order of their group. */
  lemma {:induction false} ProbesInOrder(groups: seq<TargetGroup>, i: nat, j: nat)
    requires i < |groups| && j < |groups[i].members|
    ensures var k, probes := Offset(groups, i) + j, Probes(groups);
      && k < |probes| == Offset(groups, |groups|)
      && probes[k] == Probe(groups[i].name, groups[i].members[j])
  {
    if i > 0 {
      ProbesInOrder(groups[1..], i - 1, j);
    } else {
      ProbeCount(groups);
      ProbeCount(groups[1..]);
    }
  }

  lemma {:induction false} ProbeCount(groups: seq<TargetGroup>)
    ensures |Probes(groups)| == Offset(groups, |groups|)
  {
    if groups != [] {
      ProbeCount(groups[1..]);
    }
  }

  /** `listing` is the appliance's answer about its target groups, None when that call fails. */
  method ResolveTargetGroup(req: Request, listing: Option<seq<TargetGroup>>) returns (r: Resolution)
    ensures r == if listing == None then NoGroup("") else Scan(req, NONE, Probes(listing.value))
  {
    if listing == None { return NoGroup(""); }
    var groups := listing.value;
    var minLuns: nat, minTargetGroup, target := 0, "", "";
    for i := 0 to |groups|
      invariant Scan(req, NONE, Probes(groups)) == Scan(req, Best(minLuns, minTargetGroup, target), Probes(groups[i..]))
    {
      var group := groups[i];
      ghost var later := Probes(groups[i + 1..]);
      assert groups[i..][1..] == groups[i + 1..];
      assert GroupProbes(group)[0..] == GroupProbes(group);
      for j := 0 to |group.members|
        invariant Scan(req, NONE, Probes(groups)) ==
                  Scan(req, Best(minLuns, minTargetGroup, target), GroupProbes(group)[j..] + later)
      {
        var member := group.members[j];
        ScanOne(req, Best(minLuns, minTargetGroup, target), GroupProbes(group)[j..] + later);
        assert (GroupProbes(group)[j..] + later)[1..] == GroupProbes(group)[j + 1..] + later;
        if HasPrefix(member.target, req.prefix) {
          if member.luns == None { return NoGroup(target); }
          var luns := member.luns.value;
          if (minLuns == 0 || luns < minLuns) && luns < req.cap {
            if member.chap == None { return Failed; }
            if req.chap {
              if !member.chap.value { continue; }
              if !member.credentials { return Failed; }
            } else {
              if member.chap.value { continue; }
            }
            minLuns, minTargetGroup, target := luns, group.name, member.target;
          }
        }
      }
      assert GroupProbes(group)[|group.members|..] + later == later;
    }
    assert groups[|groups|..] == [];
    return if minTargetGroup != "" then Use(target, minTargetGroup) else CreateNew;
  }

  lemma ScanOne(req: Request, best: Best, probes: seq<Probe>)
    requires probes != []
    ensures Scan(req, best, probes) ==
      match Consider(req, best, probes[0])
      case Stop(resolution) => resolution
      case Continue(next) => Scan(req, next, probes[1..])
  {
  }

  /* ---- what the scan chooses ---- */

  /** Every call the scan may make succeeds. */
  predicate Answered(m: Member) {
    m.luns.Some? && m.chap.Some? && m.credentials
  }

  predicate AllAnswered(probes: seq<Probe>) {
    forall i :: 0 <= i < |probes| ==> Answered(probes[i].member)
  }

  /** Prefix, room below the cap, and the wanted kind of authentication. */
  predicate Eligible(req: Request, m: Member)
    requires Answered(m)
  {
    HasPrefix(m.target, req.prefix) && m.luns.value < req.cap && m.chap.value == req.chap
  }

  function EligibleProbes(req: Request, probes: seq<Probe>): (e: seq<Probe>)
    requires AllAnswered(probes)
    ensures AllAnswered(e)
    ensures forall p :: p in e <==> p in probes && Eligible(req, p.member)
  {
    if probes == [] then []
    else
      var rest := EligibleProbes(req, probes[1..]);
      if Eligible(req, probes[0].member) then [probes[0]] + rest else rest
  }

  function Luns(p: Probe): nat
    requires Answered(p.member)
  {
    p.member.luns.value
  }

  /** The position of the last empty one, -1 when none is empty. */
  function LastEmpty(e: seq<Probe>): (z: int)
    requires AllAnswered(e)
    ensures -1 <= z < |e|
    ensures z >= 0 ==> Luns(e[z]) == 0
    ensures forall j :: z < j < |e| ==> Luns(e[j]) > 0
  {
    if e == [] then -1
    else if Luns(e[|e| - 1]) == 0 then |e| - 1
    else LastEmpty(e[..|e| - 1])
  }

  /** k is the first with the fewest mappings after the last empty one, or that empty one if it is the last. */
  predicate Chosen(e: seq<Probe>, k: int)
    requires AllAnswered(e)
  {
    var z := LastEmpty(e);
    && 0 <= k < |e|
    && (if z == |e| - 1 then k == z
        else
          && z < k
          && (forall j :: z < j < |e| ==> Luns(e[k]) <= Luns(e[j]))
          && (forall j :: z < j < k ==> Luns(e[k]) < Luns(e[j])))
  }

  /** A member that answers never stops the scan. */
  lemma ScanAnswered(req: Request, best: Best, p: Probe, tail: seq<Probe>)
    requires Answered(p.member)
    ensures Consider(req, best, p).Continue?
    ensures Scan(req, best, [p] + tail) == Scan(req, Consider(req, best, p).best, tail)
    ensures !Eligible(req, p.member) ==> Consider(req, best, p).best == best
  {
    assert ([p] + tail)[1..] == tail;
  }

  /** Of members that answer, the scan only ever looks at the eligible ones. */
  lemma {:induction false} ScanEligible(req: Request, best: Best, probes: seq<Probe>, tail: seq<Probe>)
    requires AllAnswered(probes)
    ensures Scan(req, best, probes + tail) == Scan(req, best, EligibleProbes(req, probes) + tail)
    decreases |probes|
  {
    if probes == [] {
      assert EligibleProbes(req, probes) == probes;
    } else {
      var first, rest := probes[0], probes[1..];
      var e := EligibleProbes(req, rest);
      assert probes + tail == [first] + (rest + tail);
      ScanAnswered(req, best, first, rest + tail);
      ScanEligible(req, Consider(req, best, first).best, rest, tail);
      if Eligible(req, first.member) {
        assert ([first] + e) + tail == [first] + (e + tail);
        ScanAnswered(req, best, first, e + tail);
      }
    }
  }

  function AsBest(p: Probe): Best
    requires Answered(p.member)
  {
    Best(Luns(p), p.group, p.member.target)
  }

  predicate AllEligible(req: Request, e: seq<Probe>)
    requires AllAnswered(e)
  {
    forall i :: 0 <= i < |e| ==> Eligible(req, e[i].member)
  }

  lemma ScanStep(req: Request, e: seq<Probe>, tail: seq<Probe>, k: nat, n: nat)
    requires AllAnswered(e) && AllEligible(req, e) && k < n < |e|
    ensures var next := if Luns(e[k]) == 0 || Luns(e[n]) < Luns(e[k]) then n else k;
      Scan(req, AsBest(e[k]), e[n..] + tail) == Scan(req, AsBest(e[next]), e[n + 1..] + tail)
  {
    assert (e[n..] + tail)[0] == e[n] && (e[n..] + tail)[1..] == e[n + 1..] + tail;
  }

  /** After the first n eligible members the scan's best so far is the choice among those n. */
  lemma {:induction false} ScanPrefix(req: Request, e: seq<Probe>, tail: seq<Probe>, n: nat) returns (k: nat)
    requires AllAnswered(e) && AllEligible(req, e) && 0 < n <= |e|
    ensures k < n && Chosen(e[..n], k)
    ensures Scan(req, NONE, e + tail) == Scan(req, AsBest(e[k]), e[n..] + tail)
  {
    if n == 1 {
      k := 0;
      assert e[..1] == [e[0]];
      assert (e + tail)[0] == e[0] && (e + tail)[1..] == e[1..] + tail;
    } else {
      k := ScanPrefix(req, e, tail, n - 1);
      ScanStep(req, e, tail, k, n - 1);
      k := PrefixNext(e, k, n - 1);
    }
  }

  lemma PrefixNext(e: seq<Probe>, k: nat, n: nat) returns (next: nat)
    requires AllAnswered(e) && k < n < |e| && Chosen(e[..n], k)
    ensures next == if Luns(e[k]) == 0 || Luns(e[n]) < Luns(e[k]) then n else k
    ensures Chosen(e[..n + 1], next)
  {
    assert e[..n + 1] == e[..n] + [e[n]];
    next := if Luns(e[k]) == 0 || Luns(e[n]) < Luns(e[k]) then n else k;
    ChosenNext(e[..n], k, e[n], next);
  }

  lemma ChosenNext(e: seq<Probe>, k: nat, p: Probe, next: nat)
    requires AllAnswered(e) && Answered(p.member) && Chosen(e, k)
    requires next == if Luns(e[k]) == 0 || Luns(p) < Luns(e[k]) then |e| else k
    ensures AllAnswered(e + [p]) && Chosen(e + [p], next)
  {
    var t := e + [p];
    assert t[..|e|] == e;
  }

  /** Past members that answer, the scan goes on with the choice among them. */
  lemma {:induction false} ScanGood(req: Request, good: seq<Probe>, tail: seq<Probe>) returns (best: Best, k: nat)
    requires AllAnswered(good)
    ensures Scan(req, NONE, good + tail) == Scan(req, best, tail)
    ensures var e := EligibleProbes(req, good);
      if e == [] then best == NONE else Chosen(e, k) && best == AsBest(e[k])
  {
    var e := EligibleProbes(req, good);
    ScanEligible(req, NONE, good, tail);
    best, k := NONE, 0;
    if e == [] {
      assert e + tail == tail;
    } else {
      forall i | 0 <= i < |e| ensures Eligible(req, e[i].member) {
        assert e[i] in e;
      }
      k := ScanPrefix(req, e, tail, |e|);
      best := AsBest(e[k]);
      assert e[..|e|] == e && e[|e|..] + tail == tail;
    }
  }

  /** The exact choice, when every call succeeds and target groups have names: a new target is created exactly when
      no member is eligible; otherwise the chosen eligible member is returned with its own group. */
  lemma ScanChoosesBest(req: Request, probes: seq<Probe>) returns (k: nat)
    requires AllAnswered(probes)
    requires forall i :: 0 <= i < |probes| ==> probes[i].group != ""
    ensures var e, r := EligibleProbes(req, probes), Scan(req, NONE, probes);
      && (r == CreateNew <==> e == [])
      && (e != [] ==> Chosen(e, k) && r == Use(e[k].member.target, e[k].group))
  {
    var best;
    best, k := ScanGood(req, probes, []);
    assert probes + [] == probes;
    var e := EligibleProbes(req, probes);
    if e != [] {
      assert e[k] in e;
    }
  }

  /** A member with so many mappings would be taken after these. */
  predicate Room(req: Request, e: seq<Probe>, k: int, luns: nat)
    requires AllAnswered(e) && (e != [] ==> 0 <= k < |e|)
  {
    luns < req.cap && (e == [] || Luns(e[k]) == 0 || luns < Luns(e[k]))
  }

  /** The first member whose calls may fail decides: with its listing failing, the answer is a nil error, no group and the
      target chosen so far; with its authentication unknown or its credentials refused, it is an error, but only if the
      member would be taken; otherwise the scan goes on as if it were not there, or had answered. */
  lemma {:induction false} FirstFailureDecides(req: Request, good: seq<Probe>, bad: Probe, rest: seq<Probe>) returns (k: nat)
    requires AllAnswered(good) && !Answered(bad.member)
    ensures var e, m, r := EligibleProbes(req, good), bad.member, Scan(req, NONE, good + ([bad] + rest));
      && (e != [] ==> Chosen(e, k))
      && if !HasPrefix(m.target, req.prefix) then r == Scan(req, NONE, good + rest)
         else if m.luns == None then r == NoGroup(if e == [] then "" else e[k].member.target)
         else if !Room(req, e, k, m.luns.value) then r == Scan(req, NONE, good + rest)
         else if m.chap == None then r == Failed
         else if m.chap.value != req.chap then r == Scan(req, NONE, good + rest)
         else if req.chap then r == Failed
         else r == Scan(req, NONE, good + ([bad.(member := m.(credentials := true))] + rest))
  {
    var best;
    best, k := ScanGood(req, good, [bad] + rest);
    SameGood(req, good, rest, best, k);
    var willing := bad.(member := bad.member.(credentials := true));
    SameGood(req, good, [willing] + rest, best, k);
    assert ([bad] + rest)[1..] == rest && ([willing] + rest)[1..] == rest;
  }

  /** What the scan goes on with does not depend on what follows. */
  lemma {:induction false} SameGood(req: Request, good: seq<Probe>, other: seq<Probe>, best: Best, k: nat)
    requires AllAnswered(good)
    requires var e := EligibleProbes(req, good);
      if e == [] then best == NONE else Chosen(e, k) && best == AsBest(e[k])
    ensures Scan(req, NONE, good + other) == Scan(req, best, other)
  {
    var best1, k1 := ScanGood(req, good, other);
    if EligibleProbes(req, good) != [] {
      ChosenUnique(EligibleProbes(req, good), k, k1);
    }
  }

  /** The description above fits one position only. */
  lemma ChosenUnique(e: seq<Probe>, k0: int, k1: int)
    requires AllAnswered(e) && Chosen(e, k0) && Chosen(e, k1)
    ensures k0 == k1
  {
  }

  /** The choice has the fewest mappings of all exactly when no eligible group is empty or the last one is. */
  lemma ChosenIsMinimum(e: seq<Probe>, k: int)
    requires AllAnswered(e) && Chosen(e, k)
    ensures (forall j :: 0 <= j < |e| ==> Luns(e[k]) <= Luns(e[j])) <==>
      (forall j :: 0 <= j < |e| ==> Luns(e[j]) > 0) || Luns(e[|e| - 1]) == 0
  {
  }

  /** Whatever fails, a target that is returned is a member of the group returned with it. */
  lemma {:induction false} ScanReturnsMember(req: Request, groups: seq<TargetGroup>)
    ensures var r := Scan(req, NONE, Probes(groups));
      r.Use? ==> exists i, j :: 0 <= i < |groups| && 0 <= j < |groups[i].members|
                   && groups[i].name == r.group && groups[i].members[j].target == r.target
  {
    var r := Scan(req, NONE, Probes(groups));
    ScanReturnsProbe(req, NONE, Probes(groups));
    if r.Use? {
      var p :| p in Probes(groups) && p.group == r.group && p.member.target == r.target;
      ProbeInGroup(groups, p);
    }
  }

  lemma {:induction false} ScanReturnsProbe(req: Request, best: Best, probes: seq<Probe>)
    ensures var r := Scan(req, best, probes);
      r.Use? ==> r == Finish(best) || exists p :: p in probes && p.group == r.group && p.member.target == r.target
    decreases |probes|
  {
    if probes != [] {
      var verdict := Consider(req, best, probes[0]);
      if verdict.Continue? {
        ScanReturnsProbe(req, verdict.best, probes[1..]);
        assert probes[0] in probes;
        assert forall p :: p in probes[1..] ==> p in probes;
      }
    }
  }

  lemma {:induction false} ProbeInGroup(groups: seq<TargetGroup>, p: Probe)
    requires p in Probes(groups)
    ensures exists i, j :: 0 <= i < |groups| && 0 <= j < |groups[i].members|
              && groups[i].name == p.group && groups[i].members[j] == p.member
  {
    if p in GroupProbes(groups[0]) {
      var j :| 0 <= j < |groups[0].members| && GroupProbes(groups[0])[j] == p;
      assert groups[0].name == p.group && groups[0].members[j] == p.member;
    } else {
      ProbeInGroup(groups[1..], p);
      var i, j :| 0 <= i < |groups[1..]| && 0 <= j < |groups[1..][i].members|
        && groups[1..][i].name == p.group && groups[1..][i].members[j] == p.member;
      assert groups[i + 1] == groups[1..][i];
    }
  }

  /* ---- creating a target and its group ---- */

  /** The names in the volume context (possibly empty), the prefix, and whether CHAP is wanted. */
  datatype Context = Context(target: string, targetGroup: string, prefix: string, chap: bool)

  datatype Names = Names(target: string, group: string)

  function NewNames(ctx: Context, uuid: string): Names {
    if ctx.target == "" then Names(ctx.prefix + ":" + uuid, uuid)
    else
      var parts := Split(ctx.target, ':');
      Names(ctx.target, if ctx.targetGroup == "" then parts[|parts| - 1] else ctx.targetGroup)
  }

  /** The target is the context's own, or a new one under the prefix; the group is the context's own if it names one beside
      its target, and else what follows the target's last ":". */
  lemma NewNamesExactly(ctx: Context, uuid: string)
    ensures var names := NewNames(ctx, uuid);
      && (ctx.target != "" ==> names.target == ctx.target)
      && (ctx.target != "" && ctx.targetGroup != "" ==> names.group == ctx.targetGroup)
      && (ctx.target == "" ==> names.group == uuid && names.target == ctx.prefix + ":" + uuid)
      && (ctx.target != "" && ctx.targetGroup == "" ==> FollowsLastColon(names.target, names.group))
  {
    var parts := Split(ctx.target, ':');
    if |parts| > 1 {
      JoinLast(parts, ':');
    }
  }

  ghost predicate FollowsLastColon(target: string, group: string) {
    ':' !in group && (target == group || exists front :: target == front + ":" + group)
  }

  /** Unless the context names the group itself, the group is what follows the last ":" of the target. */
  lemma NewGroupFromTarget(ctx: Context, uuid: string)
    requires ':' !in uuid && (ctx.target == "" || ctx.targetGroup == "")
    ensures FollowsLastColon(NewNames(ctx, uuid).target, NewNames(ctx, uuid).group)
  {
    NewNamesExactly(ctx, uuid);
  }

  /** Whether each step of the creation succeeds. */
  datatype Replies = Replies(port: bool, target: bool, group: bool, credentials: bool, authentication: bool)

  class TargetProvider {
    var targets: map<string, bool>          // and whether it authenticates with CHAP
    var groups: map<string, seq<string>>

    /** A failing group creation is noticed only after the CHAP settings have been made. */
    method CreateNewTargetTg(ctx: Context, uuid: string, replies: Replies) returns (names: Names, failed: bool)
      modifies this
      ensures names == NewNames(ctx, uuid)
      ensures ctx.target != "" ==> names.target == ctx.target
      ensures ctx.target != "" && ctx.targetGroup != "" ==> names.group == ctx.targetGroup
      ensures ctx.target != "" && ctx.targetGroup == "" ==> FollowsLastColon(names.target, names.group)
      ensures ctx.target == "" ==> names.group == uuid && names.target == ctx.prefix + ":" + uuid
      ensures !failed <==> replies.port && replies.target && names.target !in old(targets) && replies.group
                             && (ctx.chap ==> replies.credentials && replies.authentication)
      ensures !failed ==> targets == old(targets)[names.target := ctx.chap] && groups == old(groups)[names.group := [names.target]]
      ensures groups == old(groups) || groups == old(groups)[names.group := [names.target]]
      ensures targets == old(targets) || targets == old(targets)[names.target := false]
                || (ctx.chap && targets == old(targets)[names.target := true])
      ensures !failed && ctx.target == "" ==> forall req: Request, luns: nat :: req.prefix == ctx.prefix && req.chap == ctx.chap ==>
                (Eligible(req, MemberIn(targets, names.target, luns)) <==> luns < req.cap)
    {
      names, failed := NewNames(ctx, uuid), true;
      NewNamesExactly(ctx, uuid);
      if !replies.port { return; }
      if !replies.target || names.target in targets { return; }
      targets := targets[names.target := false];
      var groupFailed := !replies.group;
      if replies.group {
        groups := groups[names.group := [names.target]];
      }
      if ctx.chap {
        if !replies.credentials { return; }
        if !replies.authentication { return; }
        targets := targets[names.target := true];
      }
      failed := groupFailed;
      if ctx.target == "" {
        forall req: Request, luns: nat | req.prefix == ctx.prefix && req.chap == ctx.chap
          ensures Eligible(req, MemberIn(targets, names.target, luns)) <==> luns < req.cap
        {
          NewTargetIsEligible(targets, ctx, uuid, req, luns);
        }
      }
    }
  }

  /** What a scan meets of a target the appliance has: its CHAP setting is the target's own. */
  function MemberIn(targets: map<string, bool>, target: string, luns: nat): Member {
    Member(target, Some(luns), if target in targets then Some(targets[target]) else None, true)
  }

  /** The target that a successful creation leaves, when the context names none, is eligible for the scans of the
      same prefix and kind of authentication exactly while its group is below the cap. */
  lemma NewTargetIsEligible(targets: map<string, bool>, ctx: Context, uuid: string, req: Request, luns: nat)
    requires ctx.target == "" && req.prefix == ctx.prefix && req.chap == ctx.chap
    requires NewNames(ctx, uuid).target in targets && targets[NewNames(ctx, uuid).target] == ctx.chap
    ensures Eligible(req, MemberIn(targets, NewNames(ctx, uuid).target, luns)) <==> luns < req.cap
  {
    assert ctx.prefix + ":" + uuid == ctx.prefix + (":" + uuid);
  }

  /** So a scan that meets it while there is room, and whose calls succeed, never asks for another target. */
  lemma {:induction false} NoSecondTarget(targets: map<string, bool>, ctx: Context, uuid: string, req: Request, luns: nat, probes: seq<Probe>)
    requires ctx.target == "" && req.prefix == ctx.prefix && req.chap == ctx.chap && luns < req.cap
    requires NewNames(ctx, uuid).target in targets && targets[NewNames(ctx, uuid).target] == ctx.chap
    requires AllAnswered(probes) && forall i :: 0 <= i < |probes| ==> probes[i].group != ""
    requires Probe(NewNames(ctx, uuid).group, MemberIn(targets, NewNames(ctx, uuid).target, luns)) in probes
    ensures Scan(req, NONE, probes).Use?
  {
    NewTargetIsEligible(targets, ctx, uuid, req, luns);
    var k := ScanChoosesBest(req, probes);
    assert Probe(NewNames(ctx, uuid).group, MemberIn(targets, NewNames(ctx, uuid).target, luns)) in EligibleProbes(req, probes);
  }
}
