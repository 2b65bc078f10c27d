/** Listing the snapshots of one resolved volume or volume group page by page. */
module Pagination {
  import opened Identifiers

  datatype Snapshot = Snapshot(path: string, parent: string)

  datatype Entry = Entry(snapshotId: string, sourceVolumeId: string)

  datatype Page = Page(entries: seq<Entry>, nextToken: string)

  function Convert(snapshot: Snapshot, config: string): Entry {
    Entry(config + ":" + snapshot.path, config + ":" + snapshot.parent)
  }

  function Entries(snapshots: seq<Snapshot>, config: string): seq<Entry> {
    seq(|snapshots|, i requires 0 <= i < |snapshots| => Convert(snapshots[i], config))
  }

  /** Go's int32(n) for a length n. */
  function Int32(n: nat): int {
    var low := n % 0x1_0000_0000;
    if low < 0x8000_0000 then low else low - 0x1_0000_0000
  }

  /** Where a page starts: at the first snapshot whose path is the token, past the end when there is none. */
  function Start(snapshots: seq<Snapshot>, token: string): (first: nat)
    ensures first <= |snapshots|
    ensures forall i :: 0 <= i < first ==> snapshots[i].path != token
    ensures token != "" && first < |snapshots| ==> snapshots[first].path == token
  {
    if snapshots == [] || token == "" || snapshots[0].path == token then 0
    else 1 + Start(snapshots[1..], token)
  }

  /** How many entries fill a page, 0 when nothing does. A negative maxEntries is met only after the 32-bit
      length has wrapped around. */
  function Size(maxEntries: int): nat
    requires -0x8000_0000 <= maxEntries < 0x8000_0000
  {
    if maxEntries < 0 then maxEntries + 0x1_0000_0000 else maxEntries
  }

  lemma FirstMeeting(count: nat, maxEntries: int)
    requires -0x8000_0000 <= maxEntries < 0x8000_0000 && maxEntries != 0
    requires count <= Size(maxEntries)
    ensures Int32(count) == maxEntries <==> count == Size(maxEntries)
  {
  }

  function End(snapshots: seq<Snapshot>, token: string, maxEntries: int): (last: nat)
    requires -0x8000_0000 <= maxEntries < 0x8000_0000
    ensures Start(snapshots, token) <= last <= |snapshots|
  {
    var first, size := Start(snapshots, token), Size(maxEntries);
    if size == 0 || |snapshots| - first <= size then |snapshots| else first + size
  }

  function PageAt(snapshots: seq<Snapshot>, config: string, token: string, maxEntries: int): Page
    requires -0x8000_0000 <= maxEntries < 0x8000_0000
  {
    var last := End(snapshots, token, maxEntries);
    Page(Entries(snapshots[Start(snapshots, token)..last], config),
         if last < |snapshots| then snapshots[last].path else "")
  }

  lemma EntriesAppend(snapshots: seq<Snapshot>, config: string, first: nat, i: nat)
    requires first <= i < |snapshots|
    ensures Entries(snapshots[first..i + 1], config) == Entries(snapshots[first..i], config) + [Convert(snapshots[i], config)]
  {
  }

  method GetVolumeSnapshotList(snapshots: seq<Snapshot>, config: string, token: string, maxEntries: int)
    returns (response: Page)
    requires -0x8000_0000 <= maxEntries < 0x8000_0000
    ensures response == PageAt(snapshots, config, token, maxEntries)
  {
    var startingToken, entries := token, [];
    ghost var first, last := Start(snapshots, token), End(snapshots, token, maxEntries);
    for i := 0 to |snapshots|
      invariant startingToken == if i <= first then token else ""
      invariant i <= first ==> entries == []
      invariant first < i ==> i <= last && entries == Entries(snapshots[first..i], config)
      invariant first < i == last ==> last == |snapshots|
    {
      if snapshots[i].path == startingToken {
        startingToken := "";
      }
      if startingToken != "" {
        continue;
      }
      EntriesAppend(snapshots, config, first, i);
      entries := entries + [Convert(snapshots[i], config)];
      if maxEntries != 0 {
        FirstMeeting(|entries|, maxEntries);
      }
      if maxEntries != 0 && Int32(|entries|) == maxEntries {
        if i + 1 < |snapshots| {
          return Page(entries, snapshots[i + 1].path);
        }
      }
    }
    return Page(entries, "");
  }

  predicate UniquePaths(snapshots: seq<Snapshot>) {
    && (forall i :: 0 <= i < |snapshots| ==> snapshots[i].path != "")
    && (forall i, j :: 0 <= i < j < |snapshots| ==> snapshots[i].path != snapshots[j].path)
  }

  predicate Names(snapshots: seq<Snapshot>, token: string) {
    token == "" || exists i :: 0 <= i < |snapshots| && snapshots[i].path == token
  }

  lemma StartOf(snapshots: seq<Snapshot>, k: nat)
    requires UniquePaths(snapshots) && k < |snapshots|
    ensures Start(snapshots, snapshots[k].path) == k
  {
  }

  /** A caller that asks for pages of `limit` entries and passes each NextToken back until it is empty. */
  function Walk(snapshots: seq<Snapshot>, config: string, limit: int, token: string): (pages: seq<Page>)
    requires 0 < limit < 0x8000_0000 && UniquePaths(snapshots) && Names(snapshots, token)
    decreases |snapshots| - Start(snapshots, token)
  {
    var page := PageAt(snapshots, config, token, limit);
    if page.nextToken == "" then [page]
    else
      var last := End(snapshots, token, limit);
      StartOf(snapshots, last);
      [page] + Walk(snapshots, config, limit, page.nextToken)
  }

  function AllEntries(pages: seq<Page>): seq<Entry> {
    if pages == [] then [] else pages[0].entries + AllEntries(pages[1..])
  }

  /** From any token the caller gets the rest of the list in order. */
  lemma {:induction false} WalkFrom(snapshots: seq<Snapshot>, config: string, limit: int, token: string)
    requires 0 < limit < 0x8000_0000 && UniquePaths(snapshots) && Names(snapshots, token)
    ensures AllEntries(Walk(snapshots, config, limit, token)) == Entries(snapshots[Start(snapshots, token)..], config)
    decreases |snapshots| - Start(snapshots, token)
  {
    var first, last := Start(snapshots, token), End(snapshots, token, limit);
    var page := PageAt(snapshots, config, token, limit);
    if page.nextToken != "" {
      WalkStep(snapshots, config, limit, token);
      WalkFrom(snapshots, config, limit, page.nextToken);
      EntriesSplit(snapshots, config, first, last);
      AllEntriesCons(page, Walk(snapshots, config, limit, page.nextToken));
    } else {
      AllEntriesCons(page, []);
    }
  }

  lemma EntriesSplit(snapshots: seq<Snapshot>, config: string, first: nat, last: nat)
    requires first <= last <= |snapshots|
    ensures Entries(snapshots[first..], config) ==
            Entries(snapshots[first..last], config) + Entries(snapshots[last..], config)
  {
  }

  lemma AllEntriesCons(page: Page, rest: seq<Page>)
    ensures AllEntries([page] + rest) == page.entries + AllEntries(rest)
  {
    assert ([page] + rest)[1..] == rest;
  }

  function PageCount(left: nat, limit: int): nat
    requires 0 < limit
  {
    if left <= limit then 1 else 1 + PageCount(left - limit, limit)
  }

  /** A page that is not the last is full, and its token stands for the rest of the list. */
  lemma WalkStep(snapshots: seq<Snapshot>, config: string, limit: int, token: string)
    requires 0 < limit < 0x8000_0000 && UniquePaths(snapshots) && Names(snapshots, token)
    requires PageAt(snapshots, config, token, limit).nextToken != ""
    ensures var page, last := PageAt(snapshots, config, token, limit), End(snapshots, token, limit);
      && last == Start(snapshots, token) + limit < |snapshots|
      && Names(snapshots, page.nextToken) && Start(snapshots, page.nextToken) == last
      && Walk(snapshots, config, limit, token) == [page] + Walk(snapshots, config, limit, page.nextToken)
      && |page.entries| == limit
  {
    StartOf(snapshots, End(snapshots, token, limit));
  }

  lemma {:induction false} WalkLength(snapshots: seq<Snapshot>, config: string, limit: int, token: string)
    requires 0 < limit < 0x8000_0000 && UniquePaths(snapshots) && Names(snapshots, token)
    ensures |Walk(snapshots, config, limit, token)| == PageCount(|snapshots| - Start(snapshots, token), limit)
    decreases |snapshots| - Start(snapshots, token)
  {
    var page := PageAt(snapshots, config, token, limit);
    if page.nextToken != "" {
      WalkStep(snapshots, config, limit, token);
      WalkLength(snapshots, config, limit, page.nextToken);
    }
  }

  /** The pages are full but the last. */
  lemma {:induction false} WalkFull(snapshots: seq<Snapshot>, config: string, limit: int, token: string, i: nat)
    requires 0 < limit < 0x8000_0000 && UniquePaths(snapshots) && Names(snapshots, token)
    requires i < |Walk(snapshots, config, limit, token)| - 1
    ensures |Walk(snapshots, config, limit, token)[i].entries| == limit
    decreases |snapshots| - Start(snapshots, token)
  {
    var page := PageAt(snapshots, config, token, limit);
    WalkStep(snapshots, config, limit, token);
    if i > 0 {
      WalkFull(snapshots, config, limit, page.nextToken, i - 1);
    }
  }

  /** Starting with no token: nothing is lost or repeated, in ceil(n / limit) pages, one page for an empty list. */
  lemma WalkListsEverything(snapshots: seq<Snapshot>, config: string, limit: int)
    requires 0 < limit < 0x8000_0000 && UniquePaths(snapshots)
    ensures var n, pages := |snapshots|, Walk(snapshots, config, limit, "");
      && AllEntries(pages) == Entries(snapshots, config)
      && |pages| == (if n == 0 then 1 else (n + limit - 1) / limit)
      && forall i :: 0 <= i < |pages| - 1 ==> |pages[i].entries| == limit
  {
    WalkFrom(snapshots, config, limit, "");
    WalkLength(snapshots, config, limit, "");
    forall i | 0 <= i < |Walk(snapshots, config, limit, "")| - 1
      ensures |Walk(snapshots, config, limit, "")[i].entries| == limit
    {
      WalkFull(snapshots, config, limit, "", i);
    }
    assert snapshots[0..] == snapshots;
    if snapshots != [] {
      PageCountIsCeiling(|snapshots|, limit);
    }
  }

  lemma {:induction false} PageCountIsCeiling(left: nat, limit: int)
    requires 0 < left && 0 < limit
    ensures PageCount(left, limit) == (left + limit - 1) / limit
  {
    if left <= limit {
      DivUnique(left + limit - 1, limit, 1, left - 1);
    } else {
      PageCountIsCeiling(left - limit, limit);
      var q, r := (left - 1) / limit, (left - 1) % limit;
      DivUnique(left + limit - 1, limit, q + 1, r);
    }
  }

  lemma DivUnique(n: int, d: int, q: int, r: int)
    requires 0 <= r < d && n == d * q + r
    ensures n / d == q
  {
    var k := q - n / d;
    assert d * k == n % d - r by {
      assert d * k == d * q - d * (n / d);
    }
    MulSign(d, k);
  }

  lemma MulSign(d: int, k: int)
    requires 0 < d
    ensures k >= 1 ==> d * k >= d
    ensures k <= -1 ==> d * k <= -d
  {
  }

  /** The components of a snapshot's path. */
  datatype SnapshotName = SnapshotName(pool: string, group: string, volume: string, name: string)

  /** The snapshot is listed under that name, and the name is free of separators. */
  predicate ListedAs(snapshot: Snapshot, n: SnapshotName) {
    && Free(':', n.pool, n.group, n.volume) && Free('/', n.pool, n.group, n.volume) && Free('@', n.pool, n.group, n.volume)
    && '@' !in n.name
    && snapshot.path == VolumePath(n.pool, n.group, n.volume) + "@" + n.name
    && snapshot.parent == VolumePath(n.pool, n.group, n.volume)
  }

  /** The ids of an entry lead the other calls to the snapshot and to its parent. */
  predicate LeadsTo(entry: Entry, config: string, n: SnapshotName) {
    var path := VolPath(n.pool + "/" + n.group, n.volume);
    && ParseSnapshotId(entry.snapshotId) == Identifiers.Snapshot(config, path, n.name)
    && ParseListedSnapshot(entry.snapshotId) == Identifiers.Snapshot(config, path, n.name)
    && ParseVolumeId(entry.sourceVolumeId) == Volume(config, path)
  }

  lemma {:induction false} EntryLeads(snapshot: Snapshot, config: string, n: SnapshotName)
    requires ListedAs(snapshot, n) && ':' !in config && '@' !in config
    ensures LeadsTo(Convert(snapshot, config), config, n)
  {
    assert config + ":" + snapshot.path == SnapshotId(config, VolumePath(n.pool, n.group, n.volume), n.name);
    SnapshotIdRoundTrip(config, n.pool, n.group, n.volume, n.name);
    ListedSnapshotAgrees(config + ":" + snapshot.path);
    VolumeIdRoundTrip(config, n.pool, n.group, n.volume);
  }

  /** A caller that walks the list gets ids that name, in order, the snapshots that are there: with each of them
      DeleteSnapshot and ListSnapshots find the snapshot listed, and the volume's calls its parent. */
  lemma {:induction false} WalkLeadsToSnapshots(snapshots: seq<Snapshot>, names: seq<SnapshotName>, config: string, limit: int)
    requires 0 < limit < 0x8000_0000 && UniquePaths(snapshots) && ':' !in config && '@' !in config
    requires |names| == |snapshots| && forall i :: 0 <= i < |snapshots| ==> ListedAs(snapshots[i], names[i])
    ensures var entries := AllEntries(Walk(snapshots, config, limit, ""));
      |entries| == |snapshots| && forall i :: 0 <= i < |entries| ==> LeadsTo(entries[i], config, names[i])
  {
    WalkListsEverything(snapshots, config, limit);
    forall i | 0 <= i < |snapshots| ensures LeadsTo(Entries(snapshots, config)[i], config, names[i]) {
      EntryLeads(snapshots[i], config, names[i]);
    }
  }

  /** Without a limit, or with a negative one, a page is all of the list from the token on (as far as lists of fewer than
      2^31 snapshots go). */
  lemma NoLimitListsAll(snapshots: seq<Snapshot>, config: string, token: string, maxEntries: int)
    requires -0x8000_0000 <= maxEntries <= 0 && |snapshots| < 0x8000_0000
    ensures PageAt(snapshots, config, token, maxEntries) == Page(Entries(snapshots[Start(snapshots, token)..], config), "")
  {
  }

  /** The token that the n-th request passes when each NextToken is passed back. */
  function TokenOf(snapshots: seq<Snapshot>, config: string, limit: int, n: nat): string
    requires 0 < limit < 0x8000_0000
  {
    if n == 0 then "" else PageAt(snapshots, config, TokenOf(snapshots, config, limit, n - 1), limit).nextToken
  }

  /** Some page comes without a token. */
  ghost predicate Ends(snapshots: seq<Snapshot>, config: string, limit: int)
    requires 0 < limit < 0x8000_0000
  {
    exists n: nat :: n > 0 && TokenOf(snapshots, config, limit, n) == ""
  }

  lemma StartAtMost(snapshots: seq<Snapshot>, k: nat)
    requires k < |snapshots| && snapshots[k].path != ""
    ensures Start(snapshots, snapshots[k].path) <= k
  {
  }

  /** Two snapshots listed anywhere under one path: a caller that asks for single entries is sent back from the second to
      the first for ever, and is never shown the second or anything after it. */
  lemma {:induction false} RepeatedPathLoops(snapshots: seq<Snapshot>, config: string, i: nat, j: nat, n: nat)
    requires forall k :: 0 <= k < |snapshots| ==> snapshots[k].path != ""
    requires i < j < |snapshots| && snapshots[i].path == snapshots[j].path
    ensures var token := TokenOf(snapshots, config, 1, n);
      && (n > 0 ==> token != "")
      && End(snapshots, token, 1) <= j
    decreases n
  {
    if n > 0 {
      RepeatedPathLoops(snapshots, config, i, j, n - 1);
      SentBack(snapshots, config, i, j, TokenOf(snapshots, config, 1, n - 1));
    }
  }

  lemma SentBack(snapshots: seq<Snapshot>, config: string, i: nat, j: nat, token: string)
    requires forall k :: 0 <= k < |snapshots| ==> snapshots[k].path != ""
    requires i < j < |snapshots| && snapshots[i].path == snapshots[j].path && End(snapshots, token, 1) <= j
    ensures var next := PageAt(snapshots, config, token, 1).nextToken;
      next != "" && End(snapshots, next, 1) <= j
  {
    StartAtMost(snapshots, End(snapshots, token, 1));
    StartAtMost(snapshots, i);
  }

  lemma {:induction false} TokenAdvances(snapshots: seq<Snapshot>, config: string, limit: int, n: nat)
    requires 0 < limit < 0x8000_0000 && UniquePaths(snapshots) && !Ends(snapshots, config, limit)
    ensures n <= Start(snapshots, TokenOf(snapshots, config, limit, n)) <= |snapshots|
    ensures n > 0 ==> Start(snapshots, TokenOf(snapshots, config, limit, n)) < |snapshots|
  {
    if n > 0 {
      TokenAdvances(snapshots, config, limit, n - 1);
      assert TokenOf(snapshots, config, limit, n) != "";
      StartOf(snapshots, End(snapshots, TokenOf(snapshots, config, limit, n - 1), limit));
    }
  }

  /** Whatever the limit, following the tokens comes to an end, exactly when no path is repeated. */
  lemma {:induction false} EndsExactly(snapshots: seq<Snapshot>, config: string)
    requires forall k :: 0 <= k < |snapshots| ==> snapshots[k].path != ""
    ensures (forall limit :: 0 < limit < 0x8000_0000 ==> Ends(snapshots, config, limit)) <==> UniquePaths(snapshots)
  {
    if UniquePaths(snapshots) {
      forall limit | 0 < limit < 0x8000_0000 ensures Ends(snapshots, config, limit) {
        if !Ends(snapshots, config, limit) {
          TokenAdvances(snapshots, config, limit, |snapshots| + 1);
          assert false;
        }
      }
    } else {
      var i, j :| 0 <= i < j < |snapshots| && snapshots[i].path == snapshots[j].path;
      forall n: nat | n > 0 ensures TokenOf(snapshots, config, 1, n) != "" {
        RepeatedPathLoops(snapshots, config, i, j, n);
      }
      assert !Ends(snapshots, config, 1);
    }
  }
}
