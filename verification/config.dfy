/** The driver's configuration, read from a file or a secret, and the resolvers a server builds from it. */
module Configuration {
  import opened Wrappers
  import opened Text

  /** The settings of one appliance that validation and the resolvers use. */
  datatype NsData = NsData(
    address: string, username: string, password: string, defaultTarget: string, defaultTargetGroup: string,
    dynamicAllocation: Option<bool>, insecureSkipVerify: Option<bool>)

  /** What yaml.Unmarshal makes of a text: an error, or the entries it sets. */
  datatype Content = Malformed | Document(entries: map<string, NsData>)

  /** The file at the moment of a refresh. */
  datatype Disk = NoFile | File(modTime: int, readable: bool, content: Content)

  datatype Resolver = Resolver(address: string, username: string, password: string, insecureSkipVerify: bool)

  datatype Outcome = Ok(changed: bool) | Failed | Panicked

  datatype Validity = Valid | Invalid | NilDereference

  predicate AllDigits(s: string) {
    forall c :: c in s ==> '0' <= c <= '9'
  }

  /** ^https?://[^:]+:[0-9]{1,5}$ */
  predicate ValidAddress(address: string) {
    var parts := Split(address, ':');
    && |parts| == 3
    && (parts[0] == "http" || parts[0] == "https")
    && HasPrefix(parts[1], "//") && |parts[1]| > 2
    && 1 <= |parts[2]| <= 5 && AllDigits(parts[2])
  }

  predicate Complete(d: NsData) {
    && d.address != "" && AddressesValid(d.address)
    && d.username != "" && d.password != ""
    && d.dynamicAllocation.Some?
    && (!d.dynamicAllocation.value ==> d.defaultTarget != "" && d.defaultTargetGroup != "")
  }

  predicate AllComplete(m: map<string, NsData>) {
    forall n :: n in m ==> Complete(m[n])
  }

  function Defaulted(d: NsData): NsData {
    if d.insecureSkipVerify == None then d.(insecureSkipVerify := Some(true)) else d
  }

  function AllDefaulted(m: map<string, NsData>): map<string, NsData> {
    map n | n in m :: Defaulted(m[n])
  }

  predicate AddressesValid(address: string) {
    forall a :: a in Split(address, ',') ==> ValidAddress(a)
  }

  method AddressErrors(address: string) returns (errors: nat)
    ensures errors == 0 <==> AddressesValid(address)
  {
    var addresses := Split(address, ',');
    errors := 0;
    for i := 0 to |addresses|
      invariant errors == 0 <==> forall j :: 0 <= j < i ==> ValidAddress(addresses[j])
    {
      if !ValidAddress(addresses[i]) { errors := errors + 1; }
    }
  }

  ghost predicate IsUrl(address: string, scheme: string, host: string, port: string) {
    && (scheme == "http" || scheme == "https") && host != "" && ':' !in host
    && 1 <= |port| <= 5 && AllDigits(port)
    && address == scheme + "://" + host + ":" + port
  }

  /** scheme://host:port */
  ghost predicate IsAddress(address: string) {
    exists scheme, host, port :: IsUrl(address, scheme, host, port)
  }

  lemma Slashes(scheme: string, host: string)
    ensures scheme + "://" + host == scheme + ":" + ("//" + host)
  {
    assert "://" == ":" + "//";
  }

  lemma {:induction false} AddressIfValid(address: string)
    requires ValidAddress(address)
    ensures IsAddress(address)
  {
    var parts := Split(address, ':');
    var host := parts[1][2..];
    assert parts[1] == "//" + host;
    JoinLast(parts, ':');
    JoinLast(parts[..2], ':');
    assert parts[..2][..1] == [parts[0]];
    Slashes(parts[0], host);
    assert IsUrl(address, parts[0], host, parts[2]);
  }

  lemma {:induction false} ValidIfUrl(address: string, scheme: string, host: string, port: string)
    requires IsUrl(address, scheme, host, port)
    ensures ValidAddress(address)
  {
    var rest := "//" + host;
    Slashes(scheme, host);
    SplitConcat(scheme + ":" + rest, port, ':');
    SplitConcat(scheme, rest, ':');
    SplitWithoutSeparator(scheme, ':');
    SplitWithoutSeparator(rest, ':');
    SplitWithoutSeparator(port, ':');
    assert Split(address, ':') == [scheme, rest, port];
  }

  /** The addresses that match are exactly scheme://host:port. */
  lemma {:induction false} AddressExactly(address: string)
    ensures ValidAddress(address) <==> IsAddress(address)
  {
    if ValidAddress(address) {
      AddressIfValid(address);
    }
    if scheme, host, port :| IsUrl(address, scheme, host, port) {
      ValidIfUrl(address, scheme, host, port);
    }
  }

  /** What validation asks of an entry, setting by setting. */
  lemma CompleteExactly(d: NsData)
    ensures Complete(d) <==>
      && d.username != "" && d.password != ""
      && (d.dynamicAllocation == Some(true) || (d.dynamicAllocation == Some(false) && d.defaultTarget != "" && d.defaultTargetGroup != ""))
      && forall a :: a in Split(d.address, ',') ==> IsAddress(a)
  {
    forall a: string ensures ValidAddress(a) <==> IsAddress(a) {
      AddressExactly(a);
    }
    assert !ValidAddress("");
    assert "" in Split("", ',');
  }

  /** What Validate finds wrong with one entry; a missing allocation mode is dereferenced all the same. */
  method EntryErrors(data: NsData) returns (errors: nat, nilPointer: bool)
    ensures nilPointer <==> data.dynamicAllocation == None
    ensures !nilPointer ==> (errors == 0 <==> Complete(data))
  {
    errors := 0;
    if data.address == "" {
      errors := errors + 1;
    } else {
      errors := AddressErrors(data.address);
    }
    if data.username == "" { errors := errors + 1; }
    if data.password == "" { errors := errors + 1; }
    if data.dynamicAllocation == None { return errors, true; }
    if !data.dynamicAllocation.value {
      if data.defaultTarget == "" { errors := errors + 1; }
      if data.defaultTargetGroup == "" { errors := errors + 1; }
    }
    return errors, false;
  }

  /** The entries, some of them already with their defaults. */
  predicate PartlyDefaulted(m: map<string, NsData>, entries: map<string, NsData>) {
    m.Keys == entries.Keys && forall n :: n in m ==> m[n] == entries[n] || m[n] == Defaulted(entries[n])
  }

  class Config {
    var nsMap: map<string, NsData>
    var lastModTime: Option<int>
    var temporary: bool

    constructor ()
      ensures nsMap == map[] && lastModTime == None && !temporary
    {
      nsMap, lastModTime, temporary := map[], None, false;
    }

    /** Goes through the entries in whatever order the map gives them and stops at the first bad one. */
    method Validate() returns (r: Validity)
      modifies this`nsMap
      ensures r == Valid <==> AllComplete(old(nsMap))
      ensures r == Valid ==> nsMap == AllDefaulted(old(nsMap))
      ensures r == NilDereference ==> exists n :: n in old(nsMap) && old(nsMap)[n].dynamicAllocation == None
      ensures PartlyDefaulted(nsMap, old(nsMap))
    {
      var left := nsMap.Keys;
      while left != {}
        invariant left <= nsMap.Keys == old(nsMap).Keys
        invariant forall n :: n in nsMap ==> nsMap[n] == if n in left then old(nsMap)[n] else Defaulted(old(nsMap)[n])
        invariant forall n :: n in nsMap && n !in left ==> Complete(old(nsMap)[n])
      {
        var name :| name in left;
        left := left - {name};
        var data := nsMap[name];
        var errors, nilPointer := EntryErrors(data);
        if nilPointer { return NilDereference; }
        if data.insecureSkipVerify == None {
          nsMap := nsMap[name := data.(insecureSkipVerify := Some(true))];
        }
        if errors != 0 { return Invalid; }
      }
      return Valid;
    }

    /** A new document overwrites the entries it names and leaves the others in the map. */
    method Refresh(secret: Option<Content>, disk: Disk) returns (r: Outcome)
      modifies this
      ensures ConfigStep(old(nsMap), old(lastModTime), old(temporary), secret, disk, nsMap, lastModTime, temporary, r)
    {
      if disk == NoFile { return Failed; }
      var changed := lastModTime != Some(disk.modTime) || secret.Some? || temporary;
      if changed {
        var content;
        if secret.Some? {
          content := secret.value;
          temporary := true;
        } else {
          lastModTime := Some(disk.modTime);
          temporary := false;
          content := disk.content;
          if !disk.readable { return Failed; }
        }
        if content == Malformed { return Failed; }
        nsMap := nsMap + content.entries;
        var valid := Validate();
        match valid
        case Valid =>
        case Invalid => return Failed;
        case NilDereference => return Panicked;
      }
      return Ok(changed);
    }
  }

  /** Whether a refresh re-reads its source. */
  predicate Changes(lastModTime: Option<int>, temporary: bool, secret: Option<Content>, disk: Disk)
    requires disk.File?
  {
    lastModTime != Some(disk.modTime) || secret.Some? || temporary
  }

  /** The text a refresh goes by: the secret if one is passed, else the file as it is now. */
  function Source(secret: Option<Content>, disk: Disk): Content
    requires disk.File?
  {
    if secret.Some? then secret.value else if disk.readable then disk.content else Malformed
  }

  /** What a refresh does to the configuration. */
  predicate ConfigStep(map0: map<string, NsData>, time0: Option<int>, temp0: bool, secret: Option<Content>, disk: Disk,
                       map1: map<string, NsData>, time1: Option<int>, temp1: bool, r: Outcome) {
    if disk.NoFile? then r == Failed && map1 == map0 && time1 == time0 && temp1 == temp0
    else if !Changes(time0, temp0, secret, disk) then r == Ok(false) && map1 == map0 && time1 == time0 && temp1 == temp0
    else
      && temp1 == secret.Some?
      && time1 == (if secret.Some? then time0 else Some(disk.modTime))
      && (if Source(secret, disk) == Malformed then r == Failed && map1 == map0
          else
            var merged := map0 + Source(secret, disk).entries;
            if AllComplete(merged) then r == Ok(true) && map1 == AllDefaulted(merged)
            else
              && (r == Failed || (r == Panicked && exists n :: n in merged && merged[n].dynamicAllocation == None))
              && PartlyDefaulted(map1, merged))
  }

  function Build(d: NsData): Resolver
    requires d.insecureSkipVerify.Some?
  {
    Resolver(d.address, d.username, d.password, d.insecureSkipVerify.value)
  }

  /** Everything a server and its configuration hold. */
  datatype View = View(nsMap: map<string, NsData>, lastModTime: Option<int>, temporary: bool, resolvers: map<string, Resolver>)

  /** Every name the source has is in the map and has a resolver, both as the source says. */
  predicate Coherent(v: View, source: map<string, NsData>) {
    forall n :: n in source ==>
      && n in v.nsMap && v.nsMap[n] == Defaulted(source[n])
      && n in v.resolvers && v.resolvers[n] == Build(Defaulted(source[n]))
  }

  /** What coherence means setting by setting: the entry is the source's, and the resolver has its address, its user, its
      password, and its word on certificates, which are not checked where it says nothing. */
  lemma CoherentExactly(v: View, source: map<string, NsData>)
    ensures Coherent(v, source) <==> forall n :: n in source ==>
      && n in v.nsMap && n in v.resolvers
      && v.nsMap[n] == source[n].(insecureSkipVerify := v.nsMap[n].insecureSkipVerify)
      && v.resolvers[n].address == source[n].address
      && v.resolvers[n].username == source[n].username
      && v.resolvers[n].password == source[n].password
      && v.nsMap[n].insecureSkipVerify == Some(v.resolvers[n].insecureSkipVerify)
      && (source[n].insecureSkipVerify == None ==> v.resolvers[n].insecureSkipVerify)
      && (source[n].insecureSkipVerify.Some? ==> v.nsMap[n].insecureSkipVerify == source[n].insecureSkipVerify)
  {
  }

  /** What refreshConfig does: the resolvers of all the map's entries are rebuilt when the map was re-read and is valid. A
      source that cannot be read or parsed leaves the map, and with an invalid map the resolvers stay. */
  predicate ServerStep(v: View, secret: Option<Content>, disk: Disk, w: View, r: Outcome) {
    if disk.NoFile? || !Changes(v.lastModTime, v.temporary, secret, disk) then
      w == v && r == if disk.NoFile? then Failed else Ok(false)
    else
      && w.temporary == secret.Some?
      && w.lastModTime == (if secret.Some? then v.lastModTime else Some(disk.modTime))
      && (if Source(secret, disk) == Malformed then r == Failed && w.nsMap == v.nsMap && w.resolvers == v.resolvers
          else
            var merged := v.nsMap + Source(secret, disk).entries;
            if AllComplete(merged) then
              && w.nsMap == AllDefaulted(merged)
              && (r == Panicked || (r == Ok(true) && AllBuilt(w)))
            else (r == Failed || r == Panicked) && PartlyDefaulted(w.nsMap, merged) && w.resolvers == v.resolvers)
  }

  predicate AllBuilt(v: View) {
    forall n :: n in v.nsMap ==>
      n in v.resolvers && v.nsMap[n].insecureSkipVerify.Some? && v.resolvers[n] == Build(v.nsMap[n])
  }

  class Server {
    const config: Config
    var resolvers: map<string, Resolver>

    constructor (config: Config)
      ensures this.config == config && resolvers == map[]
    {
      this.config, resolvers := config, map[];
    }

    ghost function Contents(): View
      reads this, config
    {
      View(config.nsMap, config.lastModTime, config.temporary, resolvers)
    }

    /** `builds` says for which settings a resolver can be built. One that cannot is dereferenced all the same, before
        the error is looked at. */
    method RefreshConfig(secret: Option<Content>, disk: Disk, builds: NsData -> bool) returns (r: Outcome)
      modifies this, config
      ensures ServerStep(old(Contents()), secret, disk, Contents(), r)
      ensures disk.File? && Changes(old(config.lastModTime), old(config.temporary), secret, disk) && Source(secret, disk).Document? ==>
        var merged := old(config.nsMap) + Source(secret, disk).entries;
        AllComplete(merged) ==> r == if forall n :: n in merged ==> builds(Defaulted(merged[n])) then Ok(true) else Panicked
    {
      r := config.Refresh(secret, disk);
      if r == Ok(true) {
        ghost var merged := old(config.nsMap) + Source(secret, disk).entries;
        assert config.nsMap == AllDefaulted(merged);
        assert forall n :: n in merged ==> n in config.nsMap && config.nsMap[n] == Defaulted(merged[n]);
        var built := BuildResolvers(builds);
        assert config.nsMap.Keys == merged.Keys;
        if !built {
          assert exists n :: n in merged && !builds(Defaulted(merged[n]));
          return Panicked;
        }
      }
    }

    /** The loop of refreshConfig. */
    method BuildResolvers(builds: NsData -> bool) returns (ok: bool)
      requires forall n :: n in config.nsMap ==> config.nsMap[n].insecureSkipVerify.Some?
      modifies `resolvers
      ensures ok <==> forall n :: n in config.nsMap ==> builds(config.nsMap[n])
      ensures ok ==> AllBuilt(Contents())
    {
      var left := config.nsMap.Keys;
      while left != {}
        invariant left <= config.nsMap.Keys
        invariant forall n :: n in config.nsMap && n !in left ==>
          n in resolvers && resolvers[n] == Build(config.nsMap[n]) && builds(config.nsMap[n])
      {
        var name :| name in left;
        left := left - {name};
        var cfg := config.nsMap[name];
        if !builds(cfg) { return false; }
        resolvers := resolvers[name := Build(cfg)];
      }
      return true;
    }
  }

  /* ---- runs ---- */

  datatype Event = Event(secret: Option<Content>, disk: Disk, outcome: Outcome)

  /** The views of one server through its refreshes, file edits in between; nobody else refreshes the configuration. */
  predicate IsRun(events: seq<Event>, views: seq<View>) {
    && |views| == |events| + 1
    && forall i :: 0 <= i < |events| ==> ServerStep(views[i], events[i].secret, events[i].disk, views[i + 1], events[i].outcome)
  }

  /** Every edit of the file changes its modification time: `history` tells what the file held at each. */
  predicate Truthful(disk: Disk, history: int -> Content) {
    disk.File? ==> disk.content == history(disk.modTime)
  }

  /** A failure that leaves nothing behind: a missing file, or a secret (it is re-read next time anyway). */
  predicate Harmless(e: Event) {
    e.outcome.Ok? || e.disk.NoFile? || e.secret.Some?
  }

  /** What must hold between refreshes for the modification time to be trusted. */
  predicate Synced(v: View, history: int -> Content) {
    !v.temporary && v.lastModTime.Some? ==>
      history(v.lastModTime.value).Document? && Coherent(v, history(v.lastModTime.value).entries)
  }

  /** The source as it is now: the secret passed, else what is in the file. */
  function Current(e: Event): Content {
    if e.secret.Some? then e.secret.value else if e.disk.File? then e.disk.content else Malformed
  }

  lemma StepKeepsSynced(v: View, e: Event, w: View, history: int -> Content)
    requires ServerStep(v, e.secret, e.disk, w, e.outcome) && Synced(v, history) && Truthful(e.disk, history)
    ensures e.outcome.Ok? ==> Current(e).Document? && Coherent(w, Current(e).entries)
    ensures Harmless(e) ==> Synced(w, history)
  {
  }

  /** The refresh re-reads the file. */
  predicate ReadsFile(v: View, e: Event) {
    e.secret == None && e.disk.File? && Changes(v.lastModTime, v.temporary, e.secret, e.disk)
  }

  /** A file that cannot be read or parsed does no harm exactly when the server already has all that is in it. */
  lemma UnreadableFileExactly(v: View, e: Event, w: View, history: int -> Content)
    requires ServerStep(v, e.secret, e.disk, w, e.outcome) && Truthful(e.disk, history)
    requires ReadsFile(v, e) && Source(e.secret, e.disk) == Malformed
    ensures Synced(w, history) <==> e.disk.content.Document? && Coherent(v, e.disk.content.entries)
  {
  }

  /** The resolvers are those the entries ask for. */
  predicate HasResolvers(v: View, entries: map<string, NsData>) {
    forall n :: n in entries ==> n in v.resolvers && v.resolvers[n] == Build(Defaulted(entries[n]))
  }

  /** A file that makes the map invalid does none exactly when the server already had its resolvers, where it leaves no
      default to be set; in any case it must have had them. */
  lemma InvalidFileExactly(v: View, e: Event, w: View, history: int -> Content)
    requires ServerStep(v, e.secret, e.disk, w, e.outcome) && Truthful(e.disk, history)
    requires ReadsFile(v, e) && Source(e.secret, e.disk).Document? && !AllComplete(v.nsMap + e.disk.content.entries)
    ensures Synced(w, history) ==> HasResolvers(v, e.disk.content.entries)
    ensures (forall n :: n in e.disk.content.entries ==> e.disk.content.entries[n].insecureSkipVerify.Some?) ==>
      (Synced(w, history) <==> HasResolvers(v, e.disk.content.entries))
  {
  }

  /** Across any mix of file edits, secrets and harmless failures, every successful refresh leaves each name of its
      current source with the entry and the resolver that the source gives it. */
  lemma {:induction false} RefreshesStayCoherent(events: seq<Event>, views: seq<View>, history: int -> Content)
    requires IsRun(events, views) && Synced(views[0], history)
    requires forall i :: 0 <= i < |events| ==> Truthful(events[i].disk, history)
    requires forall i :: 0 <= i < |events| - 1 ==> Harmless(events[i])
    ensures forall i :: 0 <= i < |events| && events[i].outcome.Ok? ==>
      Current(events[i]).Document? && Coherent(views[i + 1], Current(events[i]).entries)
  {
    if events != [] {
      StepKeepsSynced(views[0], events[0], views[1], history);
      if |events| > 1 {
        RefreshesStayCoherent(events[1..], views[1..], history);
      }
      forall i | 0 <= i < |events| && events[i].outcome.Ok?
        ensures Current(events[i]).Document? && Coherent(views[i + 1], Current(events[i]).entries)
      {
        if i > 0 {
          assert events[i] == events[1..][i - 1] && views[i + 1] == views[1..][i];
        }
      }
    }
  }

  /** A refresh without a secret of a file that still has the given modification time. */
  predicate Unedited(e: Event, modTime: int) {
    e.secret == None && e.disk.File? && e.disk.modTime == modTime
  }

  lemma {:induction false} NothingReRead(events: seq<Event>, views: seq<View>, modTime: int)
    requires IsRun(events, views) && !views[0].temporary && views[0].lastModTime == Some(modTime)
    requires forall i :: 0 <= i < |events| ==> Unedited(events[i], modTime)
    ensures forall i :: 0 <= i < |events| ==> events[i].outcome == Ok(false) && views[i + 1] == views[0]
  {
    if events != [] {
      assert Unedited(events[0], modTime);
      NothingReRead(events[1..], views[1..], modTime);
      forall i | 0 <= i < |events| ensures events[i].outcome == Ok(false) && views[i + 1] == views[0] {
        if i > 0 {
          assert events[i] == events[1..][i - 1] && views[i + 1] == views[1..][i];
        }
      }
    }
  }

  /** Every other failure, of reading, parsing, validating or building: until the file is edited or a secret comes, each
      refresh reports success and changes nothing, so it is right exactly when the failed one left it so. */
  lemma {:induction false} FailedReadGoesStale(events: seq<Event>, views: seq<View>)
    requires events != [] && IsRun(events, views) && !Harmless(events[0])
    requires forall i :: 1 <= i < |events| ==> Unedited(events[i], events[0].disk.modTime)
    ensures forall i :: 1 <= i < |events| ==> events[i].outcome == Ok(false) && views[i + 1] == views[1]
  {
    assert views[1..][0] == views[1];
    NothingReRead(events[1..], views[1..], events[0].disk.modTime);
    forall i | 1 <= i < |events| ensures events[i].outcome == Ok(false) && views[i + 1] == views[1] {
      assert events[i] == events[1..][i - 1] && views[i + 1] == views[1..][i];
    }
  }

  function AllResolvers(entries: map<string, NsData>): map<string, Resolver> {
    map n | n in entries :: Build(Defaulted(entries[n]))
  }

  /** A server as it starts, loaded from the file. */
  function Loaded(modTime: int, entries: map<string, NsData>): View {
    View(AllDefaulted(entries), Some(modTime), false, AllResolvers(entries))
  }

  lemma LoadedFromFile(modTime: int, entries: map<string, NsData>)
    requires AllComplete(entries)
    ensures ServerStep(View(map[], None, false, map[]), None, File(modTime, true, Document(entries)),
                       Loaded(modTime, entries), Ok(true))
    ensures Coherent(Loaded(modTime, entries), entries)
  {
    assert map[] + entries == entries;
  }

  /** So a server that has loaded d0, and cannot read the edited file once, keeps d0 while it reports success; which is
      right exactly when the edit neither added nor changed an entry. */
  lemma StaleAfterOneFailure(time0: int, time1: int, d0: map<string, NsData>, d1: map<string, NsData>)
    requires time0 != time1
    ensures var before, edited := Loaded(time0, d0), Document(d1);
      var after := before.(lastModTime := Some(time1));
      && ServerStep(before, None, File(time1, false, edited), after, Failed)
      && ServerStep(after, None, File(time1, true, edited), after, Ok(false))
      && (Coherent(after, d1) <==> forall n :: n in d1 ==> n in d0 && Defaulted(d0[n]) == Defaulted(d1[n]))
  {
  }

  /** Another server may refresh the same configuration only with a secret, which is re-read, or when the resolvers this
      one has are those that the file now asks for. */
  lemma SharedRefresh(v: View, secret: Option<Content>, disk: Disk, nsMap: map<string, NsData>,
                      lastModTime: Option<int>, temporary: bool, history: int -> Content)
    requires ConfigStep(v.nsMap, v.lastModTime, v.temporary, secret, disk, nsMap, lastModTime, temporary, Ok(true))
    requires Truthful(disk, history)
    ensures Synced(View(nsMap, lastModTime, temporary, v.resolvers), history) <==>
      secret.Some? || HasResolvers(v, disk.content.entries)
  {
    if secret == None {
      var entries := disk.content.entries;
      assert forall n :: n in entries ==> n in nsMap && nsMap[n] == Defaulted(entries[n]);
    }
  }

  /** Otherwise this one, having loaded d0, reports success on d1 and keeps the old resolvers. */
  lemma SharedConfigGoesStale(time0: int, time1: int, d0: map<string, NsData>, d1: map<string, NsData>)
    requires time0 != time1 && AllComplete(d0) && AllComplete(d1)
    ensures var before, file := Loaded(time0, d0), File(time1, true, Document(d1));
      var nsMap := AllDefaulted(d0 + d1);
      var mine := View(nsMap, Some(time1), false, before.resolvers);
      && ConfigStep(before.nsMap, before.lastModTime, before.temporary, None, file, nsMap, Some(time1), false, Ok(true))
      && ServerStep(mine, None, file, mine, Ok(false))
      && (Coherent(mine, d1) <==> HasResolvers(before, d1))
  {
    MergedDefaults(d0, d1);
    var before, file := Loaded(time0, d0), File(time1, true, Document(d1));
    SharedRefresh(before, None, file, AllDefaulted(d0 + d1), Some(time1), false, _ => Document(d1));
  }

  lemma MergedDefaults(d0: map<string, NsData>, d1: map<string, NsData>)
    requires AllComplete(d0) && AllComplete(d1)
    ensures AllDefaulted(AllDefaulted(d0) + d1) == AllDefaulted(d0 + d1)
    ensures AllComplete(AllDefaulted(d0) + d1)
  {
  }

  /** Names that the new source no longer has stay: the map equals the source exactly when all old names are in it. */
  lemma RemovedNamesStay(v: View, e: Event, w: View)
    requires ServerStep(v, e.secret, e.disk, w, e.outcome) && e.outcome == Ok(true)
    ensures var source := Source(e.secret, e.disk).entries;
      w.nsMap == AllDefaulted(source) <==> v.nsMap.Keys <= source.Keys
  {
    var source := Source(e.secret, e.disk).entries;
    if v.nsMap.Keys <= source.Keys {
      assert v.nsMap + source == source;
    } else {
      var n :| n in v.nsMap && n !in source;
      assert n in w.nsMap;
    }
  }
}
