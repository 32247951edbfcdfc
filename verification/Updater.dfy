/**
 The host-side update transaction (`airwaves-update`): back up, sync host files, download, pin, pull, recreate,
 gate on health, and roll back. Signals are the subject of `Watchdog`.
 */
module Updater {
  import opened Values
  import opened Text
  import opened Watchdog

  /** A host file of the manifest; `canonical` is what `realpath -m` makes of `dest`. Absent strings are empty. */
  datatype HostFile = HostFile(url: string, dest: string, canonical: string, sha256: string)

  /** `request.json` as jq reads it: absent values are empty strings. */
  datatype Request = Request(
    components: seq<string>, recreate: bool,
    composeUrl: string, composeSha256: string, composeVersion: Option<nat>,
    catalogUrl: string, catalogSha256: string, catalogVersion: Option<nat>,
    osMajorTo: string,
    managerImage: string, managerTag: string, gatewayImage: string, gatewayTag: string,
    hostFiles: seq<HostFile>)

  /** File contents, as far as this program looks into them. */
  datatype Content =
    | Compose(images: map<string, string>)            // container name to image reference
    | Versions(markers: map<string, nat>, channel: string)
    | Job(request: Request)
    | Blob(text: string)

  /** What a URL serves. */
  datatype Artifact = Artifact(content: Content, sha256: string)

  datatype RunStatus = RunStatus(state: State, phase: string, finished: bool, error: bool)

  /** The four files that are snapshotted. */
  datatype Managed = ComposeYml | CatalogJson | VersionsJson | ConfigJson

  datatype Path = Live(file: Managed) | BackupOf(file: Managed) | RequestJson | Elsewhere(name: string)

  type Files = map<Path, Content>

  const COMPOSE := Live(ComposeYml)
  const CATALOG := Live(CatalogJson)
  const VERSIONS := Live(VersionsJson)
  const CONFIG := Live(ConfigJson)
  const REQUEST := RequestJson
  const BACKUP_DIR := "/etc/airwaves/update/backup"

  function FileName(f: Managed): string {
    match f
    case ComposeYml => "docker-compose.yml"
    case CatalogJson => "catalog.json"
    case VersionsJson => ".versions.json"
    case ConfigJson => "config.json"
  }

  /** The modelled file at a canonical host path. */
  function PathOf(name: string): Path {
    if name == "/etc/airwaves/" + FileName(ComposeYml) then COMPOSE
    else if name == "/etc/airwaves/" + FileName(CatalogJson) then CATALOG
    else if name == "/etc/airwaves/" + FileName(VersionsJson) then VERSIONS
    else if name == "/etc/airwaves/" + FileName(ConfigJson) then CONFIG
    else if name == "/etc/airwaves/update/request.json" then REQUEST
    else if name == BACKUP_DIR + "/" + FileName(ComposeYml) then BackupOf(ComposeYml)
    else if name == BACKUP_DIR + "/" + FileName(CatalogJson) then BackupOf(CatalogJson)
    else if name == BACKUP_DIR + "/" + FileName(VersionsJson) then BackupOf(VersionsJson)
    else if name == BACKUP_DIR + "/" + FileName(ConfigJson) then BackupOf(ConfigJson)
    else Elsewhere(name)
  }

  /** The host path of a modelled file. */
  function HostPath(p: Path): string {
    match p
    case Live(f) => "/etc/airwaves/" + FileName(f)
    case BackupOf(f) => BACKUP_DIR + "/" + FileName(f)
    case RequestJson => "/etc/airwaves/update/request.json"
    case Elsewhere(name) => name
  }

  lemma FileNamesDiffer(f: Managed, g: Managed)
    requires FileName(f) == FileName(g)
    ensures f == g
  {
    var x, y := FileName(f), FileName(g);
    assert x[0] == y[0] && x[1] == y[1];
  }

  /** Every host path is modelled by one file, and each of the named files by its own host path. */
  lemma PathsAreHostPaths(name: string, p: Path)
    ensures HostPath(PathOf(name)) == name
    ensures !p.Elsewhere? ==> PathOf(HostPath(p)) == p
  {
    hide FileName;
    var q := PathOf(HostPath(p));
    NamedIsNotElsewhere(p);
    if p.Live? && q.Live? {
      assert FileName(p.file) == HostPath(p)[|"/etc/airwaves/"|..] == FileName(q.file);
      FileNamesDiffer(p.file, q.file);
    } else if p.BackupOf? && q.BackupOf? {
      assert FileName(p.file) == HostPath(p)[|BACKUP_DIR| + 1..] == FileName(q.file);
      FileNamesDiffer(p.file, q.file);
    } else if !p.Elsewhere? && p != q {
      PathOfKeepsName(HostPath(p));
      DirectoriesDiffer(p, q);
    }
  }

  lemma PathOfKeepsName(name: string)
    ensures HostPath(PathOf(name)) == name
  {
    hide FileName;
  }

  lemma NamedIsNotElsewhere(p: Path)
    ensures !p.Elsewhere? ==> !PathOf(HostPath(p)).Elsewhere?
  {
    hide FileName;
    if p.Live? || p.BackupOf? {
      match p.file
      case ComposeYml =>
      case CatalogJson =>
      case VersionsJson =>
      case ConfigJson =>
    }
  }

  lemma DirectoriesDiffer(p: Path, q: Path)
    requires HostPath(p) == HostPath(q) && !p.Elsewhere? && !q.Elsewhere? && p != q
    ensures (p.Live? && q.Live?) || (p.BackupOf? && q.BackupOf?)
  {
    var dir := |"/etc/airwaves/"|;
    assert |BACKUP_DIR| == dir + 13 && BACKUP_DIR[dir] == 'u' && BACKUP_DIR[dir + 7] == 'b';
  }

  /** A destination outside the backup directory is not one of the backups. */
  lemma OutsideBackup(name: string)
    requires !(BACKUP_DIR <= name)
    ensures !PathOf(name).BackupOf?
  {
    hide FileName;
  }

  const NO_REQUEST := Request([], false, "", "", None, "", "", None, "", "", "", "", "", [])

  function Lookup(fs: Files, p: Path): Option<Content> {
    if p in fs then Some(fs[p]) else None
  }

  /** `cp -f` guarded by a test that the source exists. */
  function Copied(fs: Files, from: Path, to: Path): Files {
    if from in fs then fs[to := fs[from]] else fs
  }

  function RequestIn(fs: Files): Request {
    if REQUEST in fs && fs[REQUEST].Job? then fs[REQUEST].request else NO_REQUEST
  }

  predicate Wants(r: Request, component: string) {
    component in r.components || "all" in r.components
  }

  predicate WantsImages(r: Request) {
    Wants(r, "manager") || Wants(r, "gateway") || Wants(r, "compose") || r.recreate
  }

  // ---- tag pins and version markers ------------------------------------------------------------

  predicate IsRefChar(c: char) {
    c != '"' && c != '\'' && !(c == ' ' || '\t' <= c <= '\r')
  }

  /** How many characters the pattern's run of non-quote, non-space characters takes. */
  function RunLength(s: string): (n: nat)
    ensures n <= |s|
  {
    if s != "" && IsRefChar(s[0]) then 1 + RunLength(s[1..]) else 0
  }

  /** The sed substitution of `pin_image_tag` on one line of text. */
  function PinText(s: string, image: string, tag: string): string
    decreases |s|
  {
    if s == "" then ""
    else if image + ":" <= s && RunLength(s[|image| + 1..]) > 0 then
      image + ":" + tag + PinText(s[|image| + 1 + RunLength(s[|image| + 1..])..], image, tag)
    else [s[0]] + PinText(s[1..], image, tag)
  }

  function Reference(image: string, tag: string): string {
    image + ":" + tag
  }

  predicate AllRefChars(s: string) {
    forall c | c in s :: IsRefChar(c)
  }

  lemma {:induction false} RunTakesAll(s: string)
    requires AllRefChars(s)
    ensures RunLength(s) == |s|
  {
    if s != "" {
      assert s[0] in s && forall c | c in s[1..] :: c in s;
      RunTakesAll(s[1..]);
    }
  }

  /** The pin replaces whatever tag the image had. */
  lemma PinReplacesTag(image: string, before: string, tag: string)
    requires before != "" && AllRefChars(before)
    ensures PinText(Reference(image, before), image, tag) == Reference(image, tag)
  {
    var s := Reference(image, before);
    assert s[|image| + 1..] == before;
    RunTakesAll(before);
    assert s[|image| + 1 + |before|..] == "";
    assert PinText("", image, tag) == "";
    assert image + ":" <= s;
  }

  /** What ends a reference in the text of a compose file. */
  predicate EndsReference(c: char) {
    c == '"' || c == '\'' || c == ' ' || '\t' <= c <= '\r'
  }

  lemma {:induction false} RunStops(tag: string, rest: string)
    requires (forall c | c in tag :: !EndsReference(c)) && (rest == "" || EndsReference(rest[0]))
    ensures RunLength(tag + rest) == |tag|
  {
    if tag == "" {
      assert tag + rest == rest;
    } else {
      assert (tag + rest)[1..] == tag[1..] + rest && (tag + rest)[0] == tag[0] && tag[0] in tag;
      RunStops(tag[1..], rest);
    }
  }

  /** In a text the tag is replaced up to a quote or a space, and a name without a tag stays. */
  lemma PinInText(image: string, before: string, rest: string, tag: string)
    requires (forall c | c in before :: !EndsReference(c)) && (rest == "" || EndsReference(rest[0]))
    requires before != ""
    ensures PinText(Reference(image, before) + rest, image, tag) == Reference(image, tag) + PinText(rest, image, tag)
  {
    var s := Reference(image, before) + rest;
    assert s[|image| + 1..] == before + rest;
    RunStops(before, rest);
    assert s[|image| + 1 + |before|..] == rest;
    assert image + ":" <= s;
  }

  lemma UntaggedHead(s: string, image: string, tag: string)
    requires s != "" && (image + ":" <= s ==> |s| == |image| + 1 || EndsReference(s[|image| + 1]))
    ensures PinText(s, image, tag) == [s[0]] + PinText(s[1..], image, tag)
  {
    if image + ":" <= s {
      RunStops("", s[|image| + 1..]);
      assert "" + s[|image| + 1..] == s[|image| + 1..];
    }
  }

  /** The image's name, with a colon but without a tag, is left alone. */
  lemma {:induction false} UntaggedStays(s: string, image: string, tag: string)
    requires forall i: nat | OccursAt(s, image + ":", i) ::
      i + |image| + 1 == |s| || EndsReference(s[i + |image| + 1])
    ensures PinText(s, image, tag) == s
  {
    var pat := image + ":";
    if s != "" {
      assert pat <= s ==> OccursAt(s, pat, 0);
      UntaggedHead(s, image, tag);
      hide EndsReference, PinText;
      forall i: nat | OccursAt(s[1..], pat, i)
        ensures i + |image| + 1 == |s[1..]| || EndsReference(s[1..][i + |image| + 1])
      {
        assert s[1..][i..i + |pat|] == s[i + 1..i + 1 + |pat|];
        assert OccursAt(s, pat, i + 1);
      }
      UntaggedStays(s[1..], image, tag);
    }
  }

  /** A reference in which the image's name does not occur is left alone. */
  lemma {:induction false} PinLeavesOthers(s: string, image: string, tag: string)
    requires !Contains(s, image + ":")
    ensures PinText(s, image, tag) == s
  {
    var pat := image + ":";
    if s != "" {
      assert !OccursAt(s, pat, 0);
      forall i: nat | i <= |s[1..]|
        ensures !OccursAt(s[1..], pat, i)
      {
        assert !OccursAt(s, pat, i + 1);
        assert i + |pat| <= |s[1..]| ==> s[1..][i..i + |pat|] == s[i + 1..i + 1 + |pat|];
      }
      PinLeavesOthers(s[1..], image, tag);
      assert !(pat <= s);
    }
  }

  /** What pinning does to one image reference. */
  ghost predicate PinsReference(before: string, after: string, image: string, tag: string) {
    && (forall t | t != "" && AllRefChars(t) && before == Reference(image, t) :: after == Reference(image, tag))
    && (!Contains(before, image + ":") ==> after == before)
  }

  lemma PinnedReference(before: string, image: string, tag: string)
    ensures PinsReference(before, PinText(before, image, tag), image, tag)
  {
    hide PinText, Contains;
    forall t | t != "" && AllRefChars(t) && before == Reference(image, t)
      ensures PinText(before, image, tag) == Reference(image, tag)
    {
      PinReplacesTag(image, t, tag);
    }
    if !Contains(before, image + ":") {
      PinLeavesOthers(before, image, tag);
    }
  }

  function Pinned(c: Content, image: string, tag: string): Content {
    match c
    case Compose(images) => Compose(map n | n in images :: PinText(images[n], image, tag))
    case Blob(text) => Blob(PinText(text, image, tag))
    case _ => c
  }

  function PinnedIfNamed(c: Content, image: string, tag: string): Content {
    if image != "" && tag != "" then Pinned(c, image, tag) else c
  }

  function BothPinned(c: Content, r: Request): Content {
    PinnedIfNamed(PinnedIfNamed(c, r.managerImage, r.managerTag), r.gatewayImage, r.gatewayTag)
  }

  /** jq's update of one marker; it fails, and changes nothing, on a file of another shape. */
  function Marked(c: Option<Content>, key: string, value: nat): Content {
    match c
    case None => Versions(map[key := value], "")
    case Some(Versions(markers, channel)) => Versions(markers[key := value], channel)
    case Some(other) => other
  }

  // ---- what a successful run leaves ------------------------------------------------------------

  function Downloaded(start: Option<Content>, wanted: bool, url: string,
      served: map<string, Artifact>): Option<Content> {
    if wanted && url != "" && url in served then Some(served[url].content) else start
  }

  /** The compose file once the images of the request are pinned in it; a repair leaves the tags alone. */
  function PinnedFor(compose: Option<Content>, r: Request): Option<Content> {
    match compose
    case None => None
    case Some(c) => Some(if r.recreate then c else BothPinned(c, r))
  }

  function ExpectedCompose(start: Option<Content>, r: Request, served: map<string, Artifact>): Option<Content> {
    var downloaded := Downloaded(start, Wants(r, "compose"), r.composeUrl, served);
    if WantsImages(r) then PinnedFor(downloaded, r) else downloaded
  }

  function MarkedIf(start: Option<Content>, wanted: bool, url: string, key: string,
      version: Option<nat>): Option<Content> {
    if wanted && url != "" && version.Some? then Some(Marked(start, key, version.value)) else start
  }

  function ExpectedVersions(start: Option<Content>, r: Request): Option<Content> {
    MarkedIf(MarkedIf(start, Wants(r, "compose"), r.composeUrl, "compose", r.composeVersion),
             Wants(r, "catalog"), r.catalogUrl, "catalog", r.catalogVersion)
  }

  /** What was asked for is served, under the stated checksum if there is one. */
  predicate Fetched(wanted: bool, url: string, sha: string, served: map<string, Artifact>) {
    wanted && url != "" ==> url in served && (sha == "" || served[url].sha256 == sha)
  }

  predicate ConfigDownloaded(before: Files, after: Files, r: Request, served: map<string, Artifact>) {
    && Fetched(Wants(r, "compose"), r.composeUrl, r.composeSha256, served)
    && Fetched(Wants(r, "catalog"), r.catalogUrl, r.catalogSha256, served)
    && Lookup(after, COMPOSE) == Downloaded(Lookup(before, COMPOSE), Wants(r, "compose"), r.composeUrl, served)
    && Lookup(after, CATALOG) == Downloaded(Lookup(before, CATALOG), Wants(r, "catalog"), r.catalogUrl, served)
    && Lookup(after, VERSIONS) == ExpectedVersions(Lookup(before, VERSIONS), r)
  }

  /** Every container of the compose file runs the image reference that the file names. */
  predicate Deployed(running: map<string, string>, compose: Option<Content>) {
    compose.Some? && compose.value.Compose? ==>
      forall n | n in compose.value.images :: n in running && running[n] == compose.value.images[n]
  }

  predicate IsConfigFile(p: Path) {
    p == COMPOSE || p == CATALOG || p == VERSIONS
  }

  predicate AvoidsConfig(r: Request) {
    forall h | h in r.hostFiles :: !IsConfigFile(PathOf(h.canonical))
  }

  /** What success means for the three managed files and the containers. */
  predicate Applied(start: Files, r: Request, served: map<string, Artifact>, end: Files, running: map<string, string>) {
    && Fetched(Wants(r, "compose"), r.composeUrl, r.composeSha256, served)
    && Fetched(Wants(r, "catalog"), r.catalogUrl, r.catalogSha256, served)
    && Lookup(end, COMPOSE) == ExpectedCompose(Lookup(start, COMPOSE), r, served)
    && Lookup(end, CATALOG) == Downloaded(Lookup(start, CATALOG), Wants(r, "catalog"), r.catalogUrl, served)
    && Lookup(end, VERSIONS) == ExpectedVersions(Lookup(start, VERSIONS), r)
    && (WantsImages(r) ==> Deployed(running, Lookup(end, COMPOSE)))
  }

  /**
   After success a wanted catalog is what its URL serves under the stated checksum, and so is a wanted compose file,
   with the tags of the request pinned in it.
   */
  lemma AppliedIsServed(start: Files, r: Request, served: map<string, Artifact>, end: Files,
      running: map<string, string>)
    requires Applied(start, r, served, end, running)
    ensures Wants(r, "catalog") && r.catalogUrl != "" ==>
      && r.catalogUrl in served && (r.catalogSha256 == "" || served[r.catalogUrl].sha256 == r.catalogSha256)
      && Lookup(end, CATALOG) == Some(served[r.catalogUrl].content)
    ensures Wants(r, "compose") && r.composeUrl != "" ==>
      && r.composeUrl in served && (r.composeSha256 == "" || served[r.composeUrl].sha256 == r.composeSha256)
      && Lookup(end, COMPOSE) == PinnedFor(Some(served[r.composeUrl].content), r)
    ensures !Wants(r, "catalog") || r.catalogUrl == "" ==> Lookup(end, CATALOG) == Lookup(start, CATALOG)
    ensures !WantsImages(r) ==> Lookup(end, COMPOSE) == Lookup(start, COMPOSE)
  {
  }

  /** Pinning changes the compose file alone. */
  ghost predicate ImagesPinned(before: Files, after: Files, r: Request) {
    && (forall p: Path | p != COMPOSE :: Lookup(after, p) == Lookup(before, p))
    && Lookup(after, COMPOSE) == PinnedFor(Lookup(before, COMPOSE), r)
  }

  ghost predicate ImagesApplied(before: Files, after: Files, r: Request, running: map<string, string>) {
    ImagesPinned(before, after, r) && Deployed(running, Lookup(after, COMPOSE))
  }

  // ---- health gate -----------------------------------------------------------------------------

  /** What `docker inspect` says of one container; `None` when it fails. */
  datatype Health = Healthy | NoCheck | Unhealthy

  datatype Observation = Observation(health: Health, isRunning: bool)

  predicate ContainerHealthy(o: Option<Observation>) {
    o.Some? && (o.value.health.Healthy? || (o.value.health.NoCheck? && o.value.isRunning))
  }

  predicate BothHealthy(poll: (Option<Observation>, Option<Observation>)) {
    ContainerHealthy(poll.0) && ContainerHealthy(poll.1)
  }

  /**
   Docker's verdict decides; a container without a health check must be running; one that cannot be inspected fails.
   */
  lemma ContainerHealthyExactly(isRunning: bool)
    ensures ContainerHealthy(Some(Observation(Healthy, isRunning)))
    ensures !ContainerHealthy(Some(Observation(Unhealthy, isRunning))) && !ContainerHealthy(None)
    ensures ContainerHealthy(Some(Observation(NoCheck, isRunning))) <==> isRunning
  {
  }

  /** `wait_healthy` over the polls that fit before the deadline: manager, then gateway. */
  method WaitHealthy(polls: seq<(Option<Observation>, Option<Observation>)>) returns (ok: bool)
    ensures ok <==> exists p | p in polls :: BothHealthy(p)
  {
    for i := 0 to |polls|
      invariant forall p | p in polls[..i] :: !BothHealthy(p)
    {
      if ContainerHealthy(polls[i].0) && ContainerHealthy(polls[i].1) {
        assert BothHealthy(polls[i]);
        return true;
      }
    }
    assert polls[..|polls|] == polls;
    return false;
  }

  // ---- the host files --------------------------------------------------------------------------

  predicate AllowedRoot(p: string) {
    || "/opt/airwaves/" <= p || "/etc/airwaves/" <= p || "/etc/systemd/system/" <= p
    || "/etc/update-motd.d/" <= p || "/etc/udev/rules.d/" <= p
  }

  predicate MaySync(h: HostFile, selfPath: string) {
    && h.url != "" && h.dest != ""
    && !Contains(h.dest, "..") && !Contains(h.dest, "//") && "/" <= h.dest
    && AllowedRoot(h.canonical) && h.canonical != selfPath && h.sha256 != ""
  }

  /** The directories below which host files may go. */
  const HOST_ROOTS: seq<string> := ["/opt/airwaves/", "/etc/airwaves/", "/etc/systemd/system/", "/etc/update-motd.d/",
                                    "/etc/udev/rules.d/"]

  predicate UnderHostRoot(name: string) {
    exists root | root in HOST_ROOTS :: root <= name
  }

  /** An absolute path in which no two dots and no two slashes are adjacent. */
  predicate PlainPath(dest: string) {
    && dest != "" && dest[0] == '/'
    && forall i | 0 < i < |dest| && dest[i] == dest[i - 1] :: dest[i] != '.' && dest[i] != '/'
  }

  /** What a host file must be like to be written as host root. */
  predicate Permitted(h: HostFile, selfPath: string) {
    && PlainPath(h.dest) && UnderHostRoot(h.canonical) && h.canonical != selfPath && h.sha256 != "" && h.url != ""
  }

  lemma PairOccurs(s: string, c: char)
    ensures Contains(s, [c, c]) <==> exists i :: 0 < i < |s| && s[i] == c && s[i - 1] == c
  {
    forall i | 0 < i < |s| && s[i] == c && s[i - 1] == c
      ensures OccursAt(s, [c, c], i - 1)
    {
      assert s[i - 1..i + 1] == [c, c];
    }
    if i: nat :| i <= |s| && OccursAt(s, [c, c], i) {
      var found := s[i..i + 2];
      assert found[0] == s[i] && found[1] == s[i + 1];
    }
  }

  /** The tests of the loop admit exactly the permitted files. */
  lemma MaySyncExactly(h: HostFile, selfPath: string)
    ensures MaySync(h, selfPath) <==> Permitted(h, selfPath)
    ensures Permitted(h, selfPath) ==> h.sha256 != ""
  {
    hide Contains;
    PairOccurs(h.dest, '.');
    PairOccurs(h.dest, '/');
    assert ".." == ['.', '.'] && "//" == ['/', '/'];
    assert AllowedRoot(h.canonical) <==> UnderHostRoot(h.canonical) by {
      assert HOST_ROOTS[0] in HOST_ROOTS && HOST_ROOTS[1] in HOST_ROOTS && HOST_ROOTS[2] in HOST_ROOTS;
      assert HOST_ROOTS[3] in HOST_ROOTS && HOST_ROOTS[4] in HOST_ROOTS;
    }
  }

  /** One pass over the host files: what is served, the running script, and whether curl gets the i-th answer. */
  datatype HostSync = HostSync(files: seq<HostFile>, served: map<string, Artifact>, selfPath: string,
      reached: seq<bool>)

  /** The i-th host file is written, to this path. */
  predicate ArrivesAt(sync: HostSync, i: nat, p: Path) {
    && i < |sync.files| && i < |sync.reached| && sync.reached[i]
    && var h := sync.files[i];
       Permitted(h, sync.selfPath) && PathOf(h.canonical) == p
       && h.url in sync.served && sync.served[h.url].sha256 == h.sha256
  }

  function ServedFor(sync: HostSync, i: nat): Option<Content>
    requires i < |sync.files|
  {
    var url := sync.files[i].url;
    if url in sync.served then Some(sync.served[url].content) else None
  }

  /** Of the first `n` host files, this is the last one written to the path. */
  predicate LastArrival(sync: HostSync, i: nat, n: nat, p: Path) {
    i < n && ArrivesAt(sync, i, p) && forall j | i < j < n :: !ArrivesAt(sync, j, p)
  }

  /** After the first `n` host files a path holds the last one that was written to it, or else what it held before. */
  ghost predicate SyncedAt(sync: HostSync, before: Files, after: Files, n: nat, p: Path)
    requires n <= |sync.files|
  {
    && (forall i | LastArrival(sync, i, n, p) :: Lookup(after, p) == ServedFor(sync, i))
    && ((forall i | 0 <= i < n :: !ArrivesAt(sync, i, p)) ==> Lookup(after, p) == Lookup(before, p))
  }

  ghost predicate AllSynced(sync: HostSync, before: Files, after: Files, n: nat)
    requires n <= |sync.files|
  {
    forall p :: SyncedAt(sync, before, after, n, p)
  }

  lemma NothingSynced(sync: HostSync, fs: Files)
    ensures AllSynced(sync, fs, fs, 0)
  {
  }

  lemma SyncStep(sync: HostSync, before: Files, now: Files, next: Files, n: nat)
    requires n < |sync.files| && AllSynced(sync, before, now, n)
    requires var p := PathOf(sync.files[n].canonical);
      next == if ArrivesAt(sync, n, p) then now[p := sync.served[sync.files[n].url].content] else now
    ensures AllSynced(sync, before, next, n + 1)
  {
    hide Permitted, PathOf;
    var m := n + 1;
    forall p
      ensures SyncedAt(sync, before, next, m, p)
    {
      assert SyncedAt(sync, before, now, n, p);
      if ArrivesAt(sync, n, p) {
        assert Lookup(next, p) == ServedFor(sync, n);
      } else {
        assert Lookup(next, p) == Lookup(now, p);
        forall i | LastArrival(sync, i, m, p)
          ensures LastArrival(sync, i, n, p)
        {
        }
      }
    }
  }

  lemma {:induction false} SomeLastArrival(sync: HostSync, n: nat, p: Path) returns (i: nat)
    ensures LastArrival(sync, i, n, p) || forall j | 0 <= j < n :: !ArrivesAt(sync, j, p)
  {
    hide ArrivesAt;
    i := 0;
    if n > 0 {
      if ArrivesAt(sync, n - 1, p) {
        i := n - 1;
      } else {
        i := SomeLastArrival(sync, n - 1, p);
      }
    }
  }

  /**
   Whatever path the host files change, it is below an allowed directory, is not the running script, and now holds
   what is served under the checksum of its entry.
   */
  lemma OnlyPermittedPathsChange(sync: HostSync, before: Files, after: Files, n: nat, p: Path)
    requires n <= |sync.files| && SyncedAt(sync, before, after, n, p) && Lookup(after, p) != Lookup(before, p)
    ensures exists h | h in sync.files ::
      && PathOf(h.canonical) == p && UnderHostRoot(h.canonical) && h.canonical != sync.selfPath && h.sha256 != ""
      && h.url in sync.served && sync.served[h.url].sha256 == h.sha256
      && Lookup(after, p) == Some(sync.served[h.url].content)
  {
    var i := SomeLastArrival(sync, n, p);
    assert sync.files[i] in sync.files;
  }

  /**
   A permitted host file that is reached and matches its checksum is there at the end, unless a later one replaces
   it.
   */
  lemma PermittedFileArrives(sync: HostSync, before: Files, after: Files, i: nat)
    requires i < |sync.files| && i < |sync.reached| && sync.reached[i] && Permitted(sync.files[i], sync.selfPath)
    requires var h := sync.files[i]; h.url in sync.served && sync.served[h.url].sha256 == h.sha256
    requires forall j | i < j < |sync.files| :: PathOf(sync.files[j].canonical) != PathOf(sync.files[i].canonical)
    requires SyncedAt(sync, before, after, |sync.files|, PathOf(sync.files[i].canonical))
    ensures Lookup(after, PathOf(sync.files[i].canonical)) == Some(sync.served[sync.files[i].url].content)
  {
    assert LastArrival(sync, i, |sync.files|, PathOf(sync.files[i].canonical));
  }

  /** Two states that agree on everything but the three config files. */
  ghost predicate OnlyConfig(before: Files, after: Files) {
    forall p: Path | !IsConfigFile(p) :: Lookup(after, p) == Lookup(before, p)
  }

  /** From the start to the end of a run, host files explain every path that is no config file and no snapshot. */
  ghost predicate HostFilesSynced(sync: HostSync, start: Files, end: Files) {
    forall p: Path | !p.BackupOf? && !IsConfigFile(p) :: SyncedAt(sync, start, end, |sync.files|, p)
  }

  lemma ConfigAlone(fs: Files)
    ensures OnlyConfig(fs, fs)
  {
  }

  lemma ConfigOnConfig(before: Files, between: Files)
    requires OnlyConfig(before, between)
    ensures forall after :: OnlyConfig(between, after) ==> OnlyConfig(before, after)
  {
  }

  lemma PinnedOnlyConfig(before: Files, after: Files, r: Request)
    requires ImagesPinned(before, after, r)
    ensures OnlyConfig(before, after)
  {
  }

  lemma SyncedOverRun(sync: HostSync, start: Files, copied: Files, synced: Files, end: Files)
    requires forall p: Path | !p.BackupOf? :: Lookup(copied, p) == Lookup(start, p)
    requires AllSynced(sync, copied, synced, |sync.files|) && OnlyConfig(synced, end)
    ensures HostFilesSynced(sync, start, end)
  {
    forall p: Path | !p.BackupOf? && !IsConfigFile(p)
      ensures SyncedAt(sync, start, end, |sync.files|, p)
    {
      assert SyncedAt(sync, copied, synced, |sync.files|, p);
    }
  }

  lemma StaysSynced(sync: HostSync, start: Files, configured: Files, end: Files)
    requires HostFilesSynced(sync, start, configured) && OnlyConfig(configured, end)
    ensures HostFilesSynced(sync, start, end)
  {
    forall p: Path | !p.BackupOf? && !IsConfigFile(p)
      ensures SyncedAt(sync, start, end, |sync.files|, p)
    {
      assert SyncedAt(sync, start, configured, |sync.files|, p);
    }
  }

  /** No host file lands in the backup directory or replaces the request that is being carried out. */
  predicate LeavesBackup(r: Request) {
    forall h | h in r.hostFiles :: !(BACKUP_DIR <= h.canonical) && PathOf(h.canonical) != REQUEST
  }

  // ---- what the outside world does -------------------------------------------------------------

  /** One of the two OS phases: free space, `apt-get update`, and the upgrade itself. */
  datatype OsAnswers = OsAnswers(enoughSpace: bool, updated: bool, upgraded: bool)

  /** Curl on the host files, the compose file and the catalog; disk space and Docker; the containers' health; apt. */
  datatype Answers = Answers(
    hostFiles: seq<bool>, compose: bool, catalog: bool,
    imageSpace: bool, pulled: bool, recreated: bool, polls: seq<(Option<Observation>, Option<Observation>)>,
    packages: OsAnswers, major: OsAnswers)

  predicate Gets(wanted: bool, url: string, sha: string, served: map<string, Artifact>, reached: bool) {
    wanted && url != "" ==> reached && Fetched(wanted, url, sha, served)
  }

  predicate ConfigSucceeds(r: Request, served: map<string, Artifact>, answers: Answers) {
    && Gets(Wants(r, "compose"), r.composeUrl, r.composeSha256, served, answers.compose)
    && Gets(Wants(r, "catalog"), r.catalogUrl, r.catalogSha256, served, answers.catalog)
  }

  predicate ImagesSucceed(answers: Answers) {
    && answers.imageSpace && answers.pulled && answers.recreated
    && exists p | p in answers.polls :: BothHealthy(p)
  }

  predicate PhaseSucceeds(answers: OsAnswers) {
    answers == OsAnswers(true, true, true)
  }

  predicate OsSucceeds(r: Request, answers: Answers) {
    && (Wants(r, "os_packages") ==> PhaseSucceeds(answers.packages))
    && (Wants(r, "os_major") && r.osMajorTo != "" ==> PhaseSucceeds(answers.major))
  }

  /** How a run that finds its request ends. */
  function Outcome(r: Request, served: map<string, Artifact>, answers: Answers): State {
    if !ConfigSucceeds(r, served, answers) || (WantsImages(r) && !ImagesSucceed(answers)) then RolledBack
    else if OsSucceeds(r, answers) then Success
    else Failed
  }

  // ---- the run ---------------------------------------------------------------------------------

  /** What the snapshot of a file holds: its content at the start, or else a leftover of an earlier run. */
  function SnapshotOf(start: Files, f: Managed): Option<Content> {
    if Live(f) in start then Some(start[Live(f)]) else Lookup(start, BackupOf(f))
  }

  predicate BackedUp(start: Files, fs: Files) {
    forall f: Managed :: Lookup(fs, BackupOf(f)) == SnapshotOf(start, f)
  }

  /** `wrote` are the managed files that a run has written so far; the others are as they were at the start. */
  ghost predicate Tracks(start: Files, fs: Files, wrote: set<Path>) {
    forall p | IsConfigFile(p) :: if p in wrote then p in fs else Lookup(fs, p) == Lookup(start, p)
  }

  /** The account grows by the managed files that are written between the two states, and no file is deleted. */
  ghost predicate Accounts(before: Files, after: Files, wroteBefore: set<Path>, wroteAfter: set<Path>) {
    && wroteBefore <= wroteAfter
    && forall p | IsConfigFile(p) ::
         (p in before || p in wroteAfter - wroteBefore ==> p in after)
           && (p !in wroteAfter ==> Lookup(after, p) == Lookup(before, p))
  }

  /** The files that a run may create or replace for its request. */
  function HostTargets(r: Request): set<Path> {
    set h | h in r.hostFiles :: PathOf(h.canonical)
  }

  function DownloadTargets(wanted: bool, url: string, dest: Path, version: Option<nat>): set<Path> {
    if wanted && url != "" then {dest} + (if version.Some? then {VERSIONS} else {}) else {}
  }

  function ConfigTargets(r: Request): set<Path> {
    DownloadTargets(Wants(r, "compose"), r.composeUrl, COMPOSE, r.composeVersion)
    + DownloadTargets(Wants(r, "catalog"), r.catalogUrl, CATALOG, r.catalogVersion)
  }

  function MayCreate(r: Request): set<Path> {
    HostTargets(r) + ConfigTargets(r)
  }

  /** The file in which the run pins tags, if it does; it is never created by that. */
  function PinTargets(r: Request): set<Path> {
    if WantsImages(r) && !r.recreate then {COMPOSE} else {}
  }

  function MayWrite(r: Request): set<Path> {
    MayCreate(r) + PinTargets(r)
  }

  lemma MayWriteExactly(r: Request)
    ensures CATALOG in MayCreate(r) <==> CATALOG in HostTargets(r) || (Wants(r, "catalog") && r.catalogUrl != "")
    ensures COMPOSE in MayCreate(r) <==> COMPOSE in HostTargets(r) || (Wants(r, "compose") && r.composeUrl != "")
    ensures VERSIONS in MayCreate(r) <==>
      || VERSIONS in HostTargets(r)
      || (Wants(r, "catalog") && r.catalogUrl != "" && r.catalogVersion.Some?)
      || (Wants(r, "compose") && r.composeUrl != "" && r.composeVersion.Some?)
    ensures COMPOSE in MayWrite(r) <==> COMPOSE in MayCreate(r) || (WantsImages(r) && !r.recreate)
    ensures forall p | p in MayWrite(r) && !IsConfigFile(p) :: exists h | h in r.hostFiles :: PathOf(h.canonical) == p
  {
    hide PathOf, Wants;
  }

  /**
   The account of a run stays within its request, and a file that did not exist is only there if the request may
   create it.
   */
  ghost predicate Within(start: Files, r: Request, wrote: set<Path>) {
    wrote <= MayWrite(r) && forall p | p in wrote :: p in start || p in MayCreate(r)
  }

  /** What a rollback needs: the snapshots, and an account of what has been written. */
  ghost predicate Recoverable(start: Files, fs: Files, wrote: set<Path>) {
    BackedUp(start, fs) && Tracks(start, fs, wrote)
  }

  /**
   Rollback puts every snapshot back, and deletes nothing: a file without a snapshot is there exactly if the run
   wrote it.
   */
  ghost predicate RolledBackTo(start: Files, fs: Files, wrote: set<Path>) {
    forall p | IsConfigFile(p) ::
      if SnapshotOf(start, p.file).Some? then Lookup(fs, p) == SnapshotOf(start, p.file) else p in fs <==> p in wrote
  }

  /** The snapshots of the files in `done` are made, and nothing else has changed. */
  ghost predicate Saved(start: Files, fs: Files, done: set<Managed>) {
    && (forall f :: Lookup(fs, BackupOf(f)) == if f in done then SnapshotOf(start, f) else Lookup(start, BackupOf(f)))
    && forall p: Path | !p.BackupOf? :: Lookup(fs, p) == Lookup(start, p)
  }

  lemma NothingSaved(start: Files)
    ensures Saved(start, start, {})
  {
  }

  lemma SaveOne(start: Files, fs: Files, done: set<Managed>, f: Managed)
    requires Saved(start, fs, done) && f !in done
    ensures Saved(start, Copied(fs, Live(f), BackupOf(f)), done + {f})
  {
    assert Lookup(fs, Live(f)) == Lookup(start, Live(f));
  }

  lemma AllSaved(start: Files, fs: Files)
    requires Saved(start, fs, {ComposeYml, CatalogJson, VersionsJson, ConfigJson})
    ensures Recoverable(start, fs, {}) && forall p: Path | !p.BackupOf? :: Lookup(fs, p) == Lookup(start, p)
  {
    forall f: Managed
      ensures Lookup(fs, BackupOf(f)) == SnapshotOf(start, f)
    {
      match f
      case ComposeYml =>
      case CatalogJson =>
      case VersionsJson =>
      case ConfigJson =>
    }
  }

  /** The snapshots of the files in `done` are put back where there are any, and nothing else has changed. */
  ghost predicate PutBack(before: Files, fs: Files, done: set<Managed>) {
    forall p ::
      Lookup(fs, p) ==
        if p.Live? && p.file in done && Lookup(before, BackupOf(p.file)).Some? then Lookup(before, BackupOf(p.file))
        else Lookup(before, p)
  }

  lemma NothingPutBack(before: Files)
    ensures PutBack(before, before, {})
  {
  }

  lemma PutBackOne(before: Files, fs: Files, done: set<Managed>, f: Managed)
    requires PutBack(before, fs, done) && f !in done
    ensures PutBack(before, Copied(fs, BackupOf(f), Live(f)), done + {f})
  {
    assert Lookup(fs, BackupOf(f)) == Lookup(before, BackupOf(f));
  }

  lemma AllPutBack(start: Files, before: Files, fs: Files, wrote: set<Path>)
    requires Recoverable(start, before, wrote) && PutBack(before, fs, {ComposeYml, CatalogJson, VersionsJson})
    ensures RolledBackTo(start, fs, wrote) && OnlyConfig(before, fs)
  {
    forall p | IsConfigFile(p)
      ensures if SnapshotOf(start, p.file).Some? then Lookup(fs, p) == SnapshotOf(start, p.file)
              else p in fs <==> p in wrote
    {
      assert Lookup(before, BackupOf(p.file)) == SnapshotOf(start, p.file);
      assert Lookup(fs, p).Some? <==> p in fs;
    }
  }

  class UpdateRun {
    const served: map<string, Artifact>
    const selfPath: string
    var fs: Files
    var running: map<string, string>
    var state: State
    var phase: string
    var error: bool
    var status: RunStatus
    /** Whether images were pulled, and whether the health gate passed after that. */
    ghost var imagesTouched: bool
    ghost var gatePassed: bool
    /** The managed files written so far, rollback aside. */
    ghost var wrote: set<Path>

    constructor (served: map<string, Artifact>, selfPath: string, fs: Files, running: map<string, string>)
      ensures this.served == served && this.selfPath == selfPath && this.fs == fs && this.running == running
      ensures state.Running? && !error && !imagesTouched && !gatePassed && wrote == {}
    {
      this.served, this.selfPath, this.fs, this.running := served, selfPath, fs, running;
      state, phase, error := Running, "starting", false;
      status := RunStatus(Running, "starting", false, false);
      imagesTouched, gatePassed, wrote := false, false, {};
    }

    method WriteStatus(finished: bool)
      modifies `status
      ensures status == RunStatus(state, phase, finished, error)
    {
      status := RunStatus(state, phase, finished, error);
    }

    method EnterPhase(name: string)
      modifies `phase, `status
      ensures phase == name && status == RunStatus(state, name, false, error)
    {
      phase := name;
      WriteStatus(false);
    }

    method Fail()
      modifies `state, `error, `status
      ensures state.Failed? && error && status == RunStatus(Failed, phase, true, true)
    {
      state, error := Failed, true;
      WriteStatus(true);
    }

    /** The run was given up and rolled back. */
    ghost predicate Aborted(start: Files)
      reads this
    {
      && RolledBackTo(start, fs, wrote) && state.RolledBack? && error
      && status == RunStatus(RolledBack, phase, true, true)
    }

    /** `rollback_config`. */
    method RollbackConfig(ghost start: Files)
      requires Recoverable(start, fs, wrote)
      modifies `fs, `state, `status
      ensures RolledBackTo(start, fs, wrote) && state.RolledBack? && status == RunStatus(RolledBack, phase, true, error)
      ensures OnlyConfig(old(fs), fs)
    {
      hide Copied, PutBack, RolledBackTo, Recoverable, OnlyConfig;
      ghost var before := fs;
      NothingPutBack(before);
      PutBackOne(before, fs, {}, ComposeYml);
      fs := Copied(fs, BackupOf(ComposeYml), COMPOSE);
      PutBackOne(before, fs, {ComposeYml}, CatalogJson);
      fs := Copied(fs, BackupOf(CatalogJson), CATALOG);
      PutBackOne(before, fs, {ComposeYml, CatalogJson}, VersionsJson);
      fs := Copied(fs, BackupOf(VersionsJson), VERSIONS);
      AllPutBack(start, before, fs, wrote);
      state := RolledBack;
      WriteStatus(true);
    }

    /** `rollback_full`: whatever re-applying the old stack does to the containers. */
    method RollbackFull(ghost start: Files)
      requires Recoverable(start, fs, wrote)
      modifies `fs, `state, `status, `running
      ensures RolledBackTo(start, fs, wrote) && state.RolledBack? && status == RunStatus(RolledBack, phase, true, error)
      ensures OnlyConfig(old(fs), fs)
    {
      RollbackConfig(start);
      running := *;
    }

    method BackUp()
      requires wrote == {}
      modifies `fs
      ensures Recoverable(old(fs), fs, wrote)
      ensures forall p: Path | !p.BackupOf? :: Lookup(fs, p) == Lookup(old(fs), p)
    {
      hide Copied, Saved, Recoverable;
      ghost var start := fs;
      NothingSaved(start);
      SaveOne(start, fs, {}, ComposeYml);
      fs := Copied(fs, COMPOSE, BackupOf(ComposeYml));
      SaveOne(start, fs, {ComposeYml}, CatalogJson);
      fs := Copied(fs, CATALOG, BackupOf(CatalogJson));
      SaveOne(start, fs, {ComposeYml, CatalogJson}, VersionsJson);
      fs := Copied(fs, VERSIONS, BackupOf(VersionsJson));
      SaveOne(start, fs, {ComposeYml, CatalogJson, VersionsJson}, ConfigJson);
      fs := Copied(fs, CONFIG, BackupOf(ConfigJson));
      AllSaved(start, fs);
    }

    /** curl and the checksum test; the temporary file next to the destination is not modelled. */
    method Download(url: string, dest: Path, sha: string, reached: bool) returns (ok: bool)
      modifies `fs, `wrote
      ensures ok <==> reached && url in served && (sha == "" || served[url].sha256 == sha)
      ensures ok ==> fs == old(fs)[dest := served[url].content] && wrote == old(wrote) + {dest}
      ensures !ok ==> fs == old(fs) && wrote == old(wrote)
    {
      if !reached || url !in served {
        return false;
      }
      if sha != "" && served[url].sha256 != sha {
        return false;
      }
      fs := fs[dest := served[url].content];
      wrote := wrote + {dest};
      return true;
    }

    method SyncHostFiles(r: Request, reached: seq<bool>)
      requires LeavesBackup(r)
      modifies `fs, `phase, `status, `wrote
      ensures Accounts(old(fs), fs, old(wrote), wrote) && wrote <= old(wrote) + HostTargets(r)
      ensures forall p: Path | p.BackupOf? || p == REQUEST || (IsConfigFile(p) && AvoidsConfig(r)) ::
        Lookup(fs, p) == Lookup(old(fs), p)
      ensures AllSynced(HostSync(r.hostFiles, served, selfPath, reached), old(fs), fs, |r.hostFiles|)
      ensures !status.finished || (status == old(status) && r.hostFiles == [])
    {
      hide PathOf, AllSynced, SyncedAt, Permitted, MaySync;
      ghost var sync := HostSync(r.hostFiles, served, selfPath, reached);
      NothingSynced(sync, fs);
      if r.hostFiles == [] {
        return;
      }
      EnterPhase("syncing-host-files");
      for i := 0 to |r.hostFiles|
        invariant forall p: Path | p.BackupOf? || p == REQUEST || (IsConfigFile(p) && AvoidsConfig(r)) ::
          Lookup(fs, p) == Lookup(old(fs), p)
        invariant !status.finished && Accounts(old(fs), fs, old(wrote), wrote) && wrote <= old(wrote) + HostTargets(r)
        invariant AllSynced(sync, old(fs), fs, i)
      {
        var h := r.hostFiles[i];
        assert h in r.hostFiles;
        MaySyncExactly(h, selfPath);
        ghost var now := fs;
        if MaySync(h, selfPath) {
          OutsideBackup(h.canonical);
          var ok := Download(h.url, PathOf(h.canonical), h.sha256, i < |reached| && reached[i]);
        }
        SyncStep(sync, old(fs), now, fs, i);
      }
    }

    method UpdateVersionMarker(key: string, value: nat)
      modifies `fs, `wrote
      ensures fs == old(fs)[VERSIONS := Marked(Lookup(old(fs), VERSIONS), key, value)]
        && wrote == old(wrote) + {VERSIONS}
    {
      wrote := wrote + {VERSIONS};
      if VERSIONS !in fs {
        fs := fs[VERSIONS := Versions(map[], "")];
      }
      fs := fs[VERSIONS := Marked(Some(fs[VERSIONS]), key, value)];
    }

    /** Of each image reference: a tag of this image is replaced, and a reference without this image's name stays. */
    method PinImageTag(image: string, tag: string)
      modifies `fs, `wrote
      ensures fs == if COMPOSE in old(fs) then old(fs)[COMPOSE := Pinned(old(fs)[COMPOSE], image, tag)] else old(fs)
      ensures wrote == old(wrote) + if COMPOSE in old(fs) then {COMPOSE} else {}
      ensures Accounts(old(fs), fs, old(wrote), wrote)
      ensures COMPOSE in fs && fs[COMPOSE].Compose? ==>
        && old(fs)[COMPOSE].Compose? && fs[COMPOSE].images.Keys == old(fs)[COMPOSE].images.Keys
        && forall n | n in fs[COMPOSE].images ::
          PinsReference(old(fs)[COMPOSE].images[n], fs[COMPOSE].images[n], image, tag)
    {
      hide PinText, PinsReference;
      if COMPOSE in fs {
        wrote := wrote + {COMPOSE};
        fs := fs[COMPOSE := Pinned(fs[COMPOSE], image, tag)];
        if fs[COMPOSE].Compose? {
          forall n | n in fs[COMPOSE].images
            ensures PinsReference(old(fs)[COMPOSE].images[n], fs[COMPOSE].images[n], image, tag)
          {
            PinnedReference(old(fs)[COMPOSE].images[n], image, tag);
          }
        }
      }
    }

    /** A failure before or during recreation of the containers: report, restore, report again. */
    method Abort(ghost start: Files)
      requires Recoverable(start, fs, wrote)
      modifies `fs, `state, `error, `status
      ensures Aborted(start) && OnlyConfig(old(fs), fs)
    {
      Fail();
      RollbackConfig(start);
    }

    method AbortFull(ghost start: Files)
      requires Recoverable(start, fs, wrote)
      modifies `fs, `state, `error, `status, `running
      ensures Aborted(start) && OnlyConfig(old(fs), fs)
    {
      Fail();
      RollbackFull(start);
    }

    /** One of the two downloaded files, and its version marker. */
    method DownloadManaged(wanted: bool, url: string, sha: string, dest: Path, name: string, key: string,
        version: Option<nat>, reached: bool, ghost start: Files)
      returns (ok: bool)
      requires state.Running? && Recoverable(start, fs, wrote) && (dest == COMPOSE || dest == CATALOG)
      modifies `fs, `phase, `status, `state, `error, `wrote
      ensures !ok ==> Aborted(start)
      ensures ok <==> Gets(wanted, url, sha, served, reached)
      ensures wrote <= old(wrote) + DownloadTargets(wanted, url, dest, version) && OnlyConfig(old(fs), fs)
      ensures ok ==> state.Running? && error == old(error) && Accounts(old(fs), fs, old(wrote), wrote)
      ensures ok ==> forall p: Path | p != dest && p != VERSIONS :: Lookup(fs, p) == Lookup(old(fs), p)
      ensures ok ==>
        Fetched(wanted, url, sha, served)
        && Lookup(fs, dest) == Downloaded(Lookup(old(fs), dest), wanted, url, served)
      ensures ok ==> Lookup(fs, VERSIONS) == MarkedIf(Lookup(old(fs), VERSIONS), wanted, url, key, version)
    {
      hide RolledBackTo, BackedUp, Tracks;
      if wanted && url != "" {
        EnterPhase(name);
        ok := Download(url, dest, sha, reached);
        if !ok {
          Abort(start);
          return false;
        }
        if version.Some? {
          UpdateVersionMarker(key, version.value);
        }
      }
      return true;
    }

    /** Compose and catalog; on failure everything is already rolled back. */
    method DownloadConfig(r: Request, answers: Answers, ghost start: Files) returns (ok: bool)
      requires state.Running? && Recoverable(start, fs, wrote)
      modifies `fs, `phase, `status, `state, `error, `wrote
      ensures !ok ==> Aborted(start)
      ensures ok <==> ConfigSucceeds(r, served, answers)
      ensures wrote <= old(wrote) + ConfigTargets(r) && OnlyConfig(old(fs), fs)
      ensures ok ==> state.Running? && error == old(error) && Recoverable(start, fs, wrote)
      ensures ok ==> ConfigDownloaded(old(fs), fs, r, served)
    {
      hide RolledBackTo, MarkedIf, Downloaded, Wants, Recoverable, Accounts, Gets, Fetched;
      ghost var before, wroteBefore := fs, wrote;
      ok := DownloadManaged(Wants(r, "compose"), r.composeUrl, r.composeSha256, COMPOSE, "downloading-compose",
        "compose", r.composeVersion, answers.compose, start);
      if !ok {
        return;
      }
      RecoverySurvives(start, before, fs, wroteBefore, wrote);
      ghost var between, wroteBetween := fs, wrote;
      ok := DownloadManaged(Wants(r, "catalog"), r.catalogUrl, r.catalogSha256, CATALOG, "downloading-catalog",
        "catalog", r.catalogVersion, answers.catalog, start);
      if !ok {
        return;
      }
      RecoverySurvives(start, between, fs, wroteBetween, wrote);
    }

    /** `docker compose up`: on success each container runs what the compose file names. */
    method ComposeUp(recreated: bool)
      modifies `running
      ensures recreated ==> Deployed(running, Lookup(fs, COMPOSE))
    {
      running := *;
      if recreated && COMPOSE in fs && fs[COMPOSE].Compose? {
        running := running + fs[COMPOSE].images;
      }
    }

    method PinImages(r: Request)
      modifies `fs, `wrote
      ensures Accounts(old(fs), fs, old(wrote), wrote)
      ensures wrote <= old(wrote) + if COMPOSE in old(fs) && !r.recreate then {COMPOSE} else {}
      ensures ImagesPinned(old(fs), fs, r)
    {
      if !r.recreate {
        if r.managerImage != "" && r.managerTag != "" {
          PinImageTag(r.managerImage, r.managerTag);
        }
        if r.gatewayImage != "" && r.gatewayTag != "" {
          PinImageTag(r.gatewayImage, r.gatewayTag);
        }
      }
    }

    /** Disk space, pins, pull, recreate and the health gate. */
    method UpdateImages(r: Request, answers: Answers, ghost start: Files) returns (ok: bool)
      requires state.Running? && Recoverable(start, fs, wrote)
      modifies `fs, `phase, `status, `state, `error, `running, `imagesTouched, `gatePassed, `wrote
      ensures !ok ==> Aborted(start)
      ensures ok <==> ImagesSucceed(answers)
      ensures wrote <= old(wrote) + if COMPOSE in old(fs) && !r.recreate then {COMPOSE} else {}
      ensures OnlyConfig(old(fs), fs)
      ensures ok ==> state.Running? && error == old(error) && imagesTouched && gatePassed
      ensures ok ==> ImagesApplied(old(fs), fs, r, running)
    {
      hide Aborted, ImagesPinned, Deployed, Recoverable, Accounts, BothHealthy, OnlyConfig;
      ConfigAlone(fs);
      imagesTouched, gatePassed := true, false;
      EnterPhase("pulling-images");
      if !answers.imageSpace {
        Abort(start);
        return false;
      }
      ghost var before, wroteBefore := fs, wrote;
      PinImages(r);
      PinnedOnlyConfig(before, fs, r);
      RecoverySurvives(start, before, fs, wroteBefore, wrote);
      ConfigOnConfig(before, fs);
      if !answers.pulled {
        Abort(start);
        return false;
      }
      EnterPhase("recreating-containers");
      ComposeUp(answers.recreated);
      if !answers.recreated {
        AbortFull(start);
        return false;
      }
      EnterPhase("health-check");
      ok := WaitHealthy(answers.polls);
      if !ok {
        AbortFull(start);
        return;
      }
      gatePassed := exists p | p in answers.polls :: BothHealthy(p);
    }

    /** The two OS phases: apt and dpkg touch none of the modelled files. */
    method UpdateOs(r: Request, answers: Answers) returns (ok: bool)
      requires state.Running?
      modifies `phase, `status, `state, `error
      ensures ok <==> OsSucceeds(r, answers)
      ensures ok ==> state.Running? && error == old(error)
      ensures !ok ==> state.Failed? && error && status == RunStatus(Failed, phase, true, true)
      ensures !ok ==>
        phase ==
        if Wants(r, "os_packages") && !PhaseSucceeds(answers.packages) then "updating-os-packages"
        else "os-major-upgrade"
    {
      if Wants(r, "os_packages") {
        EnterPhase("updating-os-packages");
        if !answers.packages.enoughSpace || !answers.packages.updated || !answers.packages.upgraded {
          Fail();
          return false;
        }
      }
      if Wants(r, "os_major") && r.osMajorTo != "" {
        EnterPhase("os-major-upgrade");
        if !answers.major.enoughSpace || !answers.major.updated || !answers.major.upgraded {
          Fail();
          return false;
        }
      }
      return true;
    }

    /** Back up, sync the host files and download compose and catalog. */
    method Configure(r: Request, answers: Answers) returns (ok: bool)
      requires state.Running? && LeavesBackup(r) && wrote == {}
      modifies `fs, `phase, `status, `state, `error, `wrote
      ensures !ok ==> Aborted(old(fs))
      ensures ok <==> ConfigSucceeds(r, served, answers)
      ensures wrote <= MayCreate(r)
      ensures HostFilesSynced(HostSync(r.hostFiles, served, selfPath, answers.hostFiles), old(fs), fs)
      ensures ok ==> state.Running? && error == old(error) && Recoverable(old(fs), fs, wrote)
      ensures ok && AvoidsConfig(r) ==> ConfigDownloaded(old(fs), fs, r, served)
    {
      hide RolledBackTo, MarkedIf, Downloaded, Wants, Recoverable, Accounts, LeavesBackup, AvoidsConfig;
      hide OnlyConfig, AllSynced, HostFilesSynced, ConfigSucceeds;
      ghost var start := fs;
      EnterPhase("backing-up");
      BackUp();
      ghost var copied := fs;
      SyncHostFiles(r, answers.hostFiles);
      RecoverySurvives(start, copied, fs, {}, wrote);
      ghost var synced := fs;
      ok := DownloadConfig(r, answers, start);
      SyncedOverRun(HostSync(r.hostFiles, served, selfPath, answers.hostFiles), start, copied, synced, fs);
    }

    /**
     Every uninterrupted run ends in one of three ways, whatever the external commands do: rolled back with the managed
     files restored from their snapshots, successful with the gate passed whenever images were touched, or failed in an
     OS phase after the gate, unless there was no request at all; `Outcome` says which one.
     */
    method PerformUpdate(answers: Answers)
      requires state.Running? && !error && !imagesTouched && wrote == {} && LeavesBackup(RequestIn(fs))
      modifies this
      ensures status == RunStatus(state, phase, true, error) && !state.Running?
      ensures state.RolledBack? ==> RolledBackTo(old(fs), fs, wrote) && error
      ensures Within(old(fs), RequestIn(old(fs)), wrote)
      ensures state.Success? ==> REQUEST in old(fs) && !error
      ensures !state.RolledBack? && REQUEST in old(fs) ==>
        (imagesTouched <==> WantsImages(RequestIn(old(fs)))) && (imagesTouched ==> gatePassed)
      ensures state.Success? && AvoidsConfig(RequestIn(old(fs))) ==>
        Applied(old(fs), RequestIn(old(fs)), served, fs, running)
      ensures REQUEST in old(fs) ==> state == Outcome(RequestIn(old(fs)), served, answers)
      ensures REQUEST in old(fs) ==>
        HostFilesSynced(HostSync(RequestIn(old(fs)).hostFiles, served, selfPath, answers.hostFiles), old(fs), fs)
      ensures REQUEST !in old(fs) ==> fs == old(fs)
      ensures state.Failed? ==> error
      ensures state.Failed? ==> REQUEST !in old(fs) || phase == "updating-os-packages" || phase == "os-major-upgrade"
    {
      hide Applied, ImagesApplied, RolledBackTo, ConfigDownloaded, Wants, Recoverable, LeavesBackup;
      hide Within, MayCreate, AvoidsConfig, WantsImages, RequestIn, OnlyConfig, HostFilesSynced;
      hide ConfigSucceeds, ImagesSucceed, OsSucceeds;
      ghost var start := fs;
      WriteStatus(false);
      NothingWritten(start, RequestIn(start));
      if REQUEST !in fs {
        Fail();
        return;
      }
      var r := RequestIn(fs);
      var ok := Configure(r, answers);
      CreatedWithin(start, r, wrote);
      if !ok {
        return;
      }
      ghost var configured, downloaded := fs, wrote;
      if WantsImages(r) {
        ok := UpdateImages(r, answers, start);
        StaysSynced(HostSync(r.hostFiles, served, selfPath, answers.hostFiles), start, configured, fs);
        PinnedWithin(start, r, configured, downloaded, wrote);
        if !ok {
          return;
        }
      }
      if AvoidsConfig(r) {
        AppliedSteps(start, configured, fs, r, served, running);
      }
      ok := UpdateOs(r, answers);
      if !ok {
        return;
      }
      state := Success;
      EnterPhase("done");
      WriteStatus(true);
    }
  }

  /** If the three managed files exist at the start, a rolled-back run leaves them exactly as they were. */
  lemma RolledBackFilesAreUnchanged(start: Files, end: Files, wrote: set<Path>)
    requires RolledBackTo(start, end, wrote) && COMPOSE in start && CATALOG in start && VERSIONS in start
    ensures forall p | IsConfigFile(p) :: Lookup(end, p) == Lookup(start, p)
  {
  }

  /**
   After a rollback a managed file is as it was exactly when it existed at the start, or there was neither a snapshot of
   an older run nor a write by this one.
   */
  lemma UnchangedAfterRollbackExactly(start: Files, end: Files, wrote: set<Path>, p: Path)
    requires RolledBackTo(start, end, wrote) && IsConfigFile(p)
    ensures Lookup(end, p) == Lookup(start, p) <==> p in start || (BackupOf(p.file) !in start && p !in wrote)
  {
  }

  lemma NothingWritten(start: Files, r: Request)
    ensures Within(start, r, {})
  {
  }

  lemma CreatedWithin(start: Files, r: Request, wrote: set<Path>)
    requires wrote <= MayCreate(r)
    ensures Within(start, r, wrote)
  {
    hide MayCreate;
  }

  /** Pinning tags writes the compose file only if it is there, from the start or by this run. */
  lemma PinnedWithin(start: Files, r: Request, fs: Files, created: set<Path>, wrote: set<Path>)
    requires Recoverable(start, fs, created) && created <= MayCreate(r) && WantsImages(r)
    requires wrote <= created + if COMPOSE in fs && !r.recreate then {COMPOSE} else {}
    ensures Within(start, r, wrote)
  {
    hide MayCreate, WantsImages;
  }

  /**
   Before the call: a managed file that exists, or that has no snapshot of an older run and that the request cannot
   create, comes out of a rollback as it was; and without a snapshot or a way to create it, exactly such a file does.
   */
  lemma UnchangedAfterRollbackBeforehand(start: Files, end: Files, r: Request, wrote: set<Path>, p: Path)
    requires RolledBackTo(start, end, wrote) && Within(start, r, wrote) && IsConfigFile(p)
    ensures p in start || (BackupOf(p.file) !in start && p !in MayCreate(r)) ==> Lookup(end, p) == Lookup(start, p)
    ensures p !in MayCreate(r) ==> (Lookup(end, p) == Lookup(start, p) <==> p in start || BackupOf(p.file) !in start)
  {
    hide MayCreate, MayWrite;
    UnchangedAfterRollbackExactly(start, end, wrote, p);
  }

  lemma RecoverySurvives(start: Files, before: Files, after: Files, wroteBefore: set<Path>, wroteAfter: set<Path>)
    requires Recoverable(start, before, wroteBefore) && Accounts(before, after, wroteBefore, wroteAfter)
    requires forall p: Path | p.BackupOf? :: Lookup(after, p) == Lookup(before, p)
    ensures Recoverable(start, after, wroteAfter)
  {
    forall f: Managed
      ensures Lookup(after, BackupOf(f)) == SnapshotOf(start, f)
    {
      assert Lookup(after, BackupOf(f)) == Lookup(before, BackupOf(f));
    }
  }

  lemma AppliedSteps(start: Files, configured: Files, end: Files, r: Request, served: map<string, Artifact>,
      running: map<string, string>)
    requires ConfigDownloaded(start, configured, r, served)
    requires !WantsImages(r) ==> end == configured
    requires WantsImages(r) ==> ImagesApplied(configured, end, r, running)
    ensures Applied(start, r, served, end, running)
  {
  }
}
