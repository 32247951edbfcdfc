/**
 The manager's side of updates (`updater.rs`): what it asks the host to do, what it reports as available, and why
 a successful update of everything leaves nothing to report.
 */
module VersionCheck {
  import opened Values
  import opened Text
  import opened Numerals
  import opened Updater

  datatype Component = Component(version: string, image: Option<string>, tag: Option<string>,
      controlAppVersion: Option<string>, url: Option<string>, sha256: Option<string>)

  datatype Manifest = Manifest(components: map<string, Component>, osMajorTo: Option<string>, hostFiles: seq<HostFile>)

  /** The semver library: a parser, and the strict order it puts on versions. */
  datatype Semver<!V> = Semver(parse: string -> Option<V>, greater: (V, V) -> bool)

  ghost predicate Irreflexive<V(!new)>(semver: Semver<V>) {
    forall v :: !semver.greater(v, v)
  }

  function TrimV(s: string): string {
    if s != "" && s[0] == 'v' then TrimV(s[1..]) else s
  }

  function IsNewer<V>(semver: Semver<V>, installed: string, available: string): bool {
    if available == "" || available == "unknown" then false
    else
      match (semver.parse(TrimV(installed)), semver.parse(TrimV(available)))
      case (Some(i), Some(a)) => semver.greater(a, i)
      case _ => installed != "" && installed != "unknown" && installed != available
  }

  predicate StripsV(s: string, bare: string, n: nat) {
    n <= |s| && bare == s[n..] && (forall i | 0 <= i < n :: s[i] == 'v') && (bare == "" || bare[0] != 'v')
  }

  /** `bare` is the version without all its leading v's. */
  ghost predicate Unprefixed(s: string, bare: string) {
    exists n :: StripsV(s, bare, n)
  }

  lemma {:induction false} StrippedIsTrimmed(s: string, bare: string, n: nat)
    requires StripsV(s, bare, n)
    ensures bare == TrimV(s)
  {
    if n > 0 {
      assert s[1..][n - 1..] == s[n..];
      StrippedIsTrimmed(s[1..], bare, n - 1);
    } else {
      assert s[0..] == s;
    }
  }

  lemma {:induction false} TrimmedIsStripped(s: string) returns (n: nat)
    ensures StripsV(s, TrimV(s), n)
  {
    n := 0;
    if s != "" && s[0] == 'v' {
      var k := TrimmedIsStripped(s[1..]);
      n := k + 1;
      assert s[1..][k..] == s[n..] && forall i | 0 < i < n :: s[i] == s[1..][i - 1];
    } else {
      assert s[0..] == s;
    }
  }

  lemma TrimVExactly(s: string, bare: string)
    ensures Unprefixed(s, bare) <==> bare == TrimV(s)
  {
    var n := TrimmedIsStripped(s);
    if k :| StripsV(s, bare, k) {
      StrippedIsTrimmed(s, bare, k);
    }
  }

  predicate Known(version: string) {
    version != "" && version != "unknown"
  }

  predicate BothParse<V>(semver: Semver<V>, i: string, a: string) {
    semver.parse(TrimV(i)).Some? && semver.parse(TrimV(a)).Some?
  }

  ghost predicate Asymmetric<V(!new)>(semver: Semver<V>) {
    forall v, w :: semver.greater(v, w) ==> !semver.greater(w, v)
  }

  /**
   What is offered for an installed version is offered back, for the other as installed, exactly when one of the two
   is no semantic version.
   */
  lemma OfferedBackExactly<V(!new)>(semver: Semver<V>, installed: string, available: string)
    requires Asymmetric(semver) && IsNewer(semver, installed, available)
    ensures IsNewer(semver, available, installed) <==> !BothParse(semver, installed, available)
  {
  }

  lemma NothingIsNewerThanItself<V(!new)>(semver: Semver<V>, v: string)
    requires Irreflexive(semver)
    ensures !IsNewer(semver, v, v)
  {
  }

  // ---- apply -----------------------------------------------------------------------------------

  function OrEmpty(s: Option<string>): string {
    if s.Some? then s.value else ""
  }

  function PinOf(c: Component): string {
    if c.tag.Some? then c.tag.value else c.version
  }

  function GatewayVersion(c: Component): string {
    if c.controlAppVersion.Some? then c.controlAppVersion.value else c.version
  }

  function GatewayPinOf(c: Component): string {
    if c.tag.Some? then c.tag.value else GatewayVersion(c)
  }

  function Find(m: Manifest, key: string): Option<Component> {
    if key in m.components then Some(m.components[key]) else None
  }

  /** The request that `apply` writes. */
  function BuildRequest(m: Manifest, components: seq<string>): Request {
    var wants := (name: string) => name in components || "all" in components;
    var manager, gateway := Find(m, "manager"), Find(m, "gateway");
    var compose := if wants("compose") then Find(m, "compose") else None;
    var catalog := if wants("catalog") then Find(m, "catalog") else None;
    Request(
      components, false,
      if compose.Some? then OrEmpty(compose.value.url) else "",
      if compose.Some? then OrEmpty(compose.value.sha256) else "",
      if compose.Some? then ParseU32(compose.value.version) else None,
      if catalog.Some? then OrEmpty(catalog.value.url) else "",
      if catalog.Some? then OrEmpty(catalog.value.sha256) else "",
      if catalog.Some? then ParseU32(catalog.value.version) else None,
      if wants("os_major") then OrEmpty(m.osMajorTo) else "",
      if manager.Some? then OrEmpty(manager.value.image) else "", if manager.Some? then PinOf(manager.value) else "",
      if gateway.Some? then OrEmpty(gateway.value.image) else "",
      if gateway.Some? then GatewayPinOf(gateway.value) else "",
      m.hostFiles)
  }

  predicate Selected(components: seq<string>, name: string) {
    name in components || "all" in components
  }

  /** The parts of a request that depend on the selection alone. */
  lemma RequestIsAsSelected(m: Manifest, components: seq<string>)
    ensures var r := BuildRequest(m, components);
      && r.components == components && r.hostFiles == m.hostFiles && !r.recreate
      && (forall name :: Wants(r, name) <==> Selected(components, name))
      && (r.composeUrl != "" ==> Selected(components, "compose"))
      && (r.catalogUrl != "" ==> Selected(components, "catalog"))
      && (r.osMajorTo != "" <==> Selected(components, "os_major") && m.osMajorTo.Some? && m.osMajorTo.value != "")
      && (r.osMajorTo != "" ==> Some(r.osMajorTo) == m.osMajorTo)
  {
  }

  /** The request that `refresh` writes: a repair at the installed version. */
  function RepairRequest(hostFiles: seq<HostFile>): Request {
    NO_REQUEST.(recreate := true, hostFiles := hostFiles)
  }

  /** A successful repair changes no config file, no tag and no marker, and the stack runs what was pinned before. */
  lemma RepairKeepsVersions(hostFiles: seq<HostFile>, start: Files, served: map<string, Artifact>, end: Files,
      running: map<string, string>)
    requires Applied(start, RepairRequest(hostFiles), served, end, running)
    ensures forall p | IsConfigFile(p) :: Lookup(end, p) == Lookup(start, p)
    ensures Deployed(running, Lookup(start, COMPOSE))
  {
  }

  // ---- check -----------------------------------------------------------------------------------

  function LastSegment(s: string): string {
    match RSplitOnce(s, "/")
    case None => s
    case Some((_, last)) => last
  }

  /** `container_image_tag` of a container that runs the image reference. */
  function ImageTag(reference: string): Option<string> {
    match RSplitOnce(LastSegment(reference), ":")
    case None => None
    case Some((_, rest)) =>
      var tag := Trim(rest);
      if tag == "" || tag == "latest" || "sha256" <= tag then None else Some(tag)
  }

  /** The installed version: the running image's tag, or what else the manager falls back to. */
  function InstalledVersion(running: map<string, string>, container: string, fallback: string): string {
    if container in running && ImageTag(running[container]).Some? then ImageTag(running[container]).value else fallback
  }

  function DisplayAvailable(c: Component, base: string): string {
    if c.tag.Some? && '-' in c.tag.value then c.tag.value else base
  }

  function MarkerOf(fs: Files, key: string): nat {
    if VERSIONS in fs && fs[VERSIONS].Versions? && key in fs[VERSIONS].markers then fs[VERSIONS].markers[key] else 0
  }

  datatype Installed = Installed(manager: string, controlApp: string, compose: nat, catalog: nat)

  function InstalledVersions(fs: Files, running: map<string, string>, managerFallback: string,
      gatewayFallback: string): Installed {
    Installed(InstalledVersion(running, "airwaves-manager", managerFallback),
              InstalledVersion(running, "airwaves-gateway", gatewayFallback),
              MarkerOf(fs, "compose"), MarkerOf(fs, "catalog"))
  }

  datatype ComponentUpdate = ComponentUpdate(name: string, updateAvailable: bool)

  function ManagerReport<V>(semver: Semver<V>, installed: string, c: Component): bool {
    IsNewer(semver, installed, DisplayAvailable(c, c.version))
  }

  function GatewayReport<V>(semver: Semver<V>, installed: string, c: Component): bool {
    IsNewer(semver, installed, DisplayAvailable(c, GatewayVersion(c)))
  }

  function AvailableRevision(c: Component): nat {
    if ParseU32(c.version).Some? then ParseU32(c.version).value else 0
  }

  /** What `check` reports about each component the manifest has. */
  predicate ReportOf<V>(semver: Semver<V>, m: Manifest, installed: Installed, u: ComponentUpdate) {
    match u.name
    case "manager" => "manager" in m.components
      && u.updateAvailable == ManagerReport(semver, installed.manager, m.components["manager"])
    case "gateway" => "gateway" in m.components
      && u.updateAvailable == GatewayReport(semver, installed.controlApp, m.components["gateway"])
    case "compose" => "compose" in m.components
      && u.updateAvailable == (AvailableRevision(m.components["compose"]) > installed.compose)
    case "catalog" => "catalog" in m.components
      && u.updateAvailable == (AvailableRevision(m.components["catalog"]) > installed.catalog)
    case _ => false
  }

  const COMPONENT_NAMES: set<string> := {"manager", "gateway", "compose", "catalog"}

  /** The list so far reports each of `names` that the manifest has, once, and correctly. */
  ghost predicate Reports<V>(components: seq<ComponentUpdate>, semver: Semver<V>, m: Manifest, installed: Installed,
      names: set<string>) {
    && (forall u | u in components :: u.name in names && ReportOf(semver, m, installed, u))
    && (forall n | n in names && n in m.components :: exists u | u in components :: u.name == n)
    && (forall i, j | 0 <= i < j < |components| :: components[i].name != components[j].name)
  }

  lemma PushReport<V>(components: seq<ComponentUpdate>, semver: Semver<V>, m: Manifest, installed: Installed,
      names: set<string>, u: ComponentUpdate)
    requires Reports(components, semver, m, installed, names) && u.name !in names
    ensures ReportOf(semver, m, installed, u) ==> Reports(components + [u], semver, m, installed, names + {u.name})
    ensures u.name !in m.components ==> Reports(components, semver, m, installed, names + {u.name})
  {
  }

  /** The component list of `check`, built by pushing. */
  method Check<V>(semver: Semver<V>, m: Manifest, installed: Installed) returns (components: seq<ComponentUpdate>)
    ensures Reports(components, semver, m, installed, COMPONENT_NAMES)
  {
    hide Reports, ManagerReport, GatewayReport, AvailableRevision;
    NamesDiffer();
    components := [];
    NothingReported(semver, m, installed);
    var newer := "manager" in m.components && ManagerReport(semver, installed.manager, m.components["manager"]);
    var manager := ComponentUpdate("manager", newer);
    PushReport(components, semver, m, installed, {}, manager);
    if "manager" in m.components {
      components := components + [manager];
    }
    newer := "gateway" in m.components && GatewayReport(semver, installed.controlApp, m.components["gateway"]);
    var gateway := ComponentUpdate("gateway", newer);
    PushReport(components, semver, m, installed, {} + {"manager"}, gateway);
    if "gateway" in m.components {
      components := components + [gateway];
    }
    ghost var names := {} + {"manager"} + {"gateway"};
    for i := 0 to 2
      invariant names ==
        {"manager", "gateway"} + (if i > 0 then {"compose"} else {}) + (if i > 1 then {"catalog"} else {})
      invariant Reports(components, semver, m, installed, names)
    {
      var key := if i == 0 then "compose" else "catalog";
      var revision := if i == 0 then installed.compose else installed.catalog;
      var update := ComponentUpdate(key, key in m.components && AvailableRevision(m.components[key]) > revision);
      PushReport(components, semver, m, installed, names, update);
      if key in m.components {
        components := components + [update];
      }
      names := names + {key};
    }
    assert names == COMPONENT_NAMES;
  }

  /** The version that the manifest offers for an image: a tag with a channel suffix, or else the version beside it. */
  predicate OffersVersion(m: Manifest, name: string, version: string)
    requires name in m.components
  {
    var c := m.components[name];
    && (c.tag.Some? && '-' in c.tag.value ==> version == c.tag.value)
    && (c.tag.None? || '-' !in c.tag.value ==>
          if name == "gateway" && c.controlAppVersion.Some? then version == c.controlAppVersion.value
          else version == c.version)
  }

  predicate Offered(components: seq<ComponentUpdate>, name: string) {
    exists u | u in components :: u.name == name && u.updateAvailable
  }

  /**
   When the list offers an image: never an unknown version; between two semantic versions exactly a greater one; and
   otherwise exactly one that differs from a known installed version.
   */
  lemma ImageOfferedExactly<V>(semver: Semver<V>, m: Manifest, installed: Installed, components: seq<ComponentUpdate>,
      name: string, available: string, i: string, a: string)
    requires Reports(components, semver, m, installed, COMPONENT_NAMES)
    requires (name == "manager" || name == "gateway") && name in m.components && OffersVersion(m, name, available)
    requires var version := if name == "manager" then installed.manager else installed.controlApp;
      Unprefixed(version, i) && Unprefixed(available, a)
    ensures var version := if name == "manager" then installed.manager else installed.controlApp;
      && (!Known(available) ==> !Offered(components, name))
      && (Known(available) && semver.parse(i).Some? && semver.parse(a).Some? ==>
            (Offered(components, name) <==> semver.greater(semver.parse(a).value, semver.parse(i).value)))
      && (Known(available) && !(semver.parse(i).Some? && semver.parse(a).Some?) ==>
            (Offered(components, name) <==> Known(version) && version != available))
  {
    hide Unprefixed, TrimV;
    NamesDiffer();
    TrimVExactly(if name == "manager" then installed.manager else installed.controlApp, i);
    TrimVExactly(available, a);
    assert name in COMPONENT_NAMES;
    var u :| u in components && u.name == name;
    assert ReportOf(semver, m, installed, u);
  }

  /** A config file is offered exactly when the manifest's revision, 0 if it is no number, is above the marker. */
  lemma FileOfferedExactly<V>(semver: Semver<V>, m: Manifest, installed: Installed, components: seq<ComponentUpdate>,
      name: string)
    requires Reports(components, semver, m, installed, COMPONENT_NAMES)
    requires (name == "compose" || name == "catalog") && name in m.components
    ensures var revision := ParseU32(m.components[name].version);
      Offered(components, name) <==>
        revision.Some? && revision.value > if name == "compose" then installed.compose else installed.catalog
  {
    hide ParseU32;
    NamesDiffer();
    assert name in COMPONENT_NAMES;
    var u :| u in components && u.name == name;
    assert ReportOf(semver, m, installed, u);
  }

  /** Without a marker file every config file with a positive revision is offered. */
  lemma UnmarkedFilesAreOffered<V>(semver: Semver<V>, m: Manifest, fs: Files, running: map<string, string>,
      managerFallback: string, gatewayFallback: string, components: seq<ComponentUpdate>, name: string)
    requires VERSIONS !in fs && (name == "compose" || name == "catalog") && name in m.components
    requires Reports(components, semver, m, InstalledVersions(fs, running, managerFallback, gatewayFallback),
      COMPONENT_NAMES)
    ensures Offered(components, name) <==>
      ParseU32(m.components[name].version).Some? && ParseU32(m.components[name].version).value > 0
  {
    hide ParseU32, Reports, InstalledVersion;
    NamesDiffer();
    FileOfferedExactly(semver, m, InstalledVersions(fs, running, managerFallback, gatewayFallback), components, name);
  }

  lemma NothingReported<V>(semver: Semver<V>, m: Manifest, installed: Installed)
    ensures Reports([], semver, m, installed, {})
  {
  }

  lemma NamesDiffer()
    ensures "manager" != "gateway" && "manager" != "compose" && "manager" != "catalog"
    ensures "gateway" != "compose" && "gateway" != "catalog" && "compose" != "catalog"
  {
  }

  // ---- pinning and reading back ----------------------------------------------------------------

  predicate IsTagChar(c: char) {
    '0' <= c <= '9' || 'a' <= c <= 'z' || 'A' <= c <= 'Z' || c == '_' || c == '.' || c == '-'
  }

  /** A tag that Docker accepts and that `container_image_tag` does not discard. */
  predicate InformativeTag(t: string) {
    t != "" && (forall c | c in t :: IsTagChar(c)) && t != "latest" && !("sha256" <= t)
  }

  lemma {:induction false} NoLaterOccurrence(s: string, pat: string, i: nat)
    requires i <= |s|
    ensures var r := RSplitFrom(s, pat, i);
      if r.None? then forall k: nat | k <= i :: !OccursAt(s, pat, k)
      else s == r.value.0 + pat + r.value.1 && |r.value.0| <= i
           && forall k: nat | |r.value.0| < k <= i :: !OccursAt(s, pat, k)
  {
    if !OccursAt(s, pat, i) && i > 0 {
      NoLaterOccurrence(s, pat, i - 1);
    }
  }

  /** Taking the last path segment keeps a slash-free ending. */
  lemma SegmentKeepsEnding(x: string, ending: string) returns (y: string)
    requires '/' !in ending
    ensures LastSegment(x + ending) == y + ending
  {
    var s := x + ending;
    NoLaterOccurrence(s, "/", |s|);
    match RSplitOnce(s, "/")
    case None =>
      y := x;
    case Some((before, last)) =>
      assert forall k | |x| <= k < |s| :: s[k] == ending[k - |x|] && s[k] in ending;
      assert s[|before|] == '/';
      y := x[|before| + 1..];
      assert last == s[|before| + 1..];
  }

  lemma LastColon(before: string, tag: string)
    requires ':' !in tag
    ensures RSplitOnce(before + ":" + tag, ":") == Some((before, tag))
  {
    var s := before + ":" + tag;
    forall k: nat | |before| < k <= |s|
      ensures !OccursAt(s, ":", k)
    {
      if k < |s| {
        assert s[k] == tag[k - |before| - 1] && s[k] in tag;
      }
      if OccursAt(s, ":", k) {
        OccursStart(s, ":", k);
      }
    }
    RSplitAtLast(s, ":", |before|, |s|);
    assert s[..|before|] == before && s[|before| + 1..] == tag;
  }

  /** A pinned tag is what the manager reads back from the container, exactly when it is informative. */
  lemma PinnedTagIsReadBack(image: string, tag: string)
    requires tag != "" && forall c | c in tag :: IsTagChar(c)
    ensures ImageTag(Reference(image, tag)) == if InformativeTag(tag) then Some(tag) else None
  {
    assert '/' !in tag && ':' !in tag;
    assert image + ":" + tag == image + (":" + tag);
    var y := SegmentKeepsEnding(image, ":" + tag);
    assert y + (":" + tag) == y + ":" + tag;
    LastColon(y, tag);
    assert tag[0] in tag && tag[|tag| - 1] in tag;
  }

  // ---- apply, then check -----------------------------------------------------------------------

  /**
   The file that `docker compose` is given names both images, under some tags, and neither name hides in the other.
   */
  predicate NamesImages(compose: Option<Content>, manager: Component, gateway: Component, mTag: string, gTag: string) {
    && manager.image.Some? && manager.image.value != "" && gateway.image.Some? && gateway.image.value != ""
    && compose.Some? && compose.value.Compose?
    && (var images := compose.value.images;
        && "airwaves-manager" in images && images["airwaves-manager"] == Reference(manager.image.value, mTag)
        && "airwaves-gateway" in images && images["airwaves-gateway"] == Reference(gateway.image.value, gTag))
    && mTag != "" && AllRefChars(mTag) && gTag != "" && AllRefChars(gTag)
    && !Contains(Reference(gateway.image.value, gTag), manager.image.value + ":")
    && !Contains(Reference(manager.image.value, PinOf(manager)), gateway.image.value + ":")
  }

  /** The selection touches the container stack. */
  predicate TouchesImages(components: seq<string>) {
    exists c | c in components :: c in ["manager", "gateway", "compose", "all"]
  }

  function DeployedCompose(m: Manifest, components: seq<string>, start: Files,
      served: map<string, Artifact>): Option<Content> {
    var r := BuildRequest(m, components);
    Downloaded(Lookup(start, COMPOSE), Wants(r, "compose"), r.composeUrl, served)
  }

  /** After a successful update of any part of the stack both containers run the tags of the manifest. */
  lemma ImagesAfterUpdate(m: Manifest, components: seq<string>, start: Files, served: map<string, Artifact>, end: Files,
      running: map<string, string>, mTag: string, gTag: string)
    requires Applied(start, BuildRequest(m, components), served, end, running) && TouchesImages(components)
    requires "manager" in m.components && "gateway" in m.components
    requires NamesImages(DeployedCompose(m, components, start, served), m.components["manager"],
      m.components["gateway"],
      mTag, gTag)
    requires InformativeTag(PinOf(m.components["manager"])) && InformativeTag(GatewayPinOf(m.components["gateway"]))
    ensures forall fallback :: InstalledVersion(running, "airwaves-manager", fallback) == PinOf(m.components["manager"])
    ensures forall fallback ::
      InstalledVersion(running, "airwaves-gateway", fallback) == GatewayPinOf(m.components["gateway"])
  {
    hide ImageTag, PinText, ParseU32, Contains;
    var r := BuildRequest(m, components);
    RequestIsAsSelected(m, components);
    assert WantsImages(r);
    var manager, gateway := m.components["manager"], m.components["gateway"];
    var before := DeployedCompose(m, components, start, served).value;
    var once := Pinned(before, r.managerImage, r.managerTag);
    var twice := Pinned(once, r.gatewayImage, r.gatewayTag);
    assert BothPinned(before, r) == twice;
    assert Lookup(end, COMPOSE) == Some(twice);
    PinReplacesTag(r.managerImage, mTag, r.managerTag);
    PinLeavesOthers(Reference(r.managerImage, r.managerTag), r.gatewayImage, r.gatewayTag);
    PinLeavesOthers(Reference(r.gatewayImage, gTag), r.managerImage, r.managerTag);
    PinReplacesTag(r.gatewayImage, gTag, r.gatewayTag);
    assert twice.images["airwaves-manager"] == Reference(r.managerImage, r.managerTag);
    assert twice.images["airwaves-gateway"] == Reference(r.gatewayImage, r.gatewayTag);
    PinnedTagIsReadBack(r.managerImage, r.managerTag);
    PinnedTagIsReadBack(r.gatewayImage, r.gatewayTag);
  }

  /** Exactly when the manager image is still reported: a suffix-free tag older than the version beside it. */
  lemma ManagerReportedExactly<V(!new)>(semver: Semver<V>, c: Component)
    requires Irreflexive(semver)
    ensures ManagerReport(semver, PinOf(c), c) <==>
      c.tag.Some? && '-' !in c.tag.value && IsNewer(semver, c.tag.value, c.version)
  {
  }

  lemma GatewayReportedExactly<V(!new)>(semver: Semver<V>, c: Component)
    requires Irreflexive(semver)
    ensures GatewayReport(semver, GatewayPinOf(c), c) <==>
      c.tag.Some? && '-' !in c.tag.value && IsNewer(semver, c.tag.value, GatewayVersion(c))
  {
  }

  predicate ReadableMarkers(fs: Files) {
    VERSIONS in fs ==> fs[VERSIONS].Versions?
  }

  /**
   Exactly when a config file is still reported after an update of any selection: its revision was above the marker,
   and it was not selected or the manifest gives no URL for it.
   */
  lemma RevisionReportedExactly(m: Manifest, components: seq<string>, start: Files, served: map<string, Artifact>,
      end: Files, running: map<string, string>, key: string)
    requires Applied(start, BuildRequest(m, components), served, end, running) && ReadableMarkers(start)
    requires (key == "compose" || key == "catalog") && key in m.components
    ensures AvailableRevision(m.components[key]) > MarkerOf(end, key) <==>
      && AvailableRevision(m.components[key]) > MarkerOf(start, key)
      && (!Selected(components, key) || OrEmpty(m.components[key].url) == "")
  {
    hide ParseU32, ExpectedCompose, Deployed;
    NamesDiffer();
    var r := BuildRequest(m, components);
    RequestIsAsSelected(m, components);
    var middle := MarkedIf(Lookup(start, VERSIONS), Wants(r, "compose"), r.composeUrl, "compose", r.composeVersion);
    assert Lookup(end, VERSIONS) == MarkedIf(middle, Wants(r, "catalog"), r.catalogUrl, "catalog", r.catalogVersion);
  }

  /** A tag that is absent, carries a channel suffix, or repeats the base version. */
  predicate AlignedTag(tag: Option<string>, version: string) {
    tag.None? || '-' in tag.value || tag.value == version
  }

  /**
   Convergence: with images named, aligned and informative tags, and URLs for the config files, a successful apply of
   any selection that touches the stack makes the next check report no update for either image, nor for a selected
   config file.
   */
  lemma AppliedUpdateConverges<V(!new)>(semver: Semver<V>, m: Manifest, components: seq<string>, start: Files,
      served: map<string, Artifact>, end: Files, running: map<string, string>, mTag: string, gTag: string,
      mFallback: string, gFallback: string, u: ComponentUpdate)
    requires Irreflexive(semver) && ReadableMarkers(start) && "manager" in m.components && "gateway" in m.components
    requires TouchesImages(components)
    requires NamesImages(DeployedCompose(m, components, start, served), m.components["manager"],
      m.components["gateway"], mTag, gTag)
    requires InformativeTag(PinOf(m.components["manager"])) && InformativeTag(GatewayPinOf(m.components["gateway"]))
    requires AlignedTag(m.components["manager"].tag, m.components["manager"].version)
    requires AlignedTag(m.components["gateway"].tag, GatewayVersion(m.components["gateway"]))
    requires "compose" in m.components ==> OrEmpty(m.components["compose"].url) != ""
    requires "catalog" in m.components ==> OrEmpty(m.components["catalog"].url) != ""
    requires u.name == "compose" || u.name == "catalog" ==> Selected(components, u.name)
    ensures Applied(start, BuildRequest(m, components), served, end, running) ==>
      ReportOf(semver, m, InstalledVersions(end, running, mFallback, gFallback), u) ==> !u.updateAvailable
  {
    hide Applied, NamesImages, InformativeTag, IsNewer, MarkerOf, AvailableRevision, InstalledVersion, BuildRequest;
    hide Selected, TouchesImages;
    var manager, gateway := m.components["manager"], m.components["gateway"];
    NothingIsNewerThanItself(semver, manager.version);
    NothingIsNewerThanItself(semver, GatewayVersion(gateway));
    ManagerReportedExactly(semver, manager);
    GatewayReportedExactly(semver, gateway);
    if Applied(start, BuildRequest(m, components), served, end, running)
       && ReportOf(semver, m, InstalledVersions(end, running, mFallback, gFallback), u) {
      ImagesAfterUpdate(m, components, start, served, end, running, mTag, gTag);
      if u.name == "compose" || u.name == "catalog" {
        NamesDiffer();
        RevisionReportedExactly(m, components, start, served, end, running, u.name);
      }
    }
  }
}
