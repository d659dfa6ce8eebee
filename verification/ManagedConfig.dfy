/**
 Planning upgrades and rollbacks of the managed composition (`configurator/managed-config.ts`).
 Paths are abstract and distinct per host and asset; rendering, hashing and the manifest's JSON are
 parameters.
 */
module ManagedConfig {
  import opened Wrappers

  datatype HostName = Codex | ClaudeCode | OpenCode | DrenyraPi

  datatype Asset = Marker | Skills | Pin

  /** The managed paths: three assets in each host's directory, and the manifest. */
  datatype Path = AssetPath(host: HostName, asset: Asset) | ManifestPath

  datatype AssetBytes = AssetBytes(sha256: string, content: string)

  /** One composition; `pins` is `None` when it predates per-host pin ownership. */
  datatype Snapshot = Snapshot(packageVersion: string, sequence: int, activatedAt: string,
                               marker: AssetBytes, skills: AssetBytes, pins: Option<map<HostName, AssetBytes>>)

  datatype Composition = Composition(schemaVersion: int, current: Snapshot, previous: Option<Snapshot>)

  datatype Host = Host(name: HostName, configDir: string, present: bool)

  datatype Manifest = Manifest(version: string, installedAt: string, hosts: seq<Host>, composition: Option<Composition>)

  /** What the package provides and what is not modelled further. */
  datatype Package = Package(
    sha256: string -> string,
    isSemver: string -> bool,
    configDir: HostName -> string,
    renderMarker: string -> string,
    renderSkills: string,
    renderPin: HostName -> string,
    encode: Manifest -> string,
    decode: string -> Option<Manifest>)

  const COMPOSITION_SCHEMA_VERSION := 2

  /** What is on disk: files under managed paths, which host directories exist, which files cannot be read. */
  datatype Disk = Disk(files: map<Path, string>, dirs: set<HostName>, unreadable: set<Path>)

  datatype ConfigError = ManagedStateUnknown | RollbackUnavailable | CompositionNotPackaged | IoFailure

  // --------------------------------------------------------- classification

  function HashManagedAsset(pkg: Package, content: string): AssetBytes {
    AssetBytes(pkg.sha256(content), content)
  }

  predicate ValidBytes(pkg: Package, bytes: AssetBytes) {
    bytes.sha256 == pkg.sha256(bytes.content)
  }

  predicate ValidSnapshot(pkg: Package, s: Snapshot) {
    && pkg.isSemver(s.packageVersion) && s.sequence >= 0
    && ValidBytes(pkg, s.marker) && ValidBytes(pkg, s.skills)
    && (s.pins.Some? ==> forall h | h in s.pins.value ::
          ValidBytes(pkg, s.pins.value[h]) && s.pins.value[h].content == pkg.renderPin(h))
  }

  predicate ValidHosts(pkg: Package, hosts: seq<Host>) {
    forall h | h in hosts :: h.configDir == pkg.configDir(h.name)
  }

  datatype ManagedState = Absent | Invalid | Legacy(manifest: Manifest) | CurrentSchema(manifest: Manifest)

  function ClassifyManifest(pkg: Package, m: Manifest): ManagedState {
    if !pkg.isSemver(m.version) || !ValidHosts(pkg, m.hosts) then Invalid
    else if m.composition.None? then Legacy(m)
    else
      var c := m.composition.value;
      if c.schemaVersion >= 0 && ValidSnapshot(pkg, c.current)
        && (c.previous.Some? ==> ValidSnapshot(pkg, c.previous.value))
      then CurrentSchema(m)
      else Invalid
  }

  function ReadManagedState(pkg: Package, disk: Disk): ManagedState {
    if ManifestPath !in disk.files then Absent
    else if ManifestPath in disk.unreadable then Invalid
    else
      var m := pkg.decode(disk.files[ManifestPath]);
      if m.None? then Invalid else ClassifyManifest(pkg, m.value)
  }

  predicate PinsComplete(manifest: Manifest, s: Snapshot) {
    s.pins.Some? && forall h | h in manifest.hosts :: h.present ==> h.name in s.pins.value
  }

  function PackagePins(pkg: Package, manifest: Manifest): map<HostName, AssetBytes> {
    map h | h in manifest.hosts && h.present :: h.name := HashManagedAsset(pkg, pkg.renderPin(h.name))
  }

  datatype Hydrated = Hydrated(snapshot: Snapshot, skillsAvailable: bool, pinsAvailable: bool)

  /** The first readable skills asset of a recorded-present host. */
  function LegacySkills(disk: Disk, hosts: seq<Host>): Option<string> {
    if hosts == [] then None
    else
      var path := AssetPath(hosts[0].name, Skills);
      if hosts[0].present && path in disk.files && path !in disk.unreadable then Some(disk.files[path])
      else LegacySkills(disk, hosts[1..])
  }

  function Hydrate(pkg: Package, manifest: Manifest, disk: Disk): Hydrated {
    if manifest.composition.Some? then
      var current := manifest.composition.value.current;
      Hydrated(current, true, PinsComplete(manifest, current))
    else
      var skills := LegacySkills(disk, manifest.hosts);
      Hydrated(Snapshot(manifest.version, 0, manifest.installedAt,
                        HashManagedAsset(pkg, pkg.renderMarker(manifest.installedAt)),
                        if skills.None? then AssetBytes("", "") else HashManagedAsset(pkg, skills.value), None),
               skills.Some?, false)
  }

  // ------------------------------------------------------------- planning

  datatype AssetAction = Updated | Created | Preserved | Missing

  datatype AssetResult = AssetResult(host: HostName, asset: Asset, action: AssetAction)

  datatype AssetWrite = AssetWrite(path: Path, data: string)

  /** The bytes a composition records for an asset of a host, if it owns that asset. */
  function Recorded(s: Snapshot, host: HostName, asset: Asset): Option<string> {
    match asset
    case Marker => Some(s.marker.content)
    case Skills => Some(s.skills.content)
    case Pin => if s.pins.Some? && host in s.pins.value then Some(s.pins.value[host].content) else None
  }

  function ActionFor(disk: Disk, path: Path, expected: string): AssetAction {
    if path !in disk.files then Created
    else if path in disk.unreadable then Preserved
    else if disk.files[path] == expected then Updated
    else Preserved
  }

  /** One asset of one host: at most one write and at most one result. */
  function PlanAsset(disk: Disk, host: HostName, asset: Asset, current: Snapshot,
                     target: Snapshot): (seq<AssetWrite>, seq<AssetResult>) {
    var path := AssetPath(host, asset);
    var expected, bytes := Recorded(current, host, asset), Recorded(target, host, asset);
    if expected.None? || bytes.None? then ([], [])
    else
      var action := ActionFor(disk, path, expected.value);
      (if action == Preserved then [] else [AssetWrite(path, bytes.value)], [AssetResult(host, asset, action)])
  }

  function PlanHost(disk: Disk, host: Host, current: Snapshot, target: Snapshot): (seq<AssetWrite>, seq<AssetResult>) {
    if !host.present then ([], [])
    else if host.name !in disk.dirs then
      ([], [AssetResult(host.name, Marker, Missing), AssetResult(host.name, Skills, Missing),
            AssetResult(host.name, Pin, Missing)])
    else
      var m, s, p := PlanAsset(disk, host.name, Marker, current, target),
                     PlanAsset(disk, host.name, Skills, current, target),
                     PlanAsset(disk, host.name, Pin, current, target);
      (m.0 + s.0 + p.0, m.1 + s.1 + p.1)
  }

  function PlanHosts(disk: Disk, hosts: seq<Host>, current: Snapshot,
                     target: Snapshot): (seq<AssetWrite>, seq<AssetResult>) {
    if hosts == [] then ([], [])
    else
      var front, last := PlanHosts(disk, hosts[..|hosts| - 1], current, target),
                         PlanHost(disk, hosts[|hosts| - 1], current, target);
      (front.0 + last.0, front.1 + last.1)
  }

  method PlanAssetTransitions(pkg: Package, manifest: Manifest, disk: Disk, current: Snapshot, target: Snapshot)
    returns (r: Result<(seq<AssetWrite>, seq<AssetResult>), ConfigError>)
    ensures r.Ok? <==> forall h :: h in manifest.hosts && h.present ==> h.configDir == pkg.configDir(h.name)
    ensures r.Ok? ==> r.value == PlanHosts(disk, manifest.hosts, current, target)
    ensures r.Err? ==> r.error == ManagedStateUnknown
  {
    var writes: seq<AssetWrite>, results: seq<AssetResult> := [], [];
    for i := 0 to |manifest.hosts|
      invariant (writes, results) == PlanHosts(disk, manifest.hosts[..i], current, target)
      invariant forall j :: 0 <= j < i && manifest.hosts[j].present ==>
        manifest.hosts[j].configDir == pkg.configDir(manifest.hosts[j].name)
    {
      var host := manifest.hosts[i];
      assert manifest.hosts[..i + 1][..i] == manifest.hosts[..i];
      ghost var planned := PlanHost(disk, host, current, target);
      ghost var writes0, results0 := writes, results;
      if !host.present {
        assert writes0 + [] == writes0 && results0 + [] == results0;
        continue;
      }
      if host.configDir != pkg.configDir(host.name) {
        assert host in manifest.hosts;
        return Err(ManagedStateUnknown);
      }
      if host.name !in disk.dirs {
        results := results + [AssetResult(host.name, Marker, Missing)] + [AssetResult(host.name, Skills, Missing)]
                   + [AssetResult(host.name, Pin, Missing)];
        assert results == results0 + planned.1 && writes0 + [] == writes0;
        continue;
      }
      var marker := PlanAsset(disk, host.name, Marker, current, target);
      var skills := PlanAsset(disk, host.name, Skills, current, target);
      var pin := PlanAsset(disk, host.name, Pin, current, target);
      writes := writes + marker.0 + skills.0 + pin.0;
      results := results + marker.1 + skills.1 + pin.1;
      assert writes == writes0 + planned.0 && results == results0 + planned.1;
    }
    assert manifest.hosts[..|manifest.hosts|] == manifest.hosts;
    r := Ok((writes, results));
  }

  predicate SamePins(a: Snapshot, b: Snapshot) {
    if a.pins.None? || b.pins.None? then a.pins == b.pins
    else
      && a.pins.value.Keys == b.pins.value.Keys
      && forall h | h in a.pins.value :: a.pins.value[h].content == b.pins.value[h].content
  }

  predicate SameManagedAssets(a: Snapshot, b: Snapshot) {
    a.marker.content == b.marker.content && a.skills.content == b.skills.content && SamePins(a, b)
  }

  datatype TransitionStatus = Upgraded | RolledBack | Unchanged

  datatype TransitionPlan = TransitionPlan(status: TransitionStatus, from: string, to: string,
                                           results: seq<AssetResult>,
                                           writes: seq<AssetWrite>, candidate: Manifest)

  function PlanUpgrade(pkg: Package, disk: Disk, requested: string, packaged: string,
                       now: string): Result<TransitionPlan, ConfigError> {
    var state := ReadManagedState(pkg, disk);
    if state.Absent? || state.Invalid? then Err(ManagedStateUnknown)
    else
      var manifest := state.manifest;
      var hydrated := Hydrate(pkg, manifest, disk);
      var current := hydrated.snapshot;
      if requested == current.packageVersion then
        Ok(TransitionPlan(Unchanged, current.packageVersion, requested, [], [], manifest))
      else if requested != packaged then Err(CompositionNotPackaged)
      else if !hydrated.skillsAvailable || !hydrated.pinsAvailable then Err(ManagedStateUnknown)
      else
        var target := Snapshot(requested, current.sequence + 1, now, HashManagedAsset(pkg, pkg.renderMarker(now)),
                               HashManagedAsset(pkg, pkg.renderSkills), Some(PackagePins(pkg, manifest)));
        var planned := PlanHosts(disk, manifest.hosts, current, target);
        Ok(TransitionPlan(Upgraded, current.packageVersion, requested, planned.1, planned.0,
             manifest.(version := requested,
                       composition := Some(Composition(COMPOSITION_SCHEMA_VERSION, target, Some(current))))))
  }

  function PlanRollback(pkg: Package, disk: Disk): Result<TransitionPlan, ConfigError> {
    var state := ReadManagedState(pkg, disk);
    if state.Absent? || state.Invalid? then Err(ManagedStateUnknown)
    else
      var manifest := state.manifest;
      if manifest.composition.None? || manifest.composition.value.previous.None? then Err(RollbackUnavailable)
      else
        var current, previous := manifest.composition.value.current, manifest.composition.value.previous.value;
        if !PinsComplete(manifest, current) || !PinsComplete(manifest, previous) then Err(ManagedStateUnknown)
        else if current.packageVersion == previous.packageVersion && SameManagedAssets(current, previous) then
          Ok(TransitionPlan(Unchanged, current.packageVersion, previous.packageVersion, [], [], manifest))
        else
          var planned := PlanHosts(disk, manifest.hosts, current, previous);
          Ok(TransitionPlan(RolledBack, current.packageVersion, previous.packageVersion, planned.1, planned.0,
               manifest.(version := previous.packageVersion,
                         composition := Some(Composition(COMPOSITION_SCHEMA_VERSION, previous, Some(previous))))))
  }

  // --------------------------------------------------------- what plans do

  /** Performing writes in order. */
  function ApplyWrites(files: map<Path, string>, writes: seq<AssetWrite>): map<Path, string> {
    if writes == [] then files
    else ApplyWrites(files, writes[..|writes| - 1])[writes[|writes| - 1].path := writes[|writes| - 1].data]
  }

  /** What a fully committed plan leaves on disk. */
  function Committed(pkg: Package, disk: Disk, plan: TransitionPlan): Disk {
    disk.(files := ApplyWrites(disk.files, plan.writes)[ManifestPath := pkg.encode(plan.candidate)])
  }

  /** An asset is written exactly when its host is recorded present, its directory exists, both compositions
      own it, and the file is absent or readable with exactly the recorded bytes. */
  ghost predicate Writes(disk: Disk, hosts: seq<Host>, current: Snapshot, target: Snapshot, host: HostName,
                         asset: Asset) {
    && (exists h :: h in hosts && h.name == host && h.present) && host in disk.dirs
    && Recorded(current, host, asset).Some? && Recorded(target, host, asset).Some?
    && ActionFor(disk, AssetPath(host, asset), Recorded(current, host, asset).value) != Preserved
  }
}
