/**
 What an upgrade followed by a rollback does to the disk.
 */
module ManagedTransitions {
  import opened Wrappers
  import opened ManagedConfig

  /** A plan's writes, exactly. */
  lemma {:induction false} PlannedWrites(disk: Disk, hosts: seq<Host>, current: Snapshot, target: Snapshot,
                                         w: AssetWrite)
    ensures w in PlanHosts(disk, hosts, current, target).0 <==>
      && w.path.AssetPath? && Writes(disk, hosts, current, target, w.path.host, w.path.asset)
      && w.data == Recorded(target, w.path.host, w.path.asset).value
  {
    if hosts != [] {
      var front, last := hosts[..|hosts| - 1], hosts[|hosts| - 1];
      assert hosts == front + [last];
      PlannedWrites(disk, front, current, target, w);
      PlannedByHost(disk, last, current, target, w);
    }
  }

  lemma PlannedByHost(disk: Disk, host: Host, current: Snapshot, target: Snapshot, w: AssetWrite)
    ensures w in PlanHost(disk, host, current, target).0 <==>
      && w.path.AssetPath? && Writes(disk, [host], current, target, w.path.host, w.path.asset)
      && w.data == Recorded(target, w.path.host, w.path.asset).value
  {
    assert host in [host];
  }

  /** Writes that agree on a path leave their bytes there; a path nobody writes keeps its own. */
  lemma {:induction false} WritesAt(files: map<Path, string>, writes: seq<AssetWrite>, path: Path, data: string)
    requires forall w :: w in writes && w.path == path ==> w.data == data
    ensures (exists w :: w in writes && w.path == path) ==>
      path in ApplyWrites(files, writes) && ApplyWrites(files, writes)[path] == data
    ensures !(exists w :: w in writes && w.path == path) ==>
      (path in ApplyWrites(files, writes) <==> path in files)
      && (path in files ==> ApplyWrites(files, writes)[path] == files[path])
  {
    if writes != [] {
      var front, last := writes[..|writes| - 1], writes[|writes| - 1];
      assert writes == front + [last];
      WritesAt(files, front, path, data);
    }
  }

  /** The effect of a committed plan on one asset: the target's bytes where it writes, nothing elsewhere. */
  lemma CommittedAsset(pkg: Package, disk: Disk, plan: TransitionPlan, current: Snapshot, target: Snapshot,
                       hosts: seq<Host>,
                       host: HostName, asset: Asset)
    requires plan.writes == PlanHosts(disk, hosts, current, target).0
    ensures var path, files := AssetPath(host, asset), Committed(pkg, disk, plan).files;
      if Writes(disk, hosts, current, target, host, asset) then
        path in files && files[path] == Recorded(target, host, asset).value
      else (path in files <==> path in disk.files) && (path in files ==> files[path] == disk.files[path])
  {
    var path := AssetPath(host, asset);
    forall w | w in plan.writes && w.path == path
      ensures Writes(disk, hosts, current, target, host, asset) && w.data == Recorded(target, host, asset).value
    {
      PlannedWrites(disk, hosts, current, target, w);
    }
    if Writes(disk, hosts, current, target, host, asset) {
      var w := AssetWrite(path, Recorded(target, host, asset).value);
      PlannedWrites(disk, hosts, current, target, w);
      WritesAt(disk.files, plan.writes, path, w.data);
    } else {
      WritesAt(disk.files, plan.writes, path, "");
    }
  }

  ghost predicate CodecRoundTrips(pkg: Package) {
    forall m :: pkg.decode(pkg.encode(m)) == Some(m)
  }

  /** The readable, valid manifest on disk is `m`, with a composition. */
  ghost predicate Manages(pkg: Package, disk: Disk, m: Manifest) {
    ReadManagedState(pkg, disk) == CurrentSchema(m)
  }

  lemma CommittedManifest(pkg: Package, disk: Disk, plan: TransitionPlan)
    requires CodecRoundTrips(pkg) && ManifestPath in disk.files && ManifestPath !in disk.unreadable
    requires ClassifyManifest(pkg, plan.candidate) == CurrentSchema(plan.candidate)
    ensures Manages(pkg, Committed(pkg, disk, plan), plan.candidate)
  {
  }

  /** A plan whose candidate the commit accepts. */
  ghost predicate Acceptable(pkg: Package, plan: TransitionPlan) {
    ClassifyManifest(pkg, plan.candidate) == CurrentSchema(plan.candidate)
  }

  /** The commit accepts a planned upgrade exactly when the requested version is a semantic version. */
  lemma UpgradeIsAcceptable(pkg: Package, disk: Disk, m: Manifest, requested: string, packaged: string, now: string)
    requires Manages(pkg, disk, m) && PlanUpgrade(pkg, disk, requested, packaged, now).Ok?
    requires PlanUpgrade(pkg, disk, requested, packaged, now).value.status == Upgraded
    ensures Acceptable(pkg, PlanUpgrade(pkg, disk, requested, packaged, now).value) <==> pkg.isSemver(requested)
  {
  }

  /** After a committed upgrade, a rollback can be planned, is accepted, and is not a no-op. */
  lemma RollbackIsPlanned(pkg: Package, disk: Disk, m: Manifest, requested: string, packaged: string, now: string)
    requires CodecRoundTrips(pkg) && Manages(pkg, disk, m)
    requires PlanUpgrade(pkg, disk, requested, packaged, now).Ok?
    requires var up := PlanUpgrade(pkg, disk, requested, packaged, now).value;
             up.status == Upgraded && pkg.isSemver(requested)
    ensures var up := PlanUpgrade(pkg, disk, requested, packaged, now).value;
      var disk1 := Committed(pkg, disk, up);
      var back := PlanRollback(pkg, disk1);
      var original, upgraded := m.composition.value.current, up.candidate.composition.value.current;
      && requested == packaged == upgraded.packageVersion && upgraded.sequence == original.sequence + 1
      && up.candidate.composition.value.previous == Some(original)
      && up.writes == PlanHosts(disk, m.hosts, original, upgraded).0
      && Manages(pkg, disk1, up.candidate) && Acceptable(pkg, up)
      && back.Ok? && back.value.status == RolledBack && Acceptable(pkg, back.value)
      && back.value.writes == PlanHosts(disk1, m.hosts, upgraded, original).0
      && back.value.candidate.composition == Some(Composition(COMPOSITION_SCHEMA_VERSION, original, Some(original)))
      && back.value.candidate.version == original.packageVersion && PinsComplete(back.value.candidate, original)
  {
    var up := PlanUpgrade(pkg, disk, requested, packaged, now).value;
    UpgradeIsAcceptable(pkg, disk, m, requested, packaged, now);
    CommittedManifest(pkg, disk, up);
    var upgraded := up.candidate.composition.value.current;
    forall h | h in m.hosts && h.present ensures h.name in upgraded.pins.value {
    }
  }

  /**
   The transition may write the asset: its host is recorded present, the directory is there, both
   compositions own it.
   */
  ghost predicate Owned(disk: Disk, hosts: seq<Host>, original: Snapshot, upgraded: Snapshot, host: HostName,
                        asset: Asset) {
    && (exists h :: h in hosts && h.name == host && h.present) && host in disk.dirs
    && Recorded(original, host, asset).Some? && Recorded(upgraded, host, asset).Some?
  }

  ghost predicate SameFile(a: map<Path, string>, b: map<Path, string>, path: Path) {
    (path in a <==> path in b) && (path in a ==> a[path] == b[path])
  }

  /**
   Upgrading and rolling back leaves an asset as it began exactly when the transition does not own it, or
   its file was there and was unreadable, held the original's bytes, or did not hold the upgrade's.  A
   file that was absent ends up created, and one that already held the upgrade's bytes ends up downgraded.
   */
  lemma RoundTripRestoresExactly(pkg: Package, disk: Disk, m: Manifest, up: TransitionPlan, back: TransitionPlan,
                                 original: Snapshot, upgraded: Snapshot, host: HostName, asset: Asset)
    requires up.writes == PlanHosts(disk, m.hosts, original, upgraded).0
    requires back.writes == PlanHosts(Committed(pkg, disk, up), m.hosts, upgraded, original).0
    ensures var path := AssetPath(host, asset);
      SameFile(disk.files, Committed(pkg, Committed(pkg, disk, up), back).files, path) <==>
      || !Owned(disk, m.hosts, original, upgraded, host, asset)
      || (path in disk.files && (path in disk.unreadable || Some(disk.files[path]) == Recorded(original, host, asset)
                                 || Some(disk.files[path]) != Recorded(upgraded, host, asset)))
  {
    CommittedAsset(pkg, disk, up, original, upgraded, m.hosts, host, asset);
    CommittedAsset(pkg, Committed(pkg, disk, up), back, upgraded, original, m.hosts, host, asset);
  }

  /** Bytes neither composition recorded, and bytes that cannot be read, are not touched at any point. */
  lemma ForeignBytesUntouched(pkg: Package, disk: Disk, m: Manifest, up: TransitionPlan, back: TransitionPlan,
                              original: Snapshot, upgraded: Snapshot, host: HostName, asset: Asset)
    requires up.writes == PlanHosts(disk, m.hosts, original, upgraded).0
    requires back.writes == PlanHosts(Committed(pkg, disk, up), m.hosts, upgraded, original).0
    requires var path := AssetPath(host, asset);
      path in disk.files
      && (path in disk.unreadable
          || (Some(disk.files[path]) != Recorded(original, host, asset)
              && Some(disk.files[path]) != Recorded(upgraded, host, asset)))
    ensures SameFile(disk.files, Committed(pkg, disk, up).files, AssetPath(host, asset))
    ensures SameFile(disk.files, Committed(pkg, Committed(pkg, disk, up), back).files, AssetPath(host, asset))
  {
    CommittedAsset(pkg, disk, up, original, upgraded, m.hosts, host, asset);
    RoundTripRestoresExactly(pkg, disk, m, up, back, original, upgraded, host, asset);
  }

  /** A composition that is its own previous one rolls back to itself, without a write. */
  lemma RollbackToSelf(pkg: Package, disk: Disk, m: Manifest, s: Snapshot)
    requires Manages(pkg, disk, m) && m.composition.Some? && PinsComplete(m, s)
    requires m.composition.value.current == s && m.composition.value.previous == Some(s)
    ensures PlanRollback(pkg, disk).Ok? && PlanRollback(pkg, disk).value.status == Unchanged
    ensures PlanRollback(pkg, disk).value.writes == []
  {
  }

  /** After the rollback is committed too, the original composition is current, and a further rollback does nothing. */
  lemma SecondRollbackIsNoOp(pkg: Package, disk: Disk, m: Manifest, requested: string, packaged: string, now: string)
    requires CodecRoundTrips(pkg) && Manages(pkg, disk, m)
    requires PlanUpgrade(pkg, disk, requested, packaged, now).Ok?
    requires var up := PlanUpgrade(pkg, disk, requested, packaged, now).value;
             up.status == Upgraded && pkg.isSemver(requested)
    ensures var disk1 := Committed(pkg, disk, PlanUpgrade(pkg, disk, requested, packaged, now).value);
      var back := PlanRollback(pkg, disk1);
      && back.Ok?
      && var disk2 := Committed(pkg, disk1, back.value);
      && ReadManagedState(pkg, disk2) == CurrentSchema(back.value.candidate)
      && PlanRollback(pkg, disk2).Ok? && PlanRollback(pkg, disk2).value.status == Unchanged
      && PlanRollback(pkg, disk2).value.writes == []
  {
    RollbackIsPlanned(pkg, disk, m, requested, packaged, now);
    var disk1 := Committed(pkg, disk, PlanUpgrade(pkg, disk, requested, packaged, now).value);
    var back := PlanRollback(pkg, disk1).value;
    CommittedManifest(pkg, disk1, back);
    RollbackToSelf(pkg, Committed(pkg, disk1, back), back.candidate, m.composition.value.current);
  }

  /**
   Upgrade, then roll back: the recorded composition is the original one again; each managed asset is as
   it began exactly under the condition of `RoundTripRestoresExactly`; files with foreign bytes were never
   touched; and a further rollback plans no write.
   */
  lemma UpgradeThenRollback(pkg: Package, disk: Disk, m: Manifest, requested: string, packaged: string, now: string,
                            host: HostName, asset: Asset)
    requires CodecRoundTrips(pkg) && Manages(pkg, disk, m)
    requires PlanUpgrade(pkg, disk, requested, packaged, now).Ok?
    requires var up := PlanUpgrade(pkg, disk, requested, packaged, now).value;
             up.status == Upgraded && pkg.isSemver(requested)
    ensures var original, path := m.composition.value.current, AssetPath(host, asset);
      var up := PlanUpgrade(pkg, disk, requested, packaged, now).value;
      var upgraded := up.candidate.composition.value.current;
      var disk1 := Committed(pkg, disk, up);
      var back := PlanRollback(pkg, disk1);
      && back.Ok?
      && var disk2 := Committed(pkg, disk1, back.value);
      // the original composition is current again, and a further rollback is a no-op
      && ReadManagedState(pkg, disk2) == CurrentSchema(back.value.candidate)
      && back.value.candidate.composition.value.current == original
      && PlanRollback(pkg, disk2).Ok? && PlanRollback(pkg, disk2).value.status == Unchanged
      && PlanRollback(pkg, disk2).value.writes == []
      // the asset is as it began, exactly when
      && (SameFile(disk.files, disk2.files, path) <==>
            || !Owned(disk, m.hosts, original, upgraded, host, asset)
            || (path in disk.files
                && (path in disk.unreadable || Some(disk.files[path]) == Recorded(original, host, asset)
                                       || Some(disk.files[path]) != Recorded(upgraded, host, asset))))
      // foreign bytes are never touched
      && (path in disk.files
          && (path in disk.unreadable
              || (Some(disk.files[path]) != Recorded(original, host, asset)
                  && Some(disk.files[path]) != Recorded(upgraded, host, asset)))
          ==> SameFile(disk.files, disk1.files, path))
  {
    var up := PlanUpgrade(pkg, disk, requested, packaged, now).value;
    var original, upgraded := m.composition.value.current, up.candidate.composition.value.current;
    RollbackIsPlanned(pkg, disk, m, requested, packaged, now);
    SecondRollbackIsNoOp(pkg, disk, m, requested, packaged, now);
    var back, path := PlanRollback(pkg, Committed(pkg, disk, up)).value, AssetPath(host, asset);
    RoundTripRestoresExactly(pkg, disk, m, up, back, original, upgraded, host, asset);
    if path in disk.files && (path in disk.unreadable || Some(disk.files[path]) != Recorded(original, host, asset)) {
      if path in disk.unreadable || Some(disk.files[path]) != Recorded(upgraded, host, asset) {
        ForeignBytesUntouched(pkg, disk, m, up, back, original, upgraded, host, asset);
      }
    }
  }
}
