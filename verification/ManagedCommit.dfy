/**
 The atomic commit of a transition plan (`configurator/managed-config.ts`): stage everything, rename
 assets, rename the manifest last, restore on failure.  Any stage, rename or hook call may fail.
 */
module ManagedCommit {
  import opened Wrappers
  import opened ManagedConfig
  import opened ManagedTransitions

  /** Which operations fail, by index; the manifest is the one after the last asset. */
  datatype Faults = Faults(stage: nat -> bool, rename: nat -> bool, hook: nat -> bool, restore: nat -> bool)

  datatype StagedWrite = StagedWrite(target: Path, tmp: nat, original: Option<string>, existed: bool, replaced: bool)

  /** The staged write remembers what its target held in `original`. */
  ghost predicate Remembers(s: StagedWrite, original: map<Path, string>) {
    && (s.existed <==> s.target in original)
    && s.original == if s.existed then Some(original[s.target]) else None
  }

  /** Every path that differs from the original is the target of a replaced write from `k` on. */
  ghost predicate DirtyOnlyFrom(files: map<Path, string>, original: map<Path, string>, staged: seq<StagedWrite>,
                                k: nat) {
    forall p :: SameFile(files, original, p)
      || exists j :: k <= j < |staged| && staged[j].replaced && staged[j].target == p
  }

  class FileSystem {
    var files: map<Path, string>
    var temps: map<nat, string>   // temporary files; a fresh number stands for a random name
    var nextTemp: nat
    const dirs: set<HostName>
    const unreadable: set<Path>

    constructor (disk: Disk)
      ensures Disk() == disk && temps == map[] && Valid()
    {
      files, temps, nextTemp := disk.files, map[], 0;
      dirs, unreadable := disk.dirs, disk.unreadable;
    }

    function Disk(): Disk
      reads this
    {
      ManagedConfig.Disk(files, dirs, unreadable)
    }

    ghost predicate Valid()
      reads this
    {
      forall n :: n in temps ==> n < nextTemp
    }

    /** Writes the temporary file, then records what the target holds; either part may fail. */
    method StageWrite(target: Path, data: string, fails: bool) returns (r: Result<StagedWrite, ConfigError>)
      requires Valid()
      modifies this`temps, this`nextTemp
      ensures Valid() && nextTemp >= old(nextTemp)
      ensures r.Ok? <==> !fails && !(target in files && target in unreadable)
      ensures forall n :: n < old(nextTemp) ==>
        (n in temps <==> n in old(temps)) && (n in temps ==> temps[n] == old(temps)[n])
      ensures r.Ok? ==> var s := r.value;
        && s.target == target && !s.replaced && Remembers(s, files)
        && old(nextTemp) <= s.tmp && s.tmp in temps && temps[s.tmp] == data
    {
      var tmp := nextTemp;
      nextTemp := nextTemp + 1;
      if fails {
        return Err(IoFailure);
      }
      temps := temps[tmp := data];
      var existed := target in files;
      if existed && target in unreadable {
        return Err(IoFailure);
      }
      r := Ok(StagedWrite(target, tmp, if existed then Some(files[target]) else None, existed, false));
    }

    method Unlink(tmp: nat)
      requires Valid()
      modifies this`temps
      ensures Valid() && temps == old(temps) - {tmp}
    {
      temps := temps - {tmp};
    }

    method Rename(tmp: nat, target: Path)
      requires Valid() && tmp in temps
      modifies this`temps, this`files
      ensures Valid() && temps == old(temps) - {tmp} && files == old(files)[target := old(temps)[tmp]]
    {
      files := files[target := temps[tmp]];
      temps := temps - {tmp};
    }

    /** Puts one staged write's target back, or drops its temporary file if it was never renamed. */
    method RestoreOne(s: StagedWrite, fails: bool, ghost original: map<Path, string>)
      requires Valid() && Remembers(s, original)
      modifies this`files, this`temps
      ensures Valid()
      ensures forall p :: p != s.target || !s.replaced ==> SameFile(files, old(files), p)
      ensures s.replaced && !fails ==> SameFile(files, original, s.target)
    {
      if s.replaced {
        if !fails {
          if s.existed {
            files := files[s.target := s.original.value];
          } else {
            files := files - {s.target};
          }
        }
      } else {
        Unlink(s.tmp);
      }
    }

    method RestoreAfterFailure(staged: seq<StagedWrite>, manifestStaged: Option<StagedWrite>, restoreFails: nat -> bool,
                               ghost original: map<Path, string>)
      requires Valid() && DirtyOnlyFrom(files, original, staged, 0)
      requires forall k :: 0 <= k < |staged| ==> Remembers(staged[k], original)
      requires manifestStaged.Some? ==> !manifestStaged.value.replaced && Remembers(manifestStaged.value, original)
      modifies this`files, this`temps
      ensures Valid()
      ensures (forall n :: !restoreFails(n)) ==> files == original
    {
      for k := 0 to |staged|
        invariant Valid() && ((forall n :: !restoreFails(n)) ==> DirtyOnlyFrom(files, original, staged, k))
      {
        ghost var before := files;
        RestoreOne(staged[k], restoreFails(k), original);
        if forall n :: !restoreFails(n) {
          RestoredOne(before, files, original, staged, k);
        }
      }
      ghost var restored := files;
      if manifestStaged.Some? {
        RestoreOne(manifestStaged.value, restoreFails(|staged|), original);
      }
      if forall n :: !restoreFails(n) {
        assert forall p :: SameFile(restored, original, p);
        SameEverywhere(files, original, restored);
      }
    }

    static lemma SameEverywhere(a: map<Path, string>, b: map<Path, string>, c: map<Path, string>)
      requires forall p :: SameFile(c, b, p)
      requires forall p :: SameFile(a, c, p)
      ensures a == b
    {
      forall p ensures (p in a <==> p in b) && (p in a ==> a[p] == b[p]) {
        assert SameFile(a, c, p) && SameFile(c, b, p);
      }
    }

    static lemma RestoredOne(before: map<Path, string>, after: map<Path, string>, original: map<Path, string>,
                             staged: seq<StagedWrite>, k: nat)
      requires k < |staged| && DirtyOnlyFrom(before, original, staged, k)
      requires forall p :: p != staged[k].target || !staged[k].replaced ==> SameFile(after, before, p)
      requires staged[k].replaced ==> SameFile(after, original, staged[k].target)
      ensures DirtyOnlyFrom(after, original, staged, k + 1)
    {
      forall p ensures SameFile(after, original, p)
                       || exists j :: k + 1 <= j < |staged| && staged[j].replaced && staged[j].target == p {
        if p != staged[k].target || !staged[k].replaced {
          assert SameFile(after, before, p);
          if !SameFile(before, original, p) {
            var j :| k <= j < |staged| && staged[j].replaced && staged[j].target == p;
            assert j != k;
          }
        }
      }
    }

    /** The staged writes of the plan so far, in step with its writes; those from `from` on still have their files. */
    static ghost predicate InStep(staged: seq<StagedWrite>, writes: seq<AssetWrite>, from: nat,
                                  original: map<Path, string>, temps: map<nat, string>)
      requires |staged| <= |writes|
    {
      && (forall i :: 0 <= i < |staged| ==>
            Remembers(staged[i], original) && staged[i].target == writes[i].path && (staged[i].replaced <==> i < from))
      && (forall i :: from <= i < |staged| ==>
            staged[i].tmp in temps && temps[staged[i].tmp] == writes[i].data)
      && (forall i, j :: 0 <= i < j < |staged| ==> staged[i].tmp < staged[j].tmp)
    }

    static ghost predicate Stageable(files: map<Path, string>, unreadable: set<Path>, path: Path) {
      !(path in files && path in unreadable)
    }

    /** Appending a write staged under a fresh temporary name keeps the staged writes in step. */
    static lemma StagedOneMore(staged: seq<StagedWrite>, writes: seq<AssetWrite>, s: StagedWrite, files: map<Path,
                               string>,
                               before: map<nat, string>, after: map<nat, string>, low: nat)
      requires |staged| < |writes| && InStep(staged, writes, 0, files, before)
      requires forall n :: n in before ==> n < low && n in after && after[n] == before[n]
      requires s.target == writes[|staged|].path && !s.replaced && Remembers(s, files)
      requires low <= s.tmp && s.tmp in after && after[s.tmp] == writes[|staged|].data
      ensures InStep(staged + [s], writes, 0, files, after)
    {
    }

    static ghost predicate AllStageable(files: map<Path, string>, unreadable: set<Path>, writes: seq<AssetWrite>,
                                        fails: nat -> bool)
    {
      forall i :: 0 <= i < |writes| ==> !fails(i) && Stageable(files, unreadable, writes[i].path)
    }

    method StageAll(writes: seq<AssetWrite>, fails: nat -> bool) returns (staged: seq<StagedWrite>, ok: bool)
      requires Valid()
      modifies this`temps, this`nextTemp
      ensures Valid() && |staged| <= |writes| && InStep(staged, writes, 0, files, temps)
      ensures ok <==> AllStageable(files, unreadable, writes, fails)
      ensures ok ==> |staged| == |writes|
    {
      staged := [];
      for i := 0 to |writes|
        invariant Valid() && |staged| == i && InStep(staged, writes, 0, files, temps)
        invariant forall k :: 0 <= k < i ==> !fails(k) && Stageable(files, unreadable, writes[k].path)
      {
        ghost var before, low := temps, nextTemp;
        var r := StageWrite(writes[i].path, writes[i].data, fails(i));
        if r.Err? {
          ok := false;
          return;
        }
        StagedOneMore(staged, writes, r.value, files, before, temps, low);
        staged := staged + [r.value];
      }
      ok := true;
    }

    method RenameOne(staged: seq<StagedWrite>, writes: seq<AssetWrite>, i: nat, ghost original: map<Path, string>)
      returns (staged': seq<StagedWrite>)
      requires Valid() && i < |staged| == |writes| && InStep(staged, writes, i, original, temps)
      modifies this`temps, this`files
      ensures Valid() && |staged'| == |staged| && InStep(staged', writes, i + 1, original, temps)
      ensures forall k :: 0 <= k < |staged| ==> staged'[k].tmp == staged[k].tmp
      ensures temps == old(temps) - {staged[i].tmp} && files == old(files)[writes[i].path := writes[i].data]
    {
      Rename(staged[i].tmp, staged[i].target);
      staged' := staged[i := staged[i].(replaced := true)];
    }

    /** Renames the staged assets in order; stops at the first rename or hook that fails. */
    method RenameAll(staged: seq<StagedWrite>, writes: seq<AssetWrite>, manifestTmp: nat, renameFails: nat -> bool,
                     hookThrows: nat -> bool)
      returns (staged': seq<StagedWrite>, ok: bool)
      requires Valid() && |staged| == |writes| && InStep(staged, writes, 0, files, temps)
      requires manifestTmp in temps && forall i :: 0 <= i < |staged| ==> staged[i].tmp < manifestTmp
      modifies this`temps, this`files
      ensures Valid() && |staged'| == |writes| && DirtyOnlyFrom(files, old(files), staged', 0)
      ensures forall k :: 0 <= k < |staged'| ==> Remembers(staged'[k], old(files))
      ensures ok <==> forall i :: 0 <= i < |writes| ==> !renameFails(i) && !hookThrows(i)
      ensures ok ==>
              files == ApplyWrites(old(files), writes) && manifestTmp in temps
                && temps[manifestTmp] == old(temps)[manifestTmp]
    {
      staged' := staged;
      for i := 0 to |staged|
        invariant Valid() && |staged'| == |writes| && InStep(staged', writes, i, old(files), temps)
        invariant forall k :: 0 <= k < |staged| ==> staged'[k].tmp == staged[k].tmp
        invariant manifestTmp in temps && temps[manifestTmp] == old(temps)[manifestTmp]
        invariant files == ApplyWrites(old(files), writes[..i])
        invariant forall k :: 0 <= k < i ==> !renameFails(k) && !hookThrows(k)
      {
        if renameFails(i) {
          AppliedIsDirty(old(files), writes, i, staged');
          return staged', false;
        }
        staged' := RenameOne(staged', writes, i, old(files));
        assert writes[..i + 1][..i] == writes[..i];
        if hookThrows(i) {
          AppliedIsDirty(old(files), writes, i + 1, staged');
          return staged', false;
        }
      }
      assert writes[..|writes|] == writes;
      AppliedIsDirty(old(files), writes, |writes|, staged');
      ok := true;
    }

    /** After `n` writes, only the targets of those writes can differ. */
    static lemma AppliedIsDirty(original: map<Path, string>, writes: seq<AssetWrite>, n: nat, staged: seq<StagedWrite>)
      requires n <= |writes| == |staged|
      requires forall i :: 0 <= i < |staged| ==> staged[i].target == writes[i].path && (staged[i].replaced <==> i < n)
      ensures DirtyOnlyFrom(ApplyWrites(original, writes[..n]), original, staged, 0)
    {
      var files := ApplyWrites(original, writes[..n]);
      forall p ensures SameFile(files, original, p)
        || exists j :: 0 <= j < |staged| && staged[j].replaced && staged[j].target == p {
        if w :| w in writes[..n] && w.path == p {
          var j :| 0 <= j < n && writes[..n][j] == w;
          assert staged[j].replaced && staged[j].target == p;
        } else {
          WritesAt(original, writes[..n], p, "");
        }
      }
    }

    /** Nothing stands in the way of the commit: a valid candidate, readable targets, and no failing operation. */
    ghost predicate Unobstructed(pkg: Package, plan: TransitionPlan, faults: Faults)
      reads this
    {
      var n := |plan.writes|;
      && ClassifyManifest(pkg, plan.candidate) == CurrentSchema(plan.candidate)
      && plan.candidate.version == plan.candidate.composition.value.current.packageVersion
      && AllStageable(files, unreadable, plan.writes, faults.stage)
      && !faults.stage(n) && Stageable(files, unreadable, ManifestPath)
      && (forall i :: 0 <= i < n ==> !faults.rename(i) && !faults.hook(i))
      && !faults.rename(n)
    }

    /** All or nothing: every planned write and the manifest, or, restores succeeding, every path as it was. */
    method CommitTransition(pkg: Package, plan: TransitionPlan, faults: Faults) returns (r: Result<bool, ConfigError>)
      requires Valid()
      modifies this
      ensures Valid()
      ensures plan.status == Unchanged ==> r.Ok? && files == old(files)
      ensures plan.status != Unchanged ==> (r.Ok? <==> old(Unobstructed(pkg, plan, faults)))
      ensures plan.status != Unchanged && r.Ok? ==> Disk() == Committed(pkg, old(Disk()), plan)
      ensures r.Err? && (forall n :: !faults.restore(n)) ==> files == old(files)
    {
      if plan.status == Unchanged {
        return Ok(false);
      }
      if !ClassifyManifest(pkg, plan.candidate).CurrentSchema? {
        return Err(ManagedStateUnknown);
      }
      if plan.candidate.version != plan.candidate.composition.value.current.packageVersion {
        return Err(ManagedStateUnknown);
      }
      ghost var original := files;
      var staged, stagedAll := StageAll(plan.writes, faults.stage);
      NothingDirty(files, staged);
      if !stagedAll {
        RestoreAfterFailure(staged, None, faults.restore, original);
        return Err(IoFailure);
      }
      var manifestStaged := StageWrite(ManifestPath, pkg.encode(plan.candidate), faults.stage(|plan.writes|));
      if manifestStaged.Err? {
        RestoreAfterFailure(staged, None, faults.restore, original);
        return Err(IoFailure);
      }
      var manifest := manifestStaged.value;
      var renamed, renamedAll := RenameAll(staged, plan.writes, manifest.tmp, faults.rename, faults.hook);
      if !renamedAll || faults.rename(|plan.writes|) {
        RestoreAfterFailure(renamed, Some(manifest), faults.restore, original);
        return Err(IoFailure);
      }
      Rename(manifest.tmp, ManifestPath);
      r := Ok(true);
    }

    static lemma NothingDirty(files: map<Path, string>, staged: seq<StagedWrite>)
      ensures DirtyOnlyFrom(files, files, staged, 0)
    {
    }
  }
}
