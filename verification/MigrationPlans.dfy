/** A migration plan: which directories and places it names, and what a run has to keep
    (server/src/application/migration-service.ts). */
module MigrationPlans {
  import opened Text
  import opened Paths
  import opened FileTree
  import opened MigrationPorts
  import opened MigrationTarget
  import opened DotenvFormat
  import ComposeRewriter

  /** A converted bind mount; `sourcePath` is `None` when nothing existed to copy. */
  datatype PlannedBindCopy = PlannedBindCopy(originalPath: RawPath, newPath: RawPath, sourcePath: Option<Path>)

  datatype MigrationPlan = MigrationPlan(
    stackId: string,
    displayName: string,
    composeName: string,
    originalDir: Path,
    targetDir: Path,
    bindCopies: seq<PlannedBindCopy>,
    namedVolumes: seq<string>,
    backup: bool,
    stopOldStack: bool,
    inPlace: Option<Path>)

  /** Rewrites a compose file, given the old `.env`; `None` when it cannot. */
  type Rewriter = (string, Option<string>) -> Option<ComposeRewriter.RewriteResult>

  datatype OriginalNote = NotModified | MovedBack(to: Path) | StillAt(aside: Path, original: Path)

  datatype RestartNote = NotStarted | Restarted | NotRestarted(dir: Path)

  datatype MigrationResult =
    | Success(stackId: string, originalPath: Path, keptOriginalAt: Option<Path>)
    | Failure(note: OriginalNote, restart: RestartNote, originalPath: Path)

  /** What preflight guarantees of the directories: a separate target does not overlap the old directory;
      in place they are one, which is renamed to a sibling after the old stack has been stopped. */
  predicate ValidPlan(plan: MigrationPlan) {
    plan.targetDir != [] &&
    match plan.inPlace
    case None => Disjoint(plan.originalDir, plan.targetDir)
    case Some(aside) =>
      plan.targetDir == plan.originalDir && plan.stopOldStack &&
      aside != plan.originalDir && aside != [] && Parent(aside) == Parent(plan.originalDir)
  }

  lemma AsideIsDisjoint(plan: MigrationPlan)
    requires ValidPlan(plan) && plan.inPlace.Some?
    ensures Disjoint(plan.inPlace.value, plan.originalDir)
  {
    var aside, original := plan.inPlace.value, plan.originalDir;
    assert aside == Parent(aside) + [aside[|aside| - 1]];
    assert original == Parent(original) + [original[|original| - 1]];
  }

  /** Where the old stack's files are: at the original directory, or renamed aside. */
  function Home(plan: MigrationPlan, moved: bool): Path {
    if moved && plan.inPlace.Some? then plan.inPlace.value else plan.originalDir
  }

  function SourceDir(plan: MigrationPlan): Path {
    Home(plan, true)
  }

  /** What every run keeps: the old directory's tree is at `home`, every other entry is as it was, and whatever is
      new is the target, a missing directory above it, or the renamed original. */
  ghost predicate Keeps(before: Fs, fs: Fs, plan: MigrationPlan, home: Path) {
    && Subtree(fs, home) == Subtree(before, plan.originalDir)
    && (forall p :: p in before && !(plan.originalDir <= p) ==> p in fs && fs[p] == before[p])
    && (forall p :: p in fs && p !in before ==>
          plan.targetDir <= p || (p <= plan.targetDir && fs[p] == Dir) || (home != plan.originalDir && home <= p))
  }

  /** Nothing but the original directory itself is where the new stack goes. */
  ghost predicate TargetWasFree(before: Fs, plan: MigrationPlan) {
    forall p :: p in before && plan.targetDir <= p ==> plan.originalDir <= p
  }

  lemma KeepsOutsideTarget(before: Fs, fs: Fs, gs: Fs, plan: MigrationPlan, home: Path)
    requires Keeps(before, fs, plan, home) && TargetWasFree(before, plan)
    requires SameOutside(fs, gs, plan.targetDir) && Disjoint(home, plan.targetDir)
    ensures Keeps(before, gs, plan, home)
  {
    OutsideIsConfined(fs, gs, plan.targetDir);
    SubtreeKept(fs, gs, plan.targetDir, home);
    hide Subtree, Disjoint;
  }

  /** The directory is gone, or was never made; at most missing parents of it were added. */
  ghost predicate Restored(before: Fs, fs: Fs, plan: MigrationPlan) {
    && (forall p :: p in before ==> p in fs && fs[p] == before[p])
    && (forall p :: p in fs && p !in before ==> p < plan.targetDir && fs[p] == Dir)
  }

  datatype Flags = Flags(oldStackStopped: bool, movedAside: bool, createdStackDir: bool, recordCreated: bool)

  lemma KeepsAtStart(fs: Fs, plan: MigrationPlan)
    ensures Keeps(fs, fs, plan, plan.originalDir)
  {
  }

  lemma HomeIsDisjoint(plan: MigrationPlan)
    requires ValidPlan(plan)
    ensures Disjoint(SourceDir(plan), plan.targetDir)
  {
    if plan.inPlace.Some? {
      AsideIsDisjoint(plan);
    }
  }

  /** Making missing directories on the way to the target keeps everything. */
  lemma KeepsWithMoreDirs(before: Fs, fs: Fs, dir: Path, plan: MigrationPlan, home: Path)
    requires Keeps(before, fs, plan, home) && dir <= plan.targetDir && Disjoint(home, plan.targetDir)
    ensures Keeps(before, MakeDirs(fs, dir), plan, home)
  {
    hide Subtree, MakeDirs;
    var gs := MakeDirs(fs, dir);
    assert Subtree(gs, home) == Subtree(fs, home) by {
      MakeDirsConfined(fs, dir, plan.targetDir);
      SubtreeKept(fs, gs, plan.targetDir, home);
    }
    hide Disjoint;
    forall p | p in before && !(plan.originalDir <= p)
      ensures p in gs && gs[p] == before[p]
    {
      MakeDirsHas(fs, dir, p);
    }
    forall p | p in gs && p !in before
      ensures plan.targetDir <= p || (p <= plan.targetDir && gs[p] == Dir) || (home != plan.originalDir && home <= p)
    {
      MakeDirsHas(fs, dir, p);
      if p <= dir {
        PrefixTrans(p, dir, plan.targetDir);
      }
    }
  }

  lemma KeepsMovedAside(before: Fs, plan: MigrationPlan)
    requires ValidPlan(plan) && plan.inPlace.Some? && !Taken(before, plan.inPlace.value)
    ensures Keeps(before, Rename(before, plan.originalDir, plan.inPlace.value), plan, plan.inPlace.value)
    ensures !Taken(Rename(before, plan.originalDir, plan.inPlace.value), plan.targetDir)
  {
    hide Subtree, Rename;
    var aside := plan.inPlace.value;
    var gs := Rename(before, plan.originalDir, aside);
    AsideIsDisjoint(plan);
    RenameMoves(before, plan.originalDir, aside);
    hide Disjoint, Taken;
    forall p | p in before && !(plan.originalDir <= p)
      ensures p in gs && gs[p] == before[p]
    {
      RenameHas(before, plan.originalDir, aside, p);
      if aside <= p {
        NotTaken(before, aside, p);
      }
    }
    forall p | p in gs && p !in before
      ensures aside <= p
    {
      RenameHas(before, plan.originalDir, aside, p);
    }
  }

  lemma NotTaken(fs: Fs, at: Path, p: Path)
    requires !Taken(fs, at) && p in fs
    ensures !(at <= p)
  {
  }

  /** Moving the renamed original back restores the disk outside the target's parents. */
  lemma KeepsMovedBack(before: Fs, fs: Fs, plan: MigrationPlan)
    requires ValidPlan(plan) && plan.inPlace.Some?
    requires !Taken(before, plan.inPlace.value) && Keeps(before, fs, plan, plan.inPlace.value)
    requires !Taken(fs, plan.originalDir)
    ensures var gs := Rename(fs, plan.inPlace.value, plan.originalDir);
      Keeps(before, gs, plan, plan.originalDir) && Restored(before, gs, plan)
  {
    hide Subtree, Rename;
    var aside := plan.inPlace.value;
    var gs := Rename(fs, aside, plan.originalDir);
    assert Subtree(gs, plan.originalDir) == Subtree(fs, aside) by {
      AsideIsDisjoint(plan);
      RenameMoves(fs, aside, plan.originalDir);
    }
    hide Disjoint;
    forall p | p in before
      ensures p in gs && gs[p] == before[p]
    {
      MovedBackHas(before, fs, plan, p);
    }
    forall p | p in gs && p !in before
      ensures p < plan.targetDir && gs[p] == Dir
    {
      MovedBackHas(before, fs, plan, p);
    }
  }

  lemma MovedBackHas(before: Fs, fs: Fs, plan: MigrationPlan, p: Path)
    requires ValidPlan(plan) && plan.inPlace.Some?
    requires !Taken(before, plan.inPlace.value) && Keeps(before, fs, plan, plan.inPlace.value)
    requires !Taken(fs, plan.originalDir)
    ensures var gs := Rename(fs, plan.inPlace.value, plan.originalDir);
      && (p in before ==> p in gs && gs[p] == before[p])
      && (p in gs && p !in before ==> p < plan.targetDir && gs[p] == Dir)
  {
    var aside, original := plan.inPlace.value, plan.originalDir;
    AsideIsDisjoint(plan);
    RenameHas(fs, aside, original, p);
    hide Subtree, Rename;
    if original <= p {
      var r := Below(original, p);
      SubtreeHas(before, original, r);
      SubtreeHas(fs, aside, r);
      assert Under(original, r) == p;
    }
  }

  /** The target directory has just been made in `moved`. */
  lemma CreatedDirectory(before: Fs, moved: Fs, plan: MigrationPlan)
    requires ValidPlan(plan) && Keeps(before, moved, plan, SourceDir(plan))
    requires plan.inPlace.None? ==> moved == before
    requires !Taken(moved, plan.targetDir) && Reachable(moved, plan.targetDir)
    ensures var fs := MakeDirs(moved, plan.targetDir);
      && TargetWasFree(before, plan)
      && Established(fs, plan.targetDir) && plan.targetDir in fs
      && forall p :: p in fs && plan.targetDir <= p ==> p == plan.targetDir && fs[p] == Dir
  {
    hide MakeDirs, Subtree;
    forall p: Path {
      MakeDirsHas(moved, plan.targetDir, p);
    }
  }

  lemma OnlyParentsAdded(before: Fs, plan: MigrationPlan)
    requires ValidPlan(plan)
    ensures Restored(before, before, plan) && Restored(before, MakeDirs(before, Parent(plan.targetDir)), plan)
  {
    hide MakeDirs;
    forall p: Path {
      MakeDirsHas(before, Parent(plan.targetDir), p);
    }
  }

  // ----- Where data is copied from and to -----

  /** Rejects a path that leaves `base`. */
  function AssertWithin(base: Path, target: RawPath): Option<Path> {
    var resolved := Resolve(base, target);
    if base <= resolved then Some(resolved) else None
  }

  /** After the rename, a source inside the original directory is read from the renamed one. */
  function RelocateIntoSource(srcPath: Path, originalDir: Path, sourceDir: Path): Path {
    var relative := Relative(originalDir, srcPath);
    if relative != [] && !StartsWithDots(relative) then sourceDir + relative else srcPath
  }

  /** Every source at or below the renamed directory is followed to its new name, with exactly two exceptions:
      the directory itself, and an entry whose name begins with two dots. */
  lemma RelocationFollowsIff(srcPath: Path, originalDir: Path, sourceDir: Path)
    requires originalDir <= srcPath && Disjoint(originalDir, sourceDir)
    ensures RelocateIntoSource(srcPath, originalDir, sourceDir) == sourceDir + srcPath[|originalDir|..] <==>
      originalDir < srcPath && !(".." <= srcPath[|originalDir|])
  {
    RelativeIs(originalDir, srcPath);
    assert sourceDir <= sourceDir + srcPath[|originalDir|..];
    if sourceDir <= srcPath {
      PrefixesCompare(originalDir, sourceDir, srcPath);
    }
  }

  /** A source called `..data` inside the original directory is looked for where it no longer is. */
  lemma DottedSourceIsNotFollowed()
    ensures RelocateIntoSource(["srv", "app", "..data"], ["srv", "app"], ["srv", "app-pre-migration"]) ==
      ["srv", "app", "..data"]
  {
    assert ["srv", "app"] <= ["srv", "app", "..data"];
    assert ".." <= "..data";
    RelativeIs(["srv", "app"], ["srv", "app", "..data"]);
    assert ["srv", "app", "..data"][|["srv", "app"]|..] == ["..data"];
  }

  lemma RelocationLeavesOthers(srcPath: Path, originalDir: Path, sourceDir: Path)
    requires !(originalDir <= srcPath)
    ensures RelocateIntoSource(srcPath, originalDir, sourceDir) == srcPath
  {
    RelativeIs(originalDir, srcPath);
  }

  function Relocated(plan: MigrationPlan, srcPath: Path): Path {
    RelocateIntoSource(srcPath, plan.originalDir, SourceDir(plan))
  }

  function VolumesDir(plan: MigrationPlan): Path {
    plan.targetDir + ["volumes"]
  }

  function ComposeFile(plan: MigrationPlan): Path {
    plan.targetDir + ["docker-compose.yml"]
  }

  function EnvFile(plan: MigrationPlan): Path {
    plan.targetDir + [".env"]
  }

  function BackupDir(plan: MigrationPlan): Path {
    plan.targetDir + [BACKUP_DIR_NAME]
  }

  function VolumePlace(plan: MigrationPlan, name: string): Path {
    plan.targetDir + ["volumes", name]
  }

  function BindPlace(plan: MigrationPlan, copy: PlannedBindCopy): Path {
    Resolve(plan.targetDir, copy.newPath)
  }

  /** The places data is copied to: one per converted named volume, then one per converted bind mount. */
  function Places(plan: MigrationPlan): seq<Path> {
    seq(|plan.namedVolumes|, i requires 0 <= i < |plan.namedVolumes| => VolumePlace(plan, plan.namedVolumes[i])) +
    seq(|plan.bindCopies|, i requires 0 <= i < |plan.bindCopies| => BindPlace(plan, plan.bindCopies[i]))
  }

  /** What belongs at a bind mount's place: its source's tree as it is on `fs`, an empty directory for an absent one. */
  function SourceTree(fs: Fs, copy: PlannedBindCopy): Fs {
    if copy.sourcePath.Some? then Subtree(fs, copy.sourcePath.value) else EMPTY_DIRECTORY
  }

  /** What belongs at each of the places. */
  function Wanted(plan: MigrationPlan, volumes: map<string, Fs>, fs: Fs): seq<Fs> {
    seq(|plan.namedVolumes|, i requires 0 <= i < |plan.namedVolumes| => VolumeTree(volumes, plan.namedVolumes[i])) +
    seq(|plan.bindCopies|, i requires 0 <= i < |plan.bindCopies| => SourceTree(fs, plan.bindCopies[i]))
  }

  /** A source the run does not write to and can follow through the rename. */
  ghost predicate SourceIsApart(plan: MigrationPlan, srcPath: Path) {
    Disjoint(srcPath, plan.targetDir) ||
    (plan.inPlace.Some? && plan.originalDir < srcPath && !(".." <= srcPath[|plan.originalDir|]))
  }

  /** The checked destinations, together with sources clear of the target. */
  ghost predicate CopiesAreApart(plan: MigrationPlan) {
    && (forall i, j :: 0 <= i < j < |Places(plan)| ==> Disjoint(Places(plan)[i], Places(plan)[j]))
    && (forall i :: 0 <= i < |Places(plan)| ==> IsSafePlace(plan.targetDir, Places(plan)[i]))
    && (forall i :: 0 <= i < |plan.namedVolumes| ==> IsVolumeName(plan.namedVolumes[i]))
    && (forall c :: c in plan.bindCopies && c.sourcePath.Some? ==> SourceIsApart(plan, c.sourcePath.value))
  }

  function RequestOf(plan: MigrationPlan): CopyDestinationRequest {
    CopyDestinationRequest(plan.targetDir, plan.originalDir,
      seq(|plan.bindCopies|, i requires 0 <= i < |plan.bindCopies| =>
        BindCopyRequest(plan.bindCopies[i].originalPath, plan.bindCopies[i].newPath)),
      plan.namedVolumes)
  }

  // ----- Undoing -----

  /** Outside the moved or created directories, `fs` still has every old entry. */
  lemma KeepsEntry(before: Fs, fs: Fs, plan: MigrationPlan, p: Path)
    requires Keeps(before, fs, plan, plan.originalDir)
    ensures p in before ==> p in fs && fs[p] == before[p]
    ensures p in fs && plan.originalDir <= p ==> p in before
  {
    if plan.originalDir <= p {
      var r := Below(plan.originalDir, p);
      SubtreeHas(before, plan.originalDir, r);
      SubtreeHas(fs, plan.originalDir, r);
      assert Under(plan.originalDir, r) == p;
    }
  }

  /** Removing a separate new directory restores the disk. */
  lemma RemovalRestores(before: Fs, fs: Fs, plan: MigrationPlan)
    requires ValidPlan(plan) && plan.inPlace.None?
    requires Keeps(before, fs, plan, plan.originalDir) && TargetWasFree(before, plan)
    ensures Restored(before, Prune(fs, plan.targetDir), plan)
  {
    hide Keeps;
    forall p | p in before
      ensures p in fs && fs[p] == before[p] && !(plan.targetDir <= p)
    {
      KeepsEntry(before, fs, plan, p);
      if plan.targetDir <= p {
        PrefixesCompare(plan.targetDir, plan.originalDir, p);
      }
    }
    AddedOnlyAbove(before, fs, plan);
  }

  lemma AddedOnlyAbove(before: Fs, fs: Fs, plan: MigrationPlan)
    requires Keeps(before, fs, plan, plan.originalDir)
    ensures forall p :: p in fs && p !in before && !(plan.targetDir <= p) ==> p < plan.targetDir && fs[p] == Dir
  {
  }

  lemma StillFree(fs: Fs, dir: Path)
    requires !Taken(fs, dir) && dir != []
    ensures !Taken(MakeDirs(fs, Parent(dir)), dir)
  {
    hide MakeDirs;
    forall p | p in MakeDirs(fs, Parent(dir))
      ensures !(dir <= p)
    {
      MakeDirsHas(fs, Parent(dir), p);
    }
  }

  lemma PrunedIsFree(fs: Fs, dir: Path)
    ensures !Taken(Prune(fs, dir), dir)
  {
  }

  lemma ReachableAfterRename(fs: Fs, plan: MigrationPlan)
    requires ValidPlan(plan) && plan.inPlace.Some? && Reachable(fs, plan.targetDir)
    ensures Reachable(Rename(fs, plan.originalDir, plan.inPlace.value), plan.targetDir)
  {
    AsideIsDisjoint(plan);
    hide Rename;
    forall p | p in Rename(fs, plan.originalDir, plan.inPlace.value) && p <= plan.targetDir
      ensures Rename(fs, plan.originalDir, plan.inPlace.value)[p] == Dir
    {
      RenameHas(fs, plan.originalDir, plan.inPlace.value, p);
    }
  }
}
