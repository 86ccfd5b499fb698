/** Running a migration plan, with rollback (server/src/application/migration-service.ts). */
module MigrationService {
  import opened Text
  import opened Paths
  import opened FileTree
  import opened MigrationPorts
  import opened MigrationTarget
  import opened DotenvFormat
  import opened MigrationPlans
  import opened MigrationCopies
  import ComposeRewriter

  const ASIDE_NAME_ATTEMPTS := 100

  datatype InPlacePlan = MustStop | BadName(name: string) | NameTaken(at: Path) | NoFreeName | CannotTell | Aside(dir: Path)

  predicate IsStackDirectoryName(name: string) {
    IsVolumeName(name) && |name| <= 100
  }

  function Candidate(originalDir: Path, stackId: string, n: nat): Path
    requires n < ASIDE_NAME_ATTEMPTS
  {
    Parent(originalDir) + [AsideNameCandidates(stackId, ASIDE_NAME_ATTEMPTS)[n]]
  }

  lemma CandidatesAreSiblings(stacksDir: Path, stackId: string)
    ensures forall n :: 0 <= n < ASIDE_NAME_ATTEMPTS ==>
      var candidate := Candidate(stacksDir + [stackId], stackId, n);
      && candidate != [] && candidate != stacksDir + [stackId]
      && Parent(candidate) == stacksDir == Parent(stacksDir + [stackId])
  {
    assert Parent(stacksDir + [stackId]) == stacksDir;
    forall n | 0 <= n < ASIDE_NAME_ATTEMPTS
      ensures var candidate := Candidate(stacksDir + [stackId], stackId, n);
        candidate != [] && Parent(candidate) == stacksDir && candidate != stacksDir + [stackId]
    {
      var candidate := Candidate(stacksDir + [stackId], stackId, n);
      var name := AsideNameCandidates(stackId, ASIDE_NAME_ATTEMPTS)[n];
      assert |name| > |stackId|;
      assert candidate == stacksDir + [name];
      assert candidate[|stacksDir|] == name;
    }
  }

  class MigrationService {
    const host: Host

    constructor (host: Host)
      ensures this.host == host
    {
      this.host := host;
    }

    /** The first free `<id>-pre-migration[-N]` next to the original directory. */
    method FirstFreeAsideDir(originalDir: Path, stackId: string) returns (plan: InPlacePlan)
      requires originalDir != []
      modifies host`faults, host`rejections
      ensures plan.Aside? ==> exists n ::
        && 0 <= n < ASIDE_NAME_ATTEMPTS && plan.dir == Candidate(originalDir, stackId, n) && !Taken(host.fs, plan.dir)
        && forall m :: 0 <= m < n ==> Taken(host.fs, Candidate(originalDir, stackId, m))
      ensures plan.NoFreeName? ==>
        forall n :: 0 <= n < ASIDE_NAME_ATTEMPTS ==> Taken(host.fs, Candidate(originalDir, stackId, n))
      ensures plan.Aside? || plan.NoFreeName? || (plan.CannotTell? && host.rejections > old(host.rejections))
    {
      hide Taken;
      for n := 0 to ASIDE_NAME_ATTEMPTS
        invariant host.rejections == old(host.rejections)
        invariant forall m :: 0 <= m < n ==> Taken(host.fs, Candidate(originalDir, stackId, m))
      {
        var candidate := Candidate(originalDir, stackId, n);
        var ok, taken := host.PathIsTaken(candidate);
        if !ok {
          return CannotTell;
        }
        if !taken {
          return Aside(candidate);
        }
      }
      plan := NoFreeName;
    }

    /** An in-place plan is only made for a stack that will be stopped, with a free sibling to move it to. */
    method PlanInPlace(stacksDir: Path, stackId: string, stopOldStack: bool, requestedName: Option<string>)
      returns (plan: InPlacePlan)
      modifies host`faults, host`rejections
      ensures plan.Aside? ==>
        var originalDir := stacksDir + [stackId];
        && stopOldStack && !Taken(host.fs, plan.dir)
        && plan.dir != originalDir && plan.dir != [] && Parent(plan.dir) == Parent(originalDir)
        && (requestedName.Some? ==> plan.dir == stacksDir + [requestedName.value])
      ensures !stopOldStack <==> plan.MustStop?
      ensures stopOldStack && requestedName.Some? ==>
        (plan.BadName? <==> !IsVolumeName(requestedName.value) || |requestedName.value| > 100 ||
                            requestedName.value == stackId)
    {
      hide Taken;
      if !stopOldStack {
        return MustStop;
      }
      var originalDir := stacksDir + [stackId];
      if requestedName.None? {
        plan := FirstFreeAsideDir(originalDir, stackId);
        CandidatesAreSiblings(stacksDir, stackId);
        return;
      }
      if !IsStackDirectoryName(requestedName.value) || requestedName.value == stackId {
        return BadName(requestedName.value);
      }
      var asideDir := Parent(originalDir) + [requestedName.value];
      assert Parent(originalDir) == stacksDir == Parent(asideDir);
      assert asideDir[|stacksDir|] != originalDir[|stacksDir|];
      var ok, taken := host.PathIsTaken(asideDir);
      plan := if !ok then CannotTell else if taken then NameTaken(asideDir) else Aside(asideDir);
    }

    /** Steps 1 and 2: stop the old stack, move it aside when in place, create the new directory. */
    method Prepare(plan: MigrationPlan) returns (ok: bool, flags: Flags)
      requires ValidPlan(plan)
      modifies host`fs, host`oldStackRuns, host`faults, host`rejections
      ensures flags.oldStackStopped == plan.stopOldStack && !flags.recordCreated && flags.createdStackDir == ok
      ensures flags.movedAside ==> plan.inPlace.Some? && !Taken(old(host.fs), plan.inPlace.value)
      ensures Keeps(old(host.fs), host.fs, plan, Home(plan, flags.movedAside))
      ensures host.rejections == old(host.rejections) + if ok then 0 else 1
      ensures !ok && !flags.movedAside ==> Restored(old(host.fs), host.fs, plan)
      ensures ok ==> flags.movedAside == plan.inPlace.Some? && TargetWasFree(old(host.fs), plan)
      ensures ok ==> TargetIsEmpty(plan, host.fs)
      ensures !ok && flags.movedAside ==> !Taken(host.fs, plan.originalDir)
      ensures plan.stopOldStack && (ok || host.fs != old(host.fs)) ==> !host.oldStackRuns
      ensures plan.stopOldStack && old(host.faults) != [] && old(host.faults)[0].Rejects? ==>
        !ok && !flags.movedAside && host.fs == old(host.fs)
      ensures !plan.stopOldStack ==> host.oldStackRuns == old(host.oldStackRuns)
      ensures old(host.faults) == [] && DirectoriesReady(plan, old(host.fs)) ==> ok && host.faults == []
    {
      hide Rename, Subtree, MakeDirs, Keeps, Reachable;
      flags := Flags(false, false, false, false);
      ghost var before := host.fs;
      KeepsAtStart(before, plan);
      ghost var quiet := host.faults == [] && DirectoriesReady(plan, before);
      if plan.stopOldStack {
        flags := flags.(oldStackStopped := true);
        var stopped := host.StopOldStack();
        if !stopped {
          return false, flags;
        }
      }
      if plan.inPlace.Some? {
        var moved := host.MoveDirectory(plan.originalDir, plan.inPlace.value);
        if !moved {
          return false, flags;
        }
        flags := flags.(movedAside := true);
        KeepsMovedAside(before, plan);
        if quiet {
          ReachableAfterRename(before, plan);
        }
      }
      ghost var moved := host.fs;
      ok := host.CreateDirectoryExclusive(plan.targetDir);
      HomeIsDisjoint(plan);
      KeepsWithMoreDirs(before, moved, Parent(plan.targetDir), plan, SourceDir(plan));
      KeepsWithMoreDirs(before, moved, plan.targetDir, plan, SourceDir(plan));
      OnlyParentsAdded(before, plan);
      if flags.movedAside {
        StillFree(moved, plan.targetDir);
      }
      if ok {
        CreatedDirectory(before, moved, plan);
      }
      flags := flags.(createdStackDir := ok);
    }

    /** Step 4. */
    method CopyNamedVolumes(plan: MigrationPlan, ghost wanted: seq<Fs>) returns (ok: bool)
      requires ValidPlan(plan) && Established(host.fs, plan.targetDir)
      requires |wanted| == |Places(plan)|
      requires forall i :: 0 <= i < |plan.namedVolumes| ==> wanted[i] == VolumeTree(host.volumes, plan.namedVolumes[i])
      modifies host`fs, host`faults, host`rejections
      ensures SameOutside(old(host.fs), host.fs, plan.targetDir) && Established(host.fs, plan.targetDir)
      ensures host.rejections == old(host.rejections) + if ok then 0 else 1
      ensures ok && CopiesAreApart(plan) && Copied(plan, wanted, 0, old(host.fs)) ==>
        && Copied(plan, wanted, |plan.namedVolumes|, host.fs)
        && Subtree(host.fs, BackupDir(plan)) == Subtree(old(host.fs), BackupDir(plan))
      ensures old(host.faults) == [] && CopiesAreApart(plan) && Copied(plan, wanted, 0, old(host.fs)) ==>
        ok && host.faults == []
    {
      hide CopiesAreApart, Copied, Subtree, CopyTo, Places, VolumeTree, SameOutside, Confined, Established, Vacant;
      ghost var exact := CopiesAreApart(plan) && Copied(plan, wanted, 0, host.fs);
      ghost var quiet := exact && host.faults == [];
      SameOutsideItself(host.fs, plan.targetDir);
      PlacesLength(plan);
      for i := 0 to |plan.namedVolumes|
        invariant SameOutside(old(host.fs), host.fs, plan.targetDir) && Established(host.fs, plan.targetDir)
        invariant host.rejections == old(host.rejections)
        invariant exact ==> Copied(plan, wanted, i, host.fs)
        invariant exact ==> Subtree(host.fs, BackupDir(plan)) == Subtree(old(host.fs), BackupDir(plan))
        invariant quiet ==> host.faults == []
      {
        var name := plan.namedVolumes[i];
        var destination := AssertWithin(VolumesDir(plan), RawPath(false, [name]));
        if exact {
          VolumeDestination(plan, i);
          PlaceIsPending(plan, wanted, i, host.fs);
        }
        if destination.None? {
          host.Throw();
          return false;
        }
        ghost var was := host.fs;
        ok := host.CopyVolumeToBindMount(name, destination.value);
        WithinTarget(plan, destination.value);
        ConfinedInside(was, host.fs, destination.value, plan.targetDir);
        SameOutsideTrans(old(host.fs), was, host.fs, plan.targetDir);
        if !ok {
          return;
        }
        if exact {
          VolumeHasRoot(host.volumes, name);
          CopiedIsExact(was, destination.value, VolumeTree(host.volumes, name));
          CopiedNext(plan, wanted, i, was, host.fs);
        }
      }
      ok := true;
    }

    /** Step 5. */
    method CopyBindMounts(plan: MigrationPlan, ghost wanted: seq<Fs>) returns (ok: bool)
      requires ValidPlan(plan) && Established(host.fs, plan.targetDir)
      requires |wanted| == |Places(plan)| && SourcesHold(plan, wanted, host.fs)
      modifies host`fs, host`faults, host`rejections
      ensures SameOutside(old(host.fs), host.fs, plan.targetDir) && Established(host.fs, plan.targetDir)
      ensures host.rejections == old(host.rejections) + if ok then 0 else 1
      ensures ok && CopiesAreApart(plan) && Copied(plan, wanted, |plan.namedVolumes|, old(host.fs)) ==>
        && Copied(plan, wanted, |Places(plan)|, host.fs)
        && Subtree(host.fs, BackupDir(plan)) == Subtree(old(host.fs), BackupDir(plan))
      ensures
        (&& old(host.faults) == []
         && CopiesAreApart(plan)
         && SourcesReady(plan, old(host.fs))
         && Copied(plan, wanted, |plan.namedVolumes|, old(host.fs)))
        ==> ok && host.faults == []
    {
      hide CopiesAreApart, Copied, Subtree, CopyTo, Places, SameOutside, Confined, Established, Vacant, Relocated, Copyable,
        SourcesReady, MakeDirs, Resolve;
      ghost var nv := |plan.namedVolumes|;
      ghost var exact := CopiesAreApart(plan) && Copied(plan, wanted, nv, host.fs);
      ghost var quiet := exact && SourcesReady(plan, host.fs) && host.faults == [];
      SameOutsideItself(host.fs, plan.targetDir);
      PlacesLength(plan);
      for i := 0 to |plan.bindCopies|
        invariant SameOutside(old(host.fs), host.fs, plan.targetDir) && Established(host.fs, plan.targetDir)
        invariant host.rejections == old(host.rejections)
        invariant exact ==> Copied(plan, wanted, nv + i, host.fs)
        invariant exact ==> Subtree(host.fs, BackupDir(plan)) == Subtree(old(host.fs), BackupDir(plan))
        invariant quiet ==> host.faults == []
      {
        var copy := plan.bindCopies[i];
        var destination := AssertWithin(plan.targetDir, copy.newPath);
        if exact {
          BindDestinationIs(plan, i);
          PlaceIsPending(plan, wanted, nv + i, host.fs);
        }
        if destination.None? {
          host.Throw();
          return false;
        }
        ghost var was := host.fs;
        if copy.sourcePath.None? {
          ok := host.MakeDirectory(destination.value);
        } else {
          var sourcePath := Relocated(plan, copy.sourcePath.value);
          var found;
          ok, found := host.SourceExists(sourcePath);
          if exact {
            SourceUnchanged(plan, i, old(host.fs), was);
            if quiet {
              SourceIsCopyable(plan, i, old(host.fs), was);
            }
          }
          if !ok {
            return;
          }
          if !found {
            host.Throw();
            return false;
          }
          ok := host.CopyDirectory(sourcePath, destination.value);
        }
        ConfinedInside(was, host.fs, destination.value, plan.targetDir);
        SameOutsideTrans(old(host.fs), was, host.fs, plan.targetDir);
        if !ok {
          return;
        }
        if exact {
          if copy.sourcePath.None? {
            MadeDirectoryIsEmpty(was, destination.value);
          } else {
            SourceCopied(was, Relocated(plan, copy.sourcePath.value), destination.value);
          }
          CopiedNext(plan, wanted, nv + i, was, host.fs);
        }
      }
      ok := true;
    }

    /** Steps 3 to 5: the backup, the `volumes` directory and all copies. */
    method FillDirectory(plan: MigrationPlan, ghost before: Fs) returns (ok: bool)
      requires ValidPlan(plan) && TargetIsEmpty(plan, host.fs)
      requires Keeps(before, host.fs, plan, SourceDir(plan))
      requires plan.inPlace.Some? ==> !Taken(before, plan.inPlace.value)
      modifies host`fs, host`faults, host`rejections
      ensures SameOutside(old(host.fs), host.fs, plan.targetDir) && Established(host.fs, plan.targetDir)
      ensures host.rejections == old(host.rejections) + if ok then 0 else 1
      ensures ok && CopiesAreApart(plan) && SourcesExist(plan, before) ==>
        && Copied(plan, Wanted(plan, host.volumes, before), |Places(plan)|, host.fs)
        && (plan.backup && plan.inPlace.None? ==> Subtree(host.fs, BackupDir(plan)) == Subtree(before, plan.originalDir))
      ensures
        (&& old(host.faults) == []
         && CopiesAreApart(plan)
         && SourcesExist(plan, before)
         && (plan.backup && plan.inPlace.None? ==> plan.originalDir in before))
        ==> ok && host.faults == []
    {
      hide CopiesAreApart, Copied, Subtree, CopyTo, Places, SameOutside, Confined, Vacant, Relocated, Copyable,
        SourcesReady, MakeDirs, SourcesExist, Disjoint, Keeps, Taken, Pending, Wanted, WantedFrom, SourcesHold, Reachable;
      ghost var exact := CopiesAreApart(plan) && SourcesExist(plan, before);
      ghost var quiet := exact && host.faults == [] && (plan.backup && plan.inPlace.None? ==> plan.originalDir in before);
      ghost var prepared := host.fs;
      FilesAreApart(plan);
      SameOutsideItself(prepared, plan.targetDir);
      SameOutsideItself(prepared, BackupDir(plan));
      OutsideIsConfined(prepared, prepared, BackupDir(plan));
      if plan.backup && plan.inPlace.None? {
        EmptyTargetIsPending(plan, prepared, BackupDir(plan));
        ok := host.CopyDirectory(plan.originalDir, BackupDir(plan));
        BackedUp(before, prepared, plan);
        ConfinedInside(prepared, host.fs, BackupDir(plan), plan.targetDir);
        if !ok {
          return;
        }
      }
      ghost var backedUp := host.fs;
      StillPending(plan, prepared, backedUp, VolumesDir(plan));
      PendingIsReachable(plan, backedUp, VolumesDir(plan));
      ok := host.MakeDirectory(VolumesDir(plan));
      ConfinedInside(backedUp, host.fs, VolumesDir(plan), plan.targetDir);
      SameOutsideTrans(prepared, backedUp, host.fs, plan.targetDir);
      SubtreeKept(backedUp, host.fs, VolumesDir(plan), BackupDir(plan));
      if !ok {
        return;
      }
      ghost var made := host.fs;
      ghost var wanted := Wanted(plan, host.volumes, before);
      WantedFromHolds(plan, host.volumes, before);
      WantedVolumes(plan, host.volumes, before);
      if exact {
        NothingCopiedYet(plan, wanted, prepared, backedUp);
      }
      ok := CopyNamedVolumes(plan, wanted);
      SameOutsideTrans(prepared, made, host.fs, plan.targetDir);
      if !ok {
        return;
      }
      ghost var volumesCopied := host.fs;
      ghost var wantedFrom := WantedFrom(plan, host.volumes, volumesCopied);
      WantedFromHolds(plan, host.volumes, volumesCopied);
      if exact {
        SourcesAreOld(before, prepared, volumesCopied, plan, host.volumes);
      }
      ok := CopyBindMounts(plan, wantedFrom);
      SameOutsideTrans(prepared, volumesCopied, host.fs, plan.targetDir);
    }

    /** `None` when there is no `.env`; any other problem rejects. */
    method ReadOldEnv(dir: Path) returns (ok: bool, env: Option<string>)
      modifies host`faults, host`rejections
      ensures ok ==> env == TextOf(host.fs, dir + [".env"])
      ensures ok && env.None? ==> dir + [".env"] !in host.fs
      ensures host.rejections == old(host.rejections) + if ok then 0 else 1
      ensures old(host.faults) == [] && !(dir + [".env"] in host.fs && host.fs[dir + [".env"]] == Dir) ==>
        ok && host.faults == []
    {
      var result := host.ReadFile(dir + [".env"]);
      ok := !result.Unreadable?;
      env := if result.Content? then Some(result.text) else None;
    }

    method WriteNewEnv(plan: MigrationPlan, existingEnv: Option<string>, extractedEnv: string) returns (ok: bool)
      requires existingEnv == TextOf(host.fs, SourceDir(plan) + [".env"])
      modifies host`fs, host`faults, host`rejections
      ensures ok && MergedEnv(existingEnv, extractedEnv).None? ==> host.fs == old(host.fs)
      ensures ok && MergedEnv(existingEnv, extractedEnv).Some? ==>
        host.fs == old(host.fs)[EnvFile(plan) := File(MergedEnv(existingEnv, extractedEnv).value)]
      ensures SameOutside(old(host.fs), host.fs, EnvFile(plan))
      ensures host.rejections == old(host.rejections) + if ok then 0 else 1
      ensures old(host.faults) == [] && Writable(old(host.fs), EnvFile(plan)) ==> ok && host.faults == []
    {
      hide Writable;
      if extractedEnv != "" {
        var merged :=
          if existingEnv.Some? && existingEnv.value != "" then
            AppendedBlock(existingEnv.value, EXTRACTED_HEADER, extractedEnv)
          else extractedEnv;
        ok := host.WriteFile(EnvFile(plan), merged);
      } else if existingEnv.Some? {
        ok := host.CopyFile(SourceDir(plan) + [".env"], EnvFile(plan));
      } else {
        ok := true;
      }
    }

    /** Steps 6 to 8: rewrite, write, record and deploy. */
    method Publish(plan: MigrationPlan, rewrite: Rewriter) returns (ok: bool, recordCreated: bool)
      requires ValidPlan(plan) && Established(host.fs, plan.targetDir)
      modifies host`fs, host`records, host`lostAnswers, host`deployed, host`faults, host`rejections
      ensures SameOutside(old(host.fs), host.fs, plan.targetDir)
      ensures host.rejections == old(host.rejections) + if ok then 0 else 1
      ensures host.records - {plan.stackId} == old(host.records) - {plan.stackId}
      ensures plan.stackId in old(host.records) ==> !recordCreated && host.records == old(host.records)
      ensures old(host.deployed) <= host.deployed <= old(host.deployed) + {plan.stackId}
      ensures !recordCreated ==> host.deployed == old(host.deployed)
      ensures recordCreated ==> host.lostAnswers == old(host.lostAnswers)
      ensures !recordCreated ==>
        || (host.records == old(host.records) && host.lostAnswers == old(host.lostAnswers))
        || (plan.stackId in host.records.Keys - old(host.records).Keys && host.lostAnswers == old(host.lostAnswers) + 1)
      ensures ok ==> ContentFrom(plan, rewrite, old(host.fs), SourceDir(plan)).Some?
      ensures ok ==>
        host.fs == WithFiles(old(host.fs), plan, ContentFrom(plan, rewrite, old(host.fs), SourceDir(plan)).value)
      ensures ok ==> recordCreated && plan.stackId in host.deployed && plan.stackId !in old(host.records)
      ensures ok ==> host.records == old(host.records)[plan.stackId :=
        RecordOf(plan, ContentFrom(plan, rewrite, old(host.fs), SourceDir(plan)).value.compose)]
      ensures
        (&& old(host.faults) == []
         && ContentFrom(plan, rewrite, old(host.fs), SourceDir(plan)).Some?
         && !(SourceDir(plan) + [".env"] in old(host.fs) && old(host.fs)[SourceDir(plan) + [".env"]] == Dir)
         && Writable(old(host.fs), ComposeFile(plan)) && Writable(old(host.fs), EnvFile(plan))
         && plan.stackId !in old(host.records))
        ==> ok && host.faults == []
    {
      hide MergedEnv, SameOutside, Writable, Established, Disjoint, ComposeFile, EnvFile, ValidPlan;
      recordCreated := false;
      FilesInTarget(plan);
      SameOutsideItself(host.fs, plan.targetDir);
      var text := host.ReadFile(SourceDir(plan) + [plan.composeName]);
      if !text.Content? {
        if text.Missing? {
          host.Throw();
        }
        return false, false;
      }
      var existingEnv;
      ok, existingEnv := ReadOldEnv(SourceDir(plan));
      if !ok {
        return;
      }
      var result := rewrite(text.text, existingEnv);
      if result.None? {
        host.Throw();
        return false, false;
      }
      ok := host.WriteFile(ComposeFile(plan), result.value.rewrittenCompose);
      InsideTarget(plan, old(host.fs), host.fs, ComposeFile(plan));
      if !ok {
        return;
      }
      ghost var withCompose := host.fs;
      ComposeWritten(plan, old(host.fs), result.value.rewrittenCompose);
      ok := WriteNewEnv(plan, existingEnv, result.value.extractedEnv);
      InsideTarget(plan, withCompose, host.fs, EnvFile(plan));
      SameOutsideTrans(old(host.fs), withCompose, host.fs, plan.targetDir);
      if !ok {
        return;
      }
      ok := host.CreateRecord(plan.stackId, RecordOf(plan, result.value.rewrittenCompose));
      if !ok {
        return;
      }
      recordCreated := true;
      ok := host.Up(plan.stackId);
    }

    /** Renames the original back, but only into a free path. */
    method MoveOriginalBack(plan: MigrationPlan, ghost before: Fs) returns (note: OriginalNote)
      requires ValidPlan(plan) && plan.inPlace.Some? && !Taken(before, plan.inPlace.value)
      requires Keeps(before, host.fs, plan, plan.inPlace.value)
      modifies host`fs, host`faults, host`rejections
      ensures note == MovedBack(plan.originalDir) || note == StillAt(plan.inPlace.value, plan.originalDir)
      ensures Keeps(before, host.fs, plan, NotedHome(plan, note))
      ensures note.MovedBack? ==> Restored(before, host.fs, plan)
      ensures host.rejections >= old(host.rejections)
      ensures host.rejections == old(host.rejections) && !Taken(old(host.fs), plan.originalDir) ==> note.MovedBack?
    {
      hide Keeps, Rename, Taken;
      var aside := plan.inPlace.value;
      var ok, taken := host.PathIsTaken(plan.originalDir);
      if ok && !taken {
        ok := host.MoveDirectory(aside, plan.originalDir);
        if ok {
          KeepsMovedBack(before, old(host.fs), plan);
          return MovedBack(plan.originalDir);
        }
      }
      note := StillAt(aside, plan.originalDir);
    }

    /** Undoes exactly what `flags` says this run did. */
    method Rollback(plan: MigrationPlan, flags: Flags, ghost before: Fs) returns (note: OriginalNote, restart: RestartNote)
      requires ValidPlan(plan) && Keeps(before, host.fs, plan, Home(plan, flags.movedAside))
      requires flags.movedAside ==> plan.inPlace.Some? && !Taken(before, plan.inPlace.value)
      requires flags.createdStackDir ==> flags.movedAside == plan.inPlace.Some? && TargetWasFree(before, plan)
      requires !flags.createdStackDir && flags.movedAside ==> !Taken(host.fs, plan.originalDir)
      requires !flags.createdStackDir && !flags.movedAside ==> Restored(before, host.fs, plan)
      modifies host`fs, host`records, host`oldStackRuns, host`starts, host`faults, host`rejections
      ensures NoteIsPossible(plan, note) && Keeps(before, host.fs, plan, NotedHome(plan, note))
      ensures host.starts == old(host.starts) + if flags.oldStackStopped && !note.StillAt? then 1 else 0
      ensures restart.NotStarted? <==> !(flags.oldStackStopped && !note.StillAt?)
      ensures restart.Restarted? ==> host.oldStackRuns
      ensures restart.NotStarted? ==> host.oldStackRuns == old(host.oldStackRuns)
      ensures restart.NotRestarted? ==> restart.dir == plan.originalDir
      ensures note.NotModified? <==> !flags.movedAside
      ensures !flags.createdStackDir && !flags.movedAside ==> host.fs == old(host.fs)
      ensures host.records == old(host.records) ||
        (flags.recordCreated && host.records == old(host.records) - {plan.stackId})
      ensures host.rejections >= old(host.rejections)
      ensures host.rejections == old(host.rejections) ==>
        && Restored(before, host.fs, plan) && !note.StillAt? && !restart.NotRestarted?
        && (flags.recordCreated ==> host.records == old(host.records) - {plan.stackId})
    {
      hide Keeps, Taken, Prune, SameOutside, TargetWasFree, Restored, ValidPlan;
      if flags.createdStackDir {
        ghost var filled := host.fs;
        var removed := host.RemoveDirectory(plan.targetDir);
        HomeIsDisjoint(plan);
        KeepsOutsideTarget(before, filled, host.fs, plan, SourceDir(plan));
        PrunedIsFree(filled, plan.targetDir);
        if removed && plan.inPlace.None? {
          RemovalRestores(before, filled, plan);
        }
      }
      if flags.recordCreated {
        var deleted := host.DeleteRecord(plan.stackId);
      }
      note := NotModified;
      InPlaceTarget(plan);
      if flags.movedAside {
        note := MoveOriginalBack(plan, before);
      }
      restart := NotStarted;
      if flags.oldStackStopped && !note.StillAt? {
        var started := host.StartOldStack();
        restart := if started then Restarted else NotRestarted(plan.originalDir);
      }
    }

    /** A record whose creation rejected but took effect outlives every rollback: this run has not noted it. */
    method LostAnswerLeavesARecord(plan: MigrationPlan, flags: Flags, record: Record, ghost before: Fs)
      requires ValidPlan(plan) && flags.createdStackDir && !flags.recordCreated
      requires Keeps(before, host.fs, plan, SourceDir(plan)) && TargetWasFree(before, plan)
      requires flags.movedAside == plan.inPlace.Some?
      requires flags.movedAside ==> !Taken(before, plan.inPlace.value)
      requires plan.stackId !in host.records
      requires host.faults != [] && host.faults[0].Rejects? && host.faults[0].tookEffect
      modifies host`fs, host`records, host`lostAnswers, host`oldStackRuns, host`starts, host`faults, host`rejections
      ensures host.records == old(host.records)[plan.stackId := record]
    {
      hide Keeps, Taken, TargetWasFree, ValidPlan;
      var created := host.CreateRecord(plan.stackId, record);
      var note, restart := Rollback(plan, flags, before);
    }

    /** Steps 1 to 8. Afterwards `flags` says what has been done, whether or not a call rejected. */
    method Attempt(plan: MigrationPlan, rewrite: Rewriter) returns (ok: bool, flags: Flags)
      requires ValidPlan(plan)
      modifies host`fs, host`records, host`lostAnswers, host`oldStackRuns, host`deployed, host`faults, host`rejections
      ensures host.rejections == old(host.rejections) + if ok then 0 else 1
      ensures Keeps(old(host.fs), host.fs, plan, Home(plan, flags.movedAside))
      ensures flags.oldStackStopped == plan.stopOldStack
      ensures flags.movedAside ==> plan.inPlace.Some? && !Taken(old(host.fs), plan.inPlace.value)
      ensures flags.createdStackDir ==> flags.movedAside == plan.inPlace.Some? && TargetWasFree(old(host.fs), plan)
      ensures !flags.createdStackDir && flags.movedAside ==> !Taken(host.fs, plan.originalDir)
      ensures !flags.createdStackDir && !flags.movedAside ==> Restored(old(host.fs), host.fs, plan)
      ensures plan.stopOldStack && (ok || host.fs != old(host.fs)) ==> !host.oldStackRuns
      ensures plan.stopOldStack && old(host.faults) != [] && old(host.faults)[0].Rejects? ==>
        !ok && !flags.createdStackDir && !flags.movedAside && host.fs == old(host.fs)
      ensures !plan.stopOldStack ==> host.oldStackRuns == old(host.oldStackRuns)
      ensures host.records - {plan.stackId} == old(host.records) - {plan.stackId}
      ensures plan.stackId in old(host.records) ==> !flags.recordCreated && host.records == old(host.records)
      ensures flags.recordCreated ==> host.lostAnswers == old(host.lostAnswers)
      ensures !flags.recordCreated ==>
        || (host.records == old(host.records) && host.lostAnswers == old(host.lostAnswers))
        || (plan.stackId in host.records.Keys - old(host.records).Keys && host.lostAnswers == old(host.lostAnswers) + 1)
      ensures old(host.deployed) <= host.deployed <= old(host.deployed) + {plan.stackId}
      ensures !flags.recordCreated ==> host.deployed == old(host.deployed)
      ensures ok ==> flags == Flags(plan.stopOldStack, plan.inPlace.Some?, true, true)
      ensures ok ==> plan.stackId in host.deployed && plan.stackId !in old(host.records)
      ensures ok ==>
        var content := ContentFrom(plan, rewrite, old(host.fs), plan.originalDir);
        && content.Some? && HasFiles(plan, host.fs, content.value)
        && host.records == old(host.records)[plan.stackId := RecordOf(plan, content.value.compose)]
      ensures ok && CopiesAreApart(plan) && SourcesExist(plan, old(host.fs)) ==>
        Delivered(plan, host.volumes, old(host.fs), host.fs)
      ensures ok && CopiesAreApart(plan) && SourcesExist(plan, old(host.fs)) ==>
        (ContentFrom(plan, rewrite, old(host.fs), plan.originalDir).value.env.None? ==> EnvFile(plan) !in host.fs)
      ensures old(host.faults) == [] && Ready(plan, rewrite, old(host.fs), old(host.records)) ==> ok
    {
      hide Keeps, Taken, SameOutside, TargetWasFree, Restored, ValidPlan, CopiesAreApart, SourcesExist, Copied,
        TargetIsEmpty, Subtree, Places, ContentFrom, Established, WithFiles, DirectoriesReady, Wanted, RecordOf,
        Writable, HasFiles;
      ghost var before := host.fs;
      ghost var quiet := host.faults == [] && Ready(plan, rewrite, host.fs, host.records);
      ok, flags := Prepare(plan);
      if !ok {
        return;
      }
      ghost var prepared := host.fs;
      ok := FillDirectory(plan, before);
      HomeIsDisjoint(plan);
      KeepsOutsideTarget(before, prepared, host.fs, plan, SourceDir(plan));
      if !ok {
        return;
      }
      ghost var filled := host.fs;
      ContentFollows(plan, rewrite, before, filled);
      if quiet {
        FilledIsWritable(plan, host.volumes, before, filled);
      }
      var recordCreated;
      ok, recordCreated := Publish(plan, rewrite);
      KeepsOutsideTarget(before, filled, host.fs, plan, SourceDir(plan));
      flags := flags.(recordCreated := recordCreated);
      if ok {
        HasNewFiles(plan, filled, ContentFrom(plan, rewrite, before, plan.originalDir).value);
        if CopiesAreApart(plan) && SourcesExist(plan, before) {
          DeliveredWithFiles(plan, rewrite, host.volumes, before, filled);
        }
      }
    }

    /** Runs a preflighted plan. Whatever rejects, the old directory's tree ends where the result says it is,
        and nothing this run did not create is removed or changed. */
    method Execute(plan: MigrationPlan, rewrite: Rewriter) returns (result: MigrationResult)
      requires ValidPlan(plan)
      modifies host`fs, host`records, host`lostAnswers, host`oldStackRuns, host`starts, host`deployed, host`faults,
        host`rejections
      ensures result.originalPath == plan.originalDir
      ensures result.Success? <==> host.rejections == old(host.rejections)
      ensures result.Success? ==>
        && result.stackId == plan.stackId && result.keptOriginalAt == plan.inPlace
        && Keeps(old(host.fs), host.fs, plan, SourceDir(plan)) && host.starts == old(host.starts)
        && plan.stackId in host.deployed && plan.stackId !in old(host.records)
      ensures result.Success? ==> host.oldStackRuns == (!plan.stopOldStack && old(host.oldStackRuns))
      ensures !plan.stopOldStack ==> host.oldStackRuns == old(host.oldStackRuns)
      ensures plan.stopOldStack && old(host.faults) != [] && old(host.faults)[0].Rejects? ==>
        result.Failure? && result.note.NotModified? && host.fs == old(host.fs)
      ensures old(host.deployed) <= host.deployed <= old(host.deployed) + {plan.stackId}
      ensures result.Success? ==>
        var content := ContentFrom(plan, rewrite, old(host.fs), plan.originalDir);
        && content.Some? && HasFiles(plan, host.fs, content.value)
        && host.records == old(host.records)[plan.stackId := RecordOf(plan, content.value.compose)]
      ensures result.Success? && CopiesAreApart(plan) && SourcesExist(plan, old(host.fs)) ==>
        Delivered(plan, host.volumes, old(host.fs), host.fs)
      ensures result.Success? && CopiesAreApart(plan) && SourcesExist(plan, old(host.fs)) ==>
        (ContentFrom(plan, rewrite, old(host.fs), plan.originalDir).value.env.None? ==> EnvFile(plan) !in host.fs)
      ensures result.Failure? ==>
        NoteIsPossible(plan, result.note) && Keeps(old(host.fs), host.fs, plan, NotedHome(plan, result.note))
      ensures result.Failure? ==>
        && host.starts == old(host.starts) + (if plan.stopOldStack && !result.note.StillAt? then 1 else 0)
        && (result.restart.NotStarted? <==> host.starts == old(host.starts))
        && (result.restart.Restarted? ==> host.oldStackRuns)
      ensures result.Failure? ==>
        && host.records - {plan.stackId} == old(host.records) - {plan.stackId}
        && (plan.stackId in old(host.records) ==> host.records == old(host.records))
      ensures result.Failure? && host.rejections == old(host.rejections) + 1 ==>
        Restored(old(host.fs), host.fs, plan) && !result.note.StillAt? && !result.restart.NotRestarted?
      ensures result.Failure? && host.rejections == old(host.rejections) + 1 ==>
        (host.records == old(host.records) <==> host.lostAnswers == old(host.lostAnswers))
      ensures old(host.faults) == [] && Ready(plan, rewrite, old(host.fs), old(host.records)) ==> result.Success?
    {
      hide Keeps, Taken, SameOutside, TargetWasFree, Restored, ValidPlan, CopiesAreApart, SourcesExist, Copied,
        TargetIsEmpty, Subtree, Places, ContentFrom, Established, WithFiles, DirectoriesReady, Wanted, RecordOf,
        Writable, HasFiles;
      ghost var before := host.fs;
      var ok, flags := Attempt(plan, rewrite);
      if ok {
        return Success(plan.stackId, plan.originalDir, plan.inPlace);
      }
      assert plan.stackId !in old(host.records) ==> old(host.records) - {plan.stackId} == old(host.records);
      var note, restart := Rollback(plan, flags, before);
      result := Failure(note, restart, plan.originalDir);
    }
  }
}
