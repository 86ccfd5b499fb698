/** Why the checked destinations make the copies of a migration exact, in whatever order they run. */
module MigrationCopies {
  import opened Text
  import opened Paths
  import opened FileTree
  import opened MigrationPorts
  import opened MigrationTarget
  import opened DotenvFormat
  import opened MigrationPlans

  lemma {:induction false} EveryDestination(outcomes: seq<Outcome>)
    requires forall o :: o in outcomes ==> o.Accepted? && o.destination.Some?
    ensures |Destinations(outcomes)| == |outcomes|
    ensures forall i :: 0 <= i < |outcomes| ==> Destinations(outcomes)[i] == outcomes[i].destination.value
  {
    if outcomes != [] {
      EveryDestination(outcomes[..|outcomes| - 1]);
    }
  }

  /** Nothing in the plan converts a mount of the stack directory itself. */
  ghost predicate NoStackDirectoryMount(plan: MigrationPlan) {
    forall c :: c in plan.bindCopies ==> BindPlace(plan, c) != plan.targetDir
  }

  lemma OutcomeAt(plan: MigrationPlan, i: nat)
    requires Violations(RequestOf(plan)) == [] && NoStackDirectoryMount(plan) && i < |Places(plan)|
    ensures var request := RequestOf(plan);
      var outcomes := BindOutcomes(request) + VolumeOutcomes(request);
      var nv := |plan.namedVolumes|;
      var k := if i < nv then |plan.bindCopies| + i else i - nv;
      && |outcomes| == |Places(plan)|
      && outcomes[k].Accepted? && outcomes[k].destination.Some?
      && outcomes[k].destination.value.resolved == Places(plan)[i]
  {
    hide Violations, BindDestination, BindIsAcceptable, IsVolumeName, IsSafePlace;
    var request := RequestOf(plan);
    NoViolationsIff(request);
    var nv := |plan.namedVolumes|;
    if i >= nv {
      assert plan.bindCopies[i - nv] in plan.bindCopies;
      BindAcceptedIff(request.bindCopies[i - nv], request.targetDir, request.composeDir);
    }
  }

  /** An empty list of violations puts every copy at a safe place of its own. */
  lemma CheckedPlacesAreApart(plan: MigrationPlan)
    requires Violations(RequestOf(plan)) == [] && NoStackDirectoryMount(plan)
    ensures forall i, j :: 0 <= i < j < |Places(plan)| ==> Disjoint(Places(plan)[i], Places(plan)[j])
    ensures forall i :: 0 <= i < |Places(plan)| ==> IsSafePlace(plan.targetDir, Places(plan)[i])
    ensures forall i :: 0 <= i < |plan.namedVolumes| ==> IsVolumeName(plan.namedVolumes[i])
  {
    hide Violations, Places, IsSafePlace, Disjoint, BindOutcomes, VolumeOutcomes, BindIsAcceptable, IsVolumeName;
    var request := RequestOf(plan);
    NoViolationsIff(request);
    var outcomes := BindOutcomes(request) + VolumeOutcomes(request);
    PlacesLength(plan);
    forall k | 0 <= k < |Places(plan)|
      ensures |outcomes| == |Places(plan)| && outcomes[k].Accepted? && outcomes[k].destination.Some?
    {
      var nb := |plan.bindCopies|;
      OutcomeAt(plan, if k < nb then k + |plan.namedVolumes| else k - nb);
    }
    PlacesOutcomes(plan);
    EveryDestination(outcomes);
    forall i | 0 <= i < |Places(plan)|
      ensures IsSafePlace(plan.targetDir, Places(plan)[i])
    {
      OutcomeAt(plan, i);
      var k := if i < |plan.namedVolumes| then |plan.bindCopies| + i else i - |plan.namedVolumes|;
      DestinationsAreSafe(request, Destinations(outcomes)[k]);
    }
    forall i, j | 0 <= i < j < |Places(plan)|
      ensures Disjoint(Places(plan)[i], Places(plan)[j])
    {
      OutcomeAt(plan, i);
      OutcomeAt(plan, j);
      PairIsDisjoint(plan, i, j);
    }
  }

  /** Checked destinations whose sources lie apart from the target are all that an exact run needs. */
  lemma CheckedPlanIsApart(plan: MigrationPlan)
    requires Violations(RequestOf(plan)) == [] && NoStackDirectoryMount(plan)
    requires forall c :: c in plan.bindCopies && c.sourcePath.Some? ==> SourceIsApart(plan, c.sourcePath.value)
    ensures CopiesAreApart(plan)
  {
    hide Violations, Places, IsSafePlace, Disjoint, IsVolumeName, SourceIsApart;
    CheckedPlacesAreApart(plan);
  }

  lemma PlacesLength(plan: MigrationPlan)
    ensures |Places(plan)| == |plan.namedVolumes| + |plan.bindCopies|
  {
  }

  lemma PlacesOutcomes(plan: MigrationPlan)
    ensures |BindOutcomes(RequestOf(plan)) + VolumeOutcomes(RequestOf(plan))| == |Places(plan)|
  {
  }

  lemma PairIsDisjoint(plan: MigrationPlan, i: nat, j: nat)
    requires i < j < |Places(plan)| && PairwiseDisjoint(RequestedDestinations(RequestOf(plan)))
    requires var request := RequestOf(plan);
      var outcomes := BindOutcomes(request) + VolumeOutcomes(request);
      var nv := |plan.namedVolumes|;
      var k := if i < nv then |plan.bindCopies| + i else i - nv;
      var l := if j < nv then |plan.bindCopies| + j else j - nv;
      var destinations := RequestedDestinations(request);
      && |destinations| == |Places(plan)| == nv + |plan.bindCopies|
      && destinations[k].resolved == Places(plan)[i] && destinations[l].resolved == Places(plan)[j]
    ensures Disjoint(Places(plan)[i], Places(plan)[j])
  {
    hide Places, BindOutcomes, VolumeOutcomes, RequestedDestinations;
    var nv := |plan.namedVolumes|;
    var k := if i < nv then |plan.bindCopies| + i else i - nv;
    var l := if j < nv then |plan.bindCopies| + j else j - nv;
    assert k != l;
  }

  // ----- Filling the places one by one -----

  /** The first `n` places hold what they should; the others, the compose file and `.env` are still free. */
  ghost predicate Copied(plan: MigrationPlan, wanted: seq<Fs>, n: nat, fs: Fs) {
    && (forall i :: 0 <= i < n && i < |Places(plan)| && i < |wanted| ==> Subtree(fs, Places(plan)[i]) == wanted[i])
    && (forall i :: n <= i < |Places(plan)| ==> Pending(plan, fs, Places(plan)[i]))
    && ComposeFile(plan) !in fs && EnvFile(plan) !in fs
    && plan.targetDir in fs && fs[plan.targetDir] == Dir
  }

  /** Nothing is there, except that `volumes` may exist as an empty directory. */
  ghost predicate Pending(plan: MigrationPlan, fs: Fs, place: Path) {
    Vacant(fs, place) && (place in fs ==> place == VolumesDir(plan))
  }

  lemma PendingKept(plan: MigrationPlan, fs: Fs, gs: Fs, at: Path, place: Path)
    requires Pending(plan, fs, place) && Confined(fs, gs, at) && Disjoint(at, place)
    ensures Pending(plan, gs, place)
  {
    VacantKept(fs, gs, at, place);
  }

  lemma SafePlaceIsClear(plan: MigrationPlan, place: Path, name: string)
    requires IsSafePlace(plan.targetDir, place) && IsReservedRootName(name)
    ensures Disjoint(place, plan.targetDir + [name])
  {
    var reserved := plan.targetDir + [name];
    assert reserved[|plan.targetDir|] == name != place[|plan.targetDir|];
  }

  lemma ReservedNames()
    ensures IsReservedRootName("docker-compose.yml") && IsReservedRootName(".env") && IsReservedRootName(BACKUP_DIR_NAME)
  {
    assert ToLower("docker-compose.yml") == "docker-compose.yml";
    assert ToLower(".env") == ".env";
    assert ToLower(BACKUP_DIR_NAME) == BACKUP_DIR_NAME;
  }

  /** A copy into a safe place leaves the target, the backup, and the places of the two files alone. */
  lemma RootEntriesKept(plan: MigrationPlan, place: Path, fs: Fs, gs: Fs)
    requires IsSafePlace(plan.targetDir, place) && Confined(fs, gs, place)
    requires ComposeFile(plan) !in fs && EnvFile(plan) !in fs && plan.targetDir in fs && fs[plan.targetDir] == Dir
    ensures ComposeFile(plan) !in gs && EnvFile(plan) !in gs && plan.targetDir in gs && gs[plan.targetDir] == Dir
    ensures Subtree(gs, BackupDir(plan)) == Subtree(fs, BackupDir(plan))
  {
    hide Subtree, IsReservedRootName;
    ReservedNames();
    SafePlaceIsClear(plan, place, BACKUP_DIR_NAME);
    SubtreeKept(fs, gs, place, BackupDir(plan));
    SafePlaceIsClear(plan, place, "docker-compose.yml");
    SafePlaceIsClear(plan, place, ".env");
    assert !(place <= plan.targetDir);
  }

  /** Copying to the next place touches none of the others: neither what is there already nor what is still to come. */
  lemma CopiedNext(plan: MigrationPlan, wanted: seq<Fs>, n: nat, fs: Fs, gs: Fs)
    requires CopiesAreApart(plan) && n < |Places(plan)| == |wanted|
    requires Copied(plan, wanted, n, fs) && Confined(fs, gs, Places(plan)[n])
    requires Subtree(gs, Places(plan)[n]) == wanted[n]
    ensures Copied(plan, wanted, n + 1, gs)
    ensures Subtree(gs, BackupDir(plan)) == Subtree(fs, BackupDir(plan))
  {
    hide Subtree, Places, IsSafePlace, Vacant, Confined, BackupDir, ComposeFile, EnvFile, Pending, IsVolumeName,
      SourceIsApart;
    var place := Places(plan)[n];
    RootEntriesKept(plan, place, fs, gs);
    forall i | 0 <= i < n + 1
      ensures Subtree(gs, Places(plan)[i]) == wanted[i]
    {
      if i < n {
        SubtreeKept(fs, gs, place, Places(plan)[i]);
      }
    }
    forall i | n + 1 <= i < |Places(plan)|
      ensures Pending(plan, gs, Places(plan)[i])
    {
      PendingKept(plan, fs, gs, place, Places(plan)[i]);
    }
  }

  /** Into a vacant place, `copyDirectory` can go ahead. */
  lemma VacantIsCopyable(fs: Fs, from: Path, to: Path)
    requires Vacant(fs, to) && from in fs && Disjoint(from, to) && (to in fs ==> fs[from] == Dir)
    ensures Copyable(fs, from, to)
  {
    forall p | p in fs && p <= Parent(to)
      ensures fs[p] == Dir
    {
      PrefixTrans(p, Parent(to), to);
    }
    forall r | r in Subtree(fs, from) && Under(to, r) in fs
      ensures fs[Under(to, r)].Dir? == Subtree(fs, from)[r].Dir?
    {
      VacantRoot(to, r);
      SubtreeHas(fs, from, r);
      assert Under(from, []) == from;
    }
  }

  lemma VolumeDestination(plan: MigrationPlan, i: nat)
    requires CopiesAreApart(plan) && i < |plan.namedVolumes|
    ensures AssertWithin(VolumesDir(plan), RawPath(false, [plan.namedVolumes[i]])) == Some(Places(plan)[i])
    ensures VolumesDir(plan) <= Places(plan)[i]
  {
    var name := plan.namedVolumes[i];
    VolumeNameIsSegment(name, plan.targetDir);
    hide IsVolumeName, IsSafePlace;
    assert Places(plan)[i] == VolumePlace(plan, name) == VolumesDir(plan) + [name];
    assert Walk(VolumesDir(plan), [name]) == Walk(VolumesDir(plan) + [name], []);
  }

  lemma BindDestinationIs(plan: MigrationPlan, i: nat)
    requires CopiesAreApart(plan) && i < |plan.bindCopies|
    ensures AssertWithin(plan.targetDir, plan.bindCopies[i].newPath) == Some(Places(plan)[|plan.namedVolumes| + i])
    ensures plan.targetDir <= Places(plan)[|plan.namedVolumes| + i]
  {
    hide Resolve, IsReservedRootName;
    assert IsSafePlace(plan.targetDir, Places(plan)[|plan.namedVolumes| + i]);
  }

  lemma WithinTarget(plan: MigrationPlan, place: Path)
    ensures VolumesDir(plan) <= place ==> plan.targetDir <= place
  {
  }

  lemma PlaceIsPending(plan: MigrationPlan, wanted: seq<Fs>, n: nat, fs: Fs)
    requires Copied(plan, wanted, n, fs) && n < |Places(plan)|
    ensures Pending(plan, fs, Places(plan)[n]) && Vacant(fs, Places(plan)[n])
  {
  }

  lemma VolumeHasRoot(volumes: map<string, Fs>, name: string)
    ensures [] in VolumeTree(volumes, name)
  {
  }

  // ----- Reading the sources -----

  lemma RelocatedIsApart(plan: MigrationPlan, s: Path)
    requires ValidPlan(plan) && SourceIsApart(plan, s)
    ensures Disjoint(Relocated(plan, s), plan.targetDir)
    ensures plan.inPlace.None? || !(plan.originalDir <= s) ==> Relocated(plan, s) == s
    ensures plan.inPlace.Some? && plan.originalDir <= s ==>
      Relocated(plan, s) == Under(plan.inPlace.value, Below(plan.originalDir, s))
  {
    RelativeIs(plan.originalDir, s);
    hide Relative;
    if plan.inPlace.Some? {
      AsideIsDisjoint(plan);
      if plan.originalDir <= s {
        DisjointBelow(plan.inPlace.value, plan.targetDir, Relocated(plan, s), plan.targetDir);
      }
    }
  }

  lemma SubtreeOfSubtree(fs: Fs, a: Path, gs: Fs, b: Path, r: Path)
    requires Subtree(fs, a) == Subtree(gs, b)
    ensures Subtree(fs, Under(a, r)) == Subtree(gs, Under(b, r))
  {
    hide Subtree;
    forall q: Path
      ensures Under(Under(a, r), q) in fs <==> Under(Under(b, r), q) in gs
      ensures Under(Under(a, r), q) in fs ==> fs[Under(Under(a, r), q)] == gs[Under(Under(b, r), q)]
    {
      SubtreeHas(fs, a, r + q);
      SubtreeHas(gs, b, r + q);
      assert Under(Under(a, r), q) == Under(a, r + q) && Under(Under(b, r), q) == Under(b, r + q);
    }
    SubtreesEqual(fs, Under(a, r), gs, Under(b, r));
  }

  /** Once the old directory is where it is read from, every source has its old content. */
  lemma SourceAfterPrepare(before: Fs, fs: Fs, plan: MigrationPlan, s: Path)
    requires ValidPlan(plan) && SourceIsApart(plan, s) && s in before
    requires Keeps(before, fs, plan, SourceDir(plan))
    requires plan.inPlace.Some? ==> !Taken(before, plan.inPlace.value)
    ensures Subtree(fs, Relocated(plan, s)) == Subtree(before, s)
    ensures Relocated(plan, s) in fs && fs[Relocated(plan, s)] == before[s]
  {
    hide Relocated, Keeps, Subtree, Disjoint, Taken;
    RelocatedIsApart(plan, s);
    if plan.inPlace.Some? && plan.originalDir <= s {
      MovedTree(before, fs, plan);
      SubtreeOfSubtree(fs, plan.inPlace.value, before, plan.originalDir, Below(plan.originalDir, s));
      assert Under(plan.originalDir, Below(plan.originalDir, s)) == s;
    } else {
      OutsideTree(before, fs, plan, s);
    }
    SubtreeRoot(fs, Relocated(plan, s), before, s);
  }

  lemma MovedTree(before: Fs, fs: Fs, plan: MigrationPlan)
    requires Keeps(before, fs, plan, SourceDir(plan))
    ensures Subtree(fs, SourceDir(plan)) == Subtree(before, plan.originalDir)
  {
  }

  lemma SubtreeRoot(fs: Fs, a: Path, gs: Fs, b: Path)
    requires Subtree(fs, a) == Subtree(gs, b) && b in gs
    ensures a in fs && fs[a] == gs[b]
  {
    hide Subtree;
    SubtreeHas(fs, a, []);
    SubtreeHas(gs, b, []);
    assert Under(a, []) == a && Under(b, []) == b;
  }

  lemma OutsideTree(before: Fs, fs: Fs, plan: MigrationPlan, s: Path)
    requires ValidPlan(plan) && SourceIsApart(plan, s) && s in before
    requires plan.inPlace.None? || !(plan.originalDir <= s)
    requires Keeps(before, fs, plan, SourceDir(plan))
    requires plan.inPlace.Some? ==> !Taken(before, plan.inPlace.value)
    ensures Subtree(fs, s) == Subtree(before, s)
  {
    assert Disjoint(s, plan.targetDir);
    hide Keeps, Subtree, Disjoint, Taken;
    forall r: Path
      ensures Under(s, r) in fs <==> Under(s, r) in before
      ensures Under(s, r) in fs ==> fs[Under(s, r)] == before[Under(s, r)]
    {
      OutsideEntry(before, fs, plan, s, Under(s, r));
    }
    SubtreesEqual(fs, s, before, s);
  }

  lemma OutsideEntry(before: Fs, fs: Fs, plan: MigrationPlan, s: Path, p: Path)
    requires ValidPlan(plan) && Disjoint(s, plan.targetDir) && s in before && s <= p
    requires Keeps(before, fs, plan, SourceDir(plan))
    requires plan.inPlace.Some? ==> !Taken(before, plan.inPlace.value)
    ensures p in fs <==> p in before
    ensures p in fs ==> fs[p] == before[p]
  {
    DisjointBelow(s, plan.targetDir, p, plan.targetDir) by {
      assert s <= p;
    }
    if plan.inPlace.Some? {
      NotBelowAside(before, plan, s, p);
    } else if plan.originalDir <= p {
      var r := Below(plan.originalDir, p);
      SubtreeHas(fs, plan.originalDir, r);
      SubtreeHas(before, plan.originalDir, r);
      assert Under(plan.originalDir, r) == p;
    }
  }

  lemma NotBelowAside(before: Fs, plan: MigrationPlan, s: Path, p: Path)
    requires ValidPlan(plan) && plan.inPlace.Some? && !Taken(before, plan.inPlace.value)
    requires s in before && s <= p && Disjoint(s, plan.targetDir)
    ensures !(plan.inPlace.value <= p) && !(plan.originalDir <= p)
  {
    var aside := plan.inPlace.value;
    if plan.originalDir <= p {
      PrefixesCompare(s, plan.originalDir, p);
    }
    if aside <= p {
      PrefixesCompare(s, aside, p);
      NotTaken(before, aside, s);
      if s <= Parent(aside) {
        PrefixTrans(s, Parent(plan.originalDir), plan.originalDir);
      }
    }
  }

  /** Every planned source is there to be read, and only a directory goes to the existing `volumes` directory. */
  ghost predicate SourcesReady(plan: MigrationPlan, fs: Fs) {
    forall i :: 0 <= i < |plan.bindCopies| && plan.bindCopies[i].sourcePath.Some? ==>
      SourceIsReady(plan, fs, plan.bindCopies[i])
  }

  ghost predicate SourceIsReady(plan: MigrationPlan, fs: Fs, copy: PlannedBindCopy)
    requires copy.sourcePath.Some?
  {
    Relocated(plan, copy.sourcePath.value) in fs &&
    (BindPlace(plan, copy) == VolumesDir(plan) ==> fs[Relocated(plan, copy.sourcePath.value)] == Dir)
  }

  /** On `fs`, the (relocated) sources have the content the places are to get. */
  ghost predicate SourcesHold(plan: MigrationPlan, wanted: seq<Fs>, fs: Fs) {
    forall i :: 0 <= i < |plan.bindCopies| && |plan.namedVolumes| + i < |wanted| ==>
      wanted[|plan.namedVolumes| + i] ==
        if plan.bindCopies[i].sourcePath.Some? then Subtree(fs, Relocated(plan, plan.bindCopies[i].sourcePath.value))
        else EMPTY_DIRECTORY
  }

  /** What the run writes into the target does not change a source. */
  lemma SourceUnchanged(plan: MigrationPlan, i: nat, fs: Fs, gs: Fs)
    requires ValidPlan(plan) && CopiesAreApart(plan) && i < |plan.bindCopies| && plan.bindCopies[i].sourcePath.Some?
    requires SameOutside(fs, gs, plan.targetDir)
    ensures var s := Relocated(plan, plan.bindCopies[i].sourcePath.value);
      && Disjoint(s, plan.targetDir)
      && Subtree(gs, s) == Subtree(fs, s)
      && (s in fs <==> s in gs) && (s in fs ==> fs[s] == gs[s])
  {
    assert plan.bindCopies[i] in plan.bindCopies;
    var s := Relocated(plan, plan.bindCopies[i].sourcePath.value);
    RelocatedIsApart(plan, plan.bindCopies[i].sourcePath.value);
    hide Relocated, Subtree, CopiesAreApart;
    OutsideIsConfined(fs, gs, plan.targetDir);
    SubtreeKept(fs, gs, plan.targetDir, s);
  }

  lemma SourceIsCopyable(plan: MigrationPlan, i: nat, fs: Fs, gs: Fs)
    requires ValidPlan(plan) && CopiesAreApart(plan) && i < |plan.bindCopies| && plan.bindCopies[i].sourcePath.Some?
    requires SameOutside(fs, gs, plan.targetDir) && SourcesReady(plan, fs)
    requires var place := Places(plan)[|plan.namedVolumes| + i];
      plan.targetDir <= place && Pending(plan, gs, place)
    ensures Relocated(plan, plan.bindCopies[i].sourcePath.value) in gs
    ensures Copyable(gs, Relocated(plan, plan.bindCopies[i].sourcePath.value), Places(plan)[|plan.namedVolumes| + i])
  {
    var s := Relocated(plan, plan.bindCopies[i].sourcePath.value);
    var place := Places(plan)[|plan.namedVolumes| + i];
    assert place == BindPlace(plan, plan.bindCopies[i]);
    SourceUnchanged(plan, i, fs, gs);
    assert SourceIsReady(plan, fs, plan.bindCopies[i]);
    hide Relocated, Subtree, CopiesAreApart, Copyable, Places;
    DisjointBelow(s, plan.targetDir, s, place);
    VacantIsCopyable(gs, s, place);
  }

  /** A copied source is at its place exactly. */
  lemma SourceCopied(fs: Fs, from: Path, place: Path)
    requires from in fs && Vacant(fs, place)
    ensures Subtree(CopyTo(fs, place, Subtree(fs, from)), place) == Subtree(fs, from)
  {
    hide Subtree, CopyTo, Vacant;
    SubtreeHas(fs, from, []);
    assert Under(from, []) == from;
    CopiedIsExact(fs, place, Subtree(fs, from));
  }

  // ----- The target just after it was made -----

  /** The target is an empty directory. */
  ghost predicate TargetIsEmpty(plan: MigrationPlan, fs: Fs) {
    && Established(fs, plan.targetDir) && plan.targetDir in fs
    && forall p :: p in fs && plan.targetDir <= p ==> p == plan.targetDir && fs[p] == Dir
  }

  lemma EmptyTargetIsPending(plan: MigrationPlan, fs: Fs, place: Path)
    requires TargetIsEmpty(plan, fs) && plan.targetDir < place
    ensures Pending(plan, fs, place) && place !in fs
  {
    forall p | p in fs && p <= place
      ensures fs[p] == Dir
    {
      PrefixesCompare(p, plan.targetDir, place);
      assert p < plan.targetDir || plan.targetDir <= p;
    }
    forall p | p in fs && place <= p
      ensures false
    {
      PrefixTrans(plan.targetDir, place, p);
    }
  }

  /** The backup and the `volumes` directory leave every other place free. */
  lemma StillPending(plan: MigrationPlan, fs: Fs, gs: Fs, place: Path)
    requires TargetIsEmpty(plan, fs) && plan.targetDir < place
    requires Confined(fs, gs, BackupDir(plan)) && Disjoint(BackupDir(plan), place)
    ensures Pending(plan, gs, place)
    ensures Pending(plan, MakeDirs(gs, VolumesDir(plan)), place)
  {
    EmptyTargetIsPending(plan, fs, place);
    PendingKept(plan, fs, gs, BackupDir(plan), place);
    VacantAfterMakeDirs(gs, VolumesDir(plan), place);
    MakeDirsHas(gs, VolumesDir(plan), place);
  }

  lemma NothingCopiedYet(plan: MigrationPlan, wanted: seq<Fs>, fs: Fs, gs: Fs)
    requires CopiesAreApart(plan) && TargetIsEmpty(plan, fs) && Confined(fs, gs, BackupDir(plan))
    ensures Copied(plan, wanted, 0, MakeDirs(gs, VolumesDir(plan)))
  {
    hide MakeDirs, Confined, TargetIsEmpty, IsReservedRootName, Disjoint, Places;
    ReservedNames();
    FilesAreApart(plan);
    StillPending(plan, fs, gs, ComposeFile(plan));
    StillPending(plan, fs, gs, EnvFile(plan));
    TargetStays(plan, fs, gs);
    hide Pending;
    forall i | 0 <= i < |Places(plan)|
      ensures Pending(plan, MakeDirs(gs, VolumesDir(plan)), Places(plan)[i])
    {
      SafePlaceIsClear(plan, Places(plan)[i], BACKUP_DIR_NAME);
      DisjointSymmetric(Places(plan)[i], BackupDir(plan));
      StillPending(plan, fs, gs, Places(plan)[i]);
    }
  }

  lemma TargetStays(plan: MigrationPlan, fs: Fs, gs: Fs)
    requires TargetIsEmpty(plan, fs) && Confined(fs, gs, BackupDir(plan))
    ensures var made := MakeDirs(gs, VolumesDir(plan));
      plan.targetDir in made && made[plan.targetDir] == Dir
  {
    MakeDirsHas(gs, VolumesDir(plan), plan.targetDir);
  }

  lemma DisjointSymmetric(a: Path, b: Path)
    requires Disjoint(a, b)
    ensures Disjoint(b, a)
  {
  }

  lemma FilesAreApart(plan: MigrationPlan)
    ensures Disjoint(BackupDir(plan), ComposeFile(plan)) && Disjoint(BackupDir(plan), EnvFile(plan))
    ensures Disjoint(BackupDir(plan), VolumesDir(plan)) && Disjoint(VolumesDir(plan), BackupDir(plan))
    ensures plan.targetDir < ComposeFile(plan) && plan.targetDir < EnvFile(plan) && plan.targetDir < BackupDir(plan)
    ensures plan.targetDir < VolumesDir(plan)
    ensures ComposeFile(plan) != VolumesDir(plan) && EnvFile(plan) != VolumesDir(plan) && EnvFile(plan) != ComposeFile(plan)
  {
    var n := |plan.targetDir|;
    assert BackupDir(plan)[n] == BACKUP_DIR_NAME && VolumesDir(plan)[n] == "volumes";
    assert ComposeFile(plan)[n] == "docker-compose.yml" && EnvFile(plan)[n] == ".env";
    assert |BACKUP_DIR_NAME| == 20 && |"volumes"| == 7 && |"docker-compose.yml"| == 18 && |".env"| == 4;
  }

  /** The planned sources exist when the run starts; only a directory is planned onto `volumes` itself. */
  ghost predicate SourcesExist(plan: MigrationPlan, before: Fs) {
    forall c :: c in plan.bindCopies && c.sourcePath.Some? ==>
      c.sourcePath.value in before && (BindPlace(plan, c) == VolumesDir(plan) ==> before[c.sourcePath.value] == Dir)
  }

  /** What the bind mounts' places get when their sources are read on `fs`. */
  function WantedFrom(plan: MigrationPlan, volumes: map<string, Fs>, fs: Fs): seq<Fs> {
    seq(|plan.namedVolumes|, i requires 0 <= i < |plan.namedVolumes| => VolumeTree(volumes, plan.namedVolumes[i])) +
    seq(|plan.bindCopies|, i requires 0 <= i < |plan.bindCopies| =>
      var source := plan.bindCopies[i].sourcePath;
      if source.Some? then Subtree(fs, Relocated(plan, source.value)) else EMPTY_DIRECTORY)
  }

  lemma WantedFromHolds(plan: MigrationPlan, volumes: map<string, Fs>, fs: Fs)
    ensures SourcesHold(plan, WantedFrom(plan, volumes, fs), fs)
    ensures |WantedFrom(plan, volumes, fs)| == |Wanted(plan, volumes, fs)| == |Places(plan)|
  {
    hide Subtree, Relocated;
  }

  /** The rename and the writes so far do not change what is copied. */
  lemma SourcesAreOld(before: Fs, prepared: Fs, fs: Fs, plan: MigrationPlan, volumes: map<string, Fs>)
    requires ValidPlan(plan) && CopiesAreApart(plan) && SourcesExist(plan, before)
    requires Keeps(before, prepared, plan, SourceDir(plan))
    requires plan.inPlace.Some? ==> !Taken(before, plan.inPlace.value)
    requires SameOutside(prepared, fs, plan.targetDir)
    ensures WantedFrom(plan, volumes, fs) == Wanted(plan, volumes, before)
    ensures SourcesReady(plan, fs)
  {
    hide Subtree, Relocated, Keeps, Taken, VolumeTree;
    forall i | 0 <= i < |plan.bindCopies| && plan.bindCopies[i].sourcePath.Some?
      ensures Subtree(fs, Relocated(plan, plan.bindCopies[i].sourcePath.value)) ==
        Subtree(before, plan.bindCopies[i].sourcePath.value)
      ensures SourceIsReady(plan, fs, plan.bindCopies[i])
    {
      assert plan.bindCopies[i] in plan.bindCopies;
      var s := plan.bindCopies[i].sourcePath.value;
      SourceAfterPrepare(before, prepared, plan, s);
      SourceUnchanged(plan, i, prepared, fs);
    }
    var a, b := WantedFrom(plan, volumes, fs), Wanted(plan, volumes, before);
    forall i | 0 <= i < |a|
      ensures a[i] == b[i]
    {
      if i >= |plan.namedVolumes| {
        var copy := plan.bindCopies[i - |plan.namedVolumes|];
        assert b[i] == SourceTree(before, copy);
      }
    }
  }

  lemma WantedVolumes(plan: MigrationPlan, volumes: map<string, Fs>, fs: Fs)
    ensures |Wanted(plan, volumes, fs)| == |Places(plan)|
    ensures forall i :: 0 <= i < |plan.namedVolumes| ==>
      Wanted(plan, volumes, fs)[i] == VolumeTree(volumes, plan.namedVolumes[i])
  {
  }

  lemma PendingIsReachable(plan: MigrationPlan, fs: Fs, place: Path)
    requires Pending(plan, fs, place)
    ensures Reachable(fs, place)
  {
  }

  /** The backup of a separate stack: it can be made, and it is the old tree. */
  lemma BackedUp(before: Fs, prepared: Fs, plan: MigrationPlan)
    requires ValidPlan(plan) && plan.inPlace.None? && TargetIsEmpty(plan, prepared)
    requires Keeps(before, prepared, plan, plan.originalDir)
    ensures plan.originalDir in before ==> Copyable(prepared, plan.originalDir, BackupDir(plan))
    ensures plan.originalDir in prepared ==>
      Subtree(CopyTo(prepared, BackupDir(plan), Subtree(prepared, plan.originalDir)), BackupDir(plan)) ==
        Subtree(before, plan.originalDir)
  {
    hide Subtree, CopyTo, Copyable;
    FilesAreApart(plan);
    EmptyTargetIsPending(plan, prepared, BackupDir(plan));
    if plan.originalDir in before {
      SubtreeRoot(prepared, plan.originalDir, before, plan.originalDir);
      DisjointBelow(plan.originalDir, plan.targetDir, plan.originalDir, BackupDir(plan));
      VacantIsCopyable(prepared, plan.originalDir, BackupDir(plan));
    }
    if plan.originalDir in prepared {
      SubtreeHas(prepared, plan.originalDir, []);
      assert Under(plan.originalDir, []) == plan.originalDir;
      CopiedIsExact(prepared, BackupDir(plan), Subtree(prepared, plan.originalDir));
    }
  }

  // ----- The new stack's files -----

  function TextOf(fs: Fs, file: Path): Option<string> {
    if file in fs && fs[file].File? then Some(fs[file].content) else None
  }

  datatype NewFiles = NewFiles(compose: string, env: Option<string>)

  /** The new compose file and `.env`; without a new `.env` there is none. */
  function NewContent(rewrite: Rewriter, compose: Option<string>, env: Option<string>): Option<NewFiles> {
    if compose.None? || rewrite(compose.value, env).None? then None
    else
      var result := rewrite(compose.value, env).value;
      Some(NewFiles(result.rewrittenCompose, MergedEnv(env, result.extractedEnv)))
  }

  function WithFiles(fs: Fs, plan: MigrationPlan, files: NewFiles): Fs {
    var withCompose := fs[ComposeFile(plan) := File(files.compose)];
    if files.env.Some? then withCompose[EnvFile(plan) := File(files.env.value)] else withCompose
  }

  /** What the new stack's files are made from: the old ones, wherever the old directory is. */
  function ContentFrom(plan: MigrationPlan, rewrite: Rewriter, fs: Fs, dir: Path): Option<NewFiles> {
    NewContent(rewrite, TextOf(fs, dir + [plan.composeName]), TextOf(fs, dir + [".env"]))
  }

  lemma EntryFollows(fs: Fs, a: Path, gs: Fs, b: Path, name: string)
    requires Subtree(fs, a) == Subtree(gs, b)
    ensures a + [name] in fs <==> b + [name] in gs
    ensures a + [name] in fs ==> fs[a + [name]] == gs[b + [name]]
  {
    hide Subtree;
    SubtreeHas(fs, a, [name]);
    SubtreeHas(gs, b, [name]);
    assert Under(a, [name]) == a + [name] && Under(b, [name]) == b + [name];
  }

  /** Writing the two files changes no copied tree. */
  lemma WithFilesKeeps(fs: Fs, plan: MigrationPlan, files: NewFiles, place: Path)
    requires Disjoint(place, ComposeFile(plan)) && Disjoint(place, EnvFile(plan))
    ensures Subtree(WithFiles(fs, plan, files), place) == Subtree(fs, place)
  {
    var gs := WithFiles(fs, plan, files);
    assert forall r :: Under(place, r) != ComposeFile(plan) && Under(place, r) != EnvFile(plan);
    SubtreesEqual(gs, place, fs, place);
  }

  /** Writing the new compose file does not disturb the old `.env`, nor the place of the new one. */
  lemma ComposeWritten(plan: MigrationPlan, fs: Fs, text: string)
    requires ValidPlan(plan)
    ensures var gs := fs[ComposeFile(plan) := File(text)];
      && TextOf(gs, SourceDir(plan) + [".env"]) == TextOf(fs, SourceDir(plan) + [".env"])
      && (Writable(fs, EnvFile(plan)) ==> Writable(gs, EnvFile(plan)))
  {
    FilesAreApart(plan);
    HomeIsDisjoint(plan);
    assert Parent(SourceDir(plan) + [".env"]) == SourceDir(plan) && Parent(ComposeFile(plan)) == plan.targetDir;
    assert Parent(EnvFile(plan)) == plan.targetDir;
  }

  lemma FilesInTarget(plan: MigrationPlan)
    ensures plan.targetDir <= ComposeFile(plan) && plan.targetDir <= EnvFile(plan)
  {
  }

  lemma InsideTarget(plan: MigrationPlan, fs: Fs, gs: Fs, file: Path)
    requires SameOutside(fs, gs, file) && plan.targetDir <= file
    ensures SameOutside(fs, gs, plan.targetDir)
  {
    forall p | !(plan.targetDir <= p)
      ensures (p in fs <==> p in gs) && (p in fs ==> fs[p] == gs[p])
    {
      if file <= p {
        PrefixTrans(plan.targetDir, file, p);
      }
    }
  }

  /** What the stack's description says about its origin. */
  function RecordOf(plan: MigrationPlan, compose: string): Record {
    Record(plan.displayName, if plan.inPlace.Some? then KeptAt(plan.inPlace.value) else MigratedFrom(plan.originalDir),
           plan.targetDir, compose)
  }

  /** The record shows the new directory under the chosen name, and an origin "kept at" exactly for a run in place. */
  lemma RecordNamesTheStack(plan: MigrationPlan, compose: string)
    ensures var record := RecordOf(plan, compose);
      && record.hostPath == plan.targetDir && record.displayName == plan.displayName && record.compose == compose
      && (record.origin.KeptAt? <==> plan.inPlace.Some?)
      && record.origin.dir == SourceDir(plan)
  {
  }

  /** The directories are as preflight found them. */
  ghost predicate DirectoriesReady(plan: MigrationPlan, fs: Fs) {
    && Reachable(fs, plan.targetDir)
    && match plan.inPlace
       case None => !Taken(fs, plan.targetDir)
       case Some(aside) => plan.originalDir in fs && !Taken(fs, aside) && Parent(aside) in fs && fs[Parent(aside)] == Dir
  }

  /** Everything preflight checked still holds when the run starts. */
  ghost predicate Ready(plan: MigrationPlan, rewrite: Rewriter, fs: Fs, records: map<string, Record>) {
    && DirectoriesReady(plan, fs) && CopiesAreApart(plan) && SourcesExist(plan, fs)
    && (plan.backup && plan.inPlace.None? ==> plan.originalDir in fs)
    && ContentFrom(plan, rewrite, fs, plan.originalDir).Some?
    && !(plan.originalDir + [".env"] in fs && fs[plan.originalDir + [".env"]] == Dir)
    && plan.stackId !in records
  }

  /** The copies and the backup of a successful run. */
  ghost predicate Delivered(plan: MigrationPlan, volumes: map<string, Fs>, before: Fs, fs: Fs) {
    && (forall i :: 0 <= i < |Places(plan)| && i < |Wanted(plan, volumes, before)| ==>
          Subtree(fs, Places(plan)[i]) == Wanted(plan, volumes, before)[i])
    && (plan.backup && plan.inPlace.None? ==> Subtree(fs, BackupDir(plan)) == Subtree(before, plan.originalDir))
  }

  lemma DeliveredIs(plan: MigrationPlan, volumes: map<string, Fs>, before: Fs, fs: Fs)
    ensures Delivered(plan, volumes, before, fs) <==>
      && (forall name :: name in plan.namedVolumes ==> Subtree(fs, VolumePlace(plan, name)) == VolumeTree(volumes, name))
      && (forall c :: c in plan.bindCopies ==> Subtree(fs, BindPlace(plan, c)) == SourceTree(before, c))
      && (plan.backup && plan.inPlace.None? ==> Subtree(fs, BackupDir(plan)) == Subtree(before, plan.originalDir))
  {
    hide Subtree, VolumeTree, SourceTree, VolumePlace, BindPlace;
    var places, wanted, nv := Places(plan), Wanted(plan, volumes, before), |plan.namedVolumes|;
    forall i | 0 <= i < |places|
      ensures places[i] ==
        if i < nv then VolumePlace(plan, plan.namedVolumes[i]) else BindPlace(plan, plan.bindCopies[i - nv])
      ensures wanted[i] ==
        if i < nv then VolumeTree(volumes, plan.namedVolumes[i]) else SourceTree(before, plan.bindCopies[i - nv])
    {
    }
    hide Places, Wanted;
    if Delivered(plan, volumes, before, fs) {
      forall name | name in plan.namedVolumes
        ensures Subtree(fs, VolumePlace(plan, name)) == VolumeTree(volumes, name)
      {
        var i :| 0 <= i < nv && plan.namedVolumes[i] == name;
        assert Subtree(fs, places[i]) == wanted[i];
      }
      forall c | c in plan.bindCopies
        ensures Subtree(fs, BindPlace(plan, c)) == SourceTree(before, c)
      {
        var i :| 0 <= i < |plan.bindCopies| && plan.bindCopies[i] == c;
        assert Subtree(fs, places[nv + i]) == wanted[nv + i];
      }
    }
  }

  /** What a successful run delivers, item by item: every volume below `volumes`, every bind mount's source at the place
      asked for, an empty directory for a source that was not there, and the backup. */
  lemma DeliveredMeans(plan: MigrationPlan, volumes: map<string, Fs>, before: Fs, fs: Fs, r: Path)
    requires Delivered(plan, volumes, before, fs)
    ensures forall name :: name in plan.namedVolumes && name in volumes && r != [] ==>
      var entry := plan.targetDir + ["volumes", name] + r;
      (entry in fs <==> r in volumes[name]) && (entry in fs ==> fs[entry] == volumes[name][r])
    ensures forall c :: c in plan.bindCopies && c.sourcePath.Some? ==>
      var entry, source := Resolve(plan.targetDir, c.newPath) + r, c.sourcePath.value + r;
      (entry in fs <==> source in before) && (entry in fs ==> fs[entry] == before[source])
    ensures forall c :: c in plan.bindCopies && c.sourcePath.None? ==>
      var entry := Resolve(plan.targetDir, c.newPath) + r;
      (entry in fs <==> r == []) && (entry in fs ==> fs[entry] == Dir)
    ensures plan.backup && plan.inPlace.None? ==>
      var entry, source := plan.targetDir + ["pre-migration-backup"] + r, plan.originalDir + r;
      (entry in fs <==> source in before) && (entry in fs ==> fs[entry] == before[source])
  {
    DeliveredIs(plan, volumes, before, fs);
    hide Subtree, Delivered, Resolve;
    forall name | name in plan.namedVolumes && name in volumes && r != []
      ensures var entry := plan.targetDir + ["volumes", name] + r;
        (entry in fs <==> r in volumes[name]) && (entry in fs ==> fs[entry] == volumes[name][r])
    {
      SubtreeHas(fs, VolumePlace(plan, name), r);
    }
    forall c | c in plan.bindCopies
      ensures var entry := Resolve(plan.targetDir, c.newPath) + r;
        if c.sourcePath.Some? then
          var source := c.sourcePath.value + r;
          (entry in fs <==> source in before) && (entry in fs ==> fs[entry] == before[source])
        else (entry in fs <==> r == []) && (entry in fs ==> fs[entry] == Dir)
    {
      SubtreeHas(fs, BindPlace(plan, c), r);
      if c.sourcePath.Some? {
        SubtreeHas(before, c.sourcePath.value, r);
      }
    }
    SubtreeHas(fs, BackupDir(plan), r);
    SubtreeHas(before, plan.originalDir, r);
  }

  /** What is delivered does not depend on the order of the copies. */
  lemma DeliveredInAnyOrder(plan: MigrationPlan, plan': MigrationPlan, volumes: map<string, Fs>, before: Fs, fs: Fs)
    requires plan' == plan.(bindCopies := plan'.bindCopies, namedVolumes := plan'.namedVolumes)
    requires forall c :: c in plan'.bindCopies <==> c in plan.bindCopies
    requires forall name :: name in plan'.namedVolumes <==> name in plan.namedVolumes
    ensures Delivered(plan', volumes, before, fs) <==> Delivered(plan, volumes, before, fs)
  {
    DeliveredIs(plan, volumes, before, fs);
    DeliveredIs(plan', volumes, before, fs);
    hide Subtree, VolumeTree, Delivered;
  }

  ghost predicate HasFiles(plan: MigrationPlan, fs: Fs, files: NewFiles) {
    TextOf(fs, ComposeFile(plan)) == Some(files.compose) &&
    (files.env.Some? ==> TextOf(fs, EnvFile(plan)) == files.env)
  }

  /** The new compose file, and the new `.env` if there is one, are in the new directory. */
  lemma HasFilesMeans(plan: MigrationPlan, rewrite: Rewriter, before: Fs, fs: Fs)
    requires ContentFrom(plan, rewrite, before, plan.originalDir).Some?
    requires HasFiles(plan, fs, ContentFrom(plan, rewrite, before, plan.originalDir).value)
    ensures var compose, env := plan.originalDir + [plan.composeName], plan.originalDir + [".env"];
      var newCompose, newEnv := plan.targetDir + ["docker-compose.yml"], plan.targetDir + [".env"];
      && compose in before && before[compose].File? && newCompose in fs
      && var oldEnv := if env in before && before[env].File? then Some(before[env].content) else None;
         var result := rewrite(before[compose].content, oldEnv);
         && result.Some? && fs[newCompose] == File(result.value.rewrittenCompose)
         && (MergedEnv(oldEnv, result.value.extractedEnv).Some? ==>
               newEnv in fs && fs[newEnv] == File(MergedEnv(oldEnv, result.value.extractedEnv).value))
  {
    hide MergedEnv;
  }

  lemma HasNewFiles(plan: MigrationPlan, fs: Fs, files: NewFiles)
    ensures HasFiles(plan, WithFiles(fs, plan, files), files)
  {
    FilesAreApart(plan);
  }

  /** The new files are made from the old ones' text, wherever they are read. */
  lemma ContentFollows(plan: MigrationPlan, rewrite: Rewriter, before: Fs, fs: Fs)
    requires Keeps(before, fs, plan, SourceDir(plan))
    ensures ContentFrom(plan, rewrite, fs, SourceDir(plan)) == ContentFrom(plan, rewrite, before, plan.originalDir)
    ensures SourceDir(plan) + [".env"] in fs ==>
      plan.originalDir + [".env"] in before && before[plan.originalDir + [".env"]] == fs[SourceDir(plan) + [".env"]]
  {
    hide Subtree;
    EntryFollows(fs, SourceDir(plan), before, plan.originalDir, plan.composeName);
    EntryFollows(fs, SourceDir(plan), before, plan.originalDir, ".env");
  }

  lemma FilledIsWritable(plan: MigrationPlan, volumes: map<string, Fs>, before: Fs, fs: Fs)
    requires Copied(plan, Wanted(plan, volumes, before), |Places(plan)|, fs)
    ensures Writable(fs, ComposeFile(plan)) && Writable(fs, EnvFile(plan))
  {
    assert Parent(ComposeFile(plan)) == plan.targetDir && Parent(EnvFile(plan)) == plan.targetDir;
  }

  lemma DeliveredWithFiles(plan: MigrationPlan, rewrite: Rewriter, volumes: map<string, Fs>, before: Fs, fs: Fs)
    requires CopiesAreApart(plan) && Copied(plan, Wanted(plan, volumes, before), |Places(plan)|, fs)
    requires plan.backup && plan.inPlace.None? ==> Subtree(fs, BackupDir(plan)) == Subtree(before, plan.originalDir)
    requires ContentFrom(plan, rewrite, before, plan.originalDir).Some?
    ensures var files := ContentFrom(plan, rewrite, before, plan.originalDir).value;
      Delivered(plan, volumes, before, WithFiles(fs, plan, files)) &&
      (files.env.None? ==> EnvFile(plan) !in WithFiles(fs, plan, files))
  {
    var files := ContentFrom(plan, rewrite, before, plan.originalDir).value;
    ReservedNames();
    FilesAreApart(plan);
    WithFilesKeeps(fs, plan, files, BackupDir(plan));
    hide Subtree, Places, IsSafePlace, IsReservedRootName, WithFiles, Wanted, ContentFrom;
    forall i | 0 <= i < |Places(plan)|
      ensures Subtree(WithFiles(fs, plan, files), Places(plan)[i]) == Subtree(fs, Places(plan)[i])
    {
      SafePlaceIsClear(plan, Places(plan)[i], "docker-compose.yml");
      SafePlaceIsClear(plan, Places(plan)[i], ".env");
      WithFilesKeeps(fs, plan, files, Places(plan)[i]);
    }
  }

  // ----- What a failed run reports -----

  /** Where the note about the original says the old files are. */
  function NotedHome(plan: MigrationPlan, note: OriginalNote): Path {
    match note
    case NotModified => plan.originalDir
    case MovedBack(to) => to
    case StillAt(aside, _) => aside
  }

  predicate NoteIsPossible(plan: MigrationPlan, note: OriginalNote) {
    match note
    case NotModified => true
    case MovedBack(to) => plan.inPlace.Some? && to == plan.originalDir
    case StillAt(aside, original) => plan.inPlace == Some(aside) && original == plan.originalDir
  }

  lemma InPlaceTarget(plan: MigrationPlan)
    requires ValidPlan(plan)
    ensures plan.inPlace.Some? ==> plan.targetDir == plan.originalDir
  {
  }
}
