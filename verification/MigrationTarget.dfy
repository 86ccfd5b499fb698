/** Where a migration may write (server/src/domain/migration-target.ts). */
module MigrationTarget {
  import opened Text
  import opened Paths
  import opened DirectoryIdentity

  datatype TargetKind = Separate | InPlace | NestedTarget

  function ClassifyMigrationTarget(target: Identity, original: Identity): TargetKind {
    match Relate(target, original)
    case Same => InPlace
    case Nested => NestedTarget
    case Unrelated => Separate
  }

  /** A target is called separate only when it does not overlap the original, whatever the spellings. */
  lemma SeparateTargetsAreDisjoint(target: Path, original: Path, mounts: seq<Mount>)
    requires NoDottedStep(target, mounts) && NoDottedStep(original, mounts)
    requires ClassifyMigrationTarget(LocalIdentity([target], InContainer(mounts)),
                                     LocalIdentity([original], InContainer(mounts))) == Separate
    ensures Disjoint(target, original)
    ensures forall h, g :: Shows(target, h, mounts) && Shows(original, g, mounts) ==> Disjoint(h, g)
  {
    UnrelatedIsDisjoint(target, original, mounts);
  }

  /** Exactly which targets are separate, in place and nested, however the two directories are spelled. */
  lemma ClassifiedIff(targets: seq<Path>, originals: seq<Path>, view: OwnMountsView)
    ensures var kind := ClassifyMigrationTarget(LocalIdentity(targets, view), LocalIdentity(originals, view));
      && (kind == InPlace <==> exists t, o :: t in targets && o in originals && IsOne(view, t, o))
      && (kind == Separate <==> forall t, o :: t in targets && o in originals ==> IsApart(view, t, o))
      && (kind == NestedTarget <==> kind != InPlace && kind != Separate)
  {
    SameIff(targets, originals, view);
    UnrelatedIff(targets, originals, view);
    hide LocalIdentity, Relate, IsOne, IsApart;
  }

  /** `<id>-pre-migration`, then `<id>-pre-migration-2`, ... */
  function AsideNameCandidates(stackId: string, limit: int): seq<string> {
    var base := stackId + "-pre-migration";
    seq(if limit < 0 then 0 else limit,
        index requires 0 <= index => if index == 0 then base else base + "-" + Decimal(index + 1))
  }

  /** The names tried are all different and none is the stack's own name. */
  lemma AsideNamesAreDistinct(stackId: string, limit: int, i: nat, j: nat)
    requires i < j < limit
    ensures var names := AsideNameCandidates(stackId, limit);
      names[i] != names[j] && names[i] != stackId && names[j] != stackId
  {
    var base := stackId + "-pre-migration";
    var names := AsideNameCandidates(stackId, limit);
    assert |base| > |stackId| && |names[i]| >= |base| && |names[j]| > |base|;
    if i > 0 && names[i] == names[j] {
      assert names[i][|base| + 1..] == Decimal(i + 1) && names[j][|base| + 1..] == Decimal(j + 1);
      DecimalInjective(i + 1, j + 1);
    }
  }

  lemma AsideNamesAre(stackId: string, limit: nat)
    ensures var names := AsideNameCandidates(stackId, limit);
      && |names| == limit && (limit > 0 ==> names[0] == stackId + "-pre-migration")
      && forall k :: 1 <= k < limit ==> names[k] == stackId + "-pre-migration" + "-" + Decimal(k + 1)
  {
  }

  const BACKUP_DIR_NAME := "pre-migration-backup"
  const COMPOSE_NAMES: set<string> := {"docker-compose.yml", "docker-compose.yaml", "compose.yml", "compose.yaml"}

  /** Lower case, for comparing with names that are ASCII. */
  function ToLower(s: string): string {
    seq(|s|, i requires 0 <= i < |s| => LowerChar(s[i]))
  }

  predicate IsReservedRootName(name: string) {
    ToLower(name) in COMPOSE_NAMES || ToLower(name) == ".env" || ToLower(name) == BACKUP_DIR_NAME
  }

  /** Docker's own volume-name characters. */
  predicate IsVolumeName(name: string) {
    name != "" && (IsIdentChar(name[0]) && name[0] != '_') &&
    forall c :: c in name ==> IsIdentChar(c) || c == '.' || c == '-'
  }

  /** Equal but for capital letters in the first text; the Kelvin sign is a capital `k`. */
  predicate IsSpelledLike(name: string, small: string) {
    |name| == |small| &&
    forall i :: 0 <= i < |name| ==>
      name[i] == small[i] || ('a' <= small[i] <= 'z' && name[i] as int == small[i] as int - 32) ||
      (small[i] == 'k' && name[i] == '\U{212A}')
  }

  const RESERVED: set<string> :=
    {"docker-compose.yml", "docker-compose.yaml", "compose.yml", "compose.yaml", ".env", "pre-migration-backup"}

  /** Reserved are the names of compose files, `.env` and the backup, however they are capitalised. */
  lemma ReservedIff(name: string)
    ensures IsReservedRootName(name) <==> exists small :: small in RESERVED && IsSpelledLike(name, small)
  {
    assert forall small :: small in RESERVED <==> small in COMPOSE_NAMES || small == ".env" || small == BACKUP_DIR_NAME;
    forall small | small in RESERVED
      ensures ToLower(name) == small <==> IsSpelledLike(name, small)
    {
      ReservedAreSmall(small);
      LowerIsSpelling(name, small);
    }
  }

  lemma ReservedAreSmall(small: string)
    requires small in RESERVED
    ensures forall c :: c in small ==> 'a' <= c <= 'z' || c == '-' || c == '.'
  {
  }

  lemma LowerIsSpelling(name: string, small: string)
    requires forall c :: c in small ==> 'a' <= c <= 'z' || c == '-' || c == '.'
    ensures ToLower(name) == small <==> IsSpelledLike(name, small)
  {
    forall i | 0 <= i < |name| && i < |small|
      ensures LowerChar(name[i]) == small[i] <==>
        name[i] == small[i] || ('a' <= small[i] <= 'z' && name[i] as int == small[i] as int - 32) ||
        (small[i] == 'k' && name[i] == '\U{212A}')
    {
      assert small[i] in small;
    }
    if ToLower(name) == small {
      assert |name| == |small| && forall i :: 0 <= i < |name| ==> LowerChar(name[i]) == small[i];
    }
  }

  datatype BindCopyRequest = BindCopyRequest(originalPath: RawPath, newPath: RawPath)

  datatype CopyDestinationRequest =
    CopyDestinationRequest(targetDir: Path, composeDir: Path, bindCopies: seq<BindCopyRequest>, namedVolumes: seq<string>)

  datatype Label = BindLabel(newPath: RawPath) | VolumeLabel(name: string)

  datatype Destination = Destination(requested: Label, resolved: Path)

  datatype Violation =
    | EmptyOrNul(originalPath: RawPath)
    | Escapes(newPath: RawPath)
    | StackDirectory(newPath: RawPath)
    | Overwrites(newPath: RawPath)
    | InvalidVolumeName(name: string)
    | SameDestination(a: Label, b: Label)
    | NestedDestinations(a: Label, b: Label)

  datatype Outcome = Refused(violation: Violation) | Accepted(destination: Option<Destination>)

  predicate IsHomeRelative(path: RawPath) {
    !path.absolute && path.segments != [] && path.segments[0] != "" && path.segments[0][0] == '~'
  }

  predicate IsStackDirectoryMount(originalPath: RawPath, composeDir: Path) {
    !IsHomeRelative(originalPath) && Resolve(composeDir, originalPath) == composeDir
  }

  predicate IsEmptyOrNul(path: RawPath) {
    path == RawPath(false, [""]) || path == RawPath(false, []) || exists s :: s in path.segments && '\0' in s
  }

  function BindDestination(copy: BindCopyRequest, targetDir: Path, composeDir: Path): Outcome {
    var newPath := copy.newPath;
    var resolved := Resolve(targetDir, newPath);
    var relative := Relative(targetDir, resolved);
    if IsEmptyOrNul(newPath) then Refused(EmptyOrNul(copy.originalPath))
    else if StartsWithDots(relative) then Refused(Escapes(newPath))
    else if relative == [] then
      if IsStackDirectoryMount(copy.originalPath, composeDir) then Accepted(None) else Refused(StackDirectory(newPath))
    else if IsReservedRootName(relative[0]) then Refused(Overwrites(newPath))
    else Accepted(Some(Destination(BindLabel(newPath), resolved)))
  }

  function NamedVolumeDestination(name: string, targetDir: Path): Outcome {
    if IsVolumeName(name) then Accepted(Some(Destination(VolumeLabel(name), targetDir + ["volumes", name])))
    else Refused(InvalidVolumeName(name))
  }

  function BindOutcomes(request: CopyDestinationRequest): seq<Outcome> {
    seq(|request.bindCopies|, i requires 0 <= i < |request.bindCopies| =>
      BindDestination(request.bindCopies[i], request.targetDir, request.composeDir))
  }

  function VolumeOutcomes(request: CopyDestinationRequest): seq<Outcome> {
    seq(|request.namedVolumes|, i requires 0 <= i < |request.namedVolumes| =>
      NamedVolumeDestination(request.namedVolumes[i], request.targetDir))
  }

  function RefusalOf(outcome: Outcome): seq<Violation> {
    if outcome.Refused? then [outcome.violation] else []
  }

  function DestinationOf(outcome: Outcome): seq<Destination> {
    if outcome.Accepted? && outcome.destination.Some? then [outcome.destination.value] else []
  }

  function Refusals(outcomes: seq<Outcome>): seq<Violation> {
    if outcomes == [] then []
    else
      Refusals(outcomes[..|outcomes| - 1]) + RefusalOf(outcomes[|outcomes| - 1])
  }

  function Destinations(outcomes: seq<Outcome>): seq<Destination> {
    if outcomes == [] then []
    else
      Destinations(outcomes[..|outcomes| - 1]) + DestinationOf(outcomes[|outcomes| - 1])
  }

  /** The message about one pair of destinations, if there is something to say. */
  function Collision(a: Destination, b: Destination): seq<Violation> {
    if a.resolved == b.resolved then [SameDestination(a.requested, b.requested)]
    else if a.resolved < b.resolved || b.resolved < a.resolved then [NestedDestinations(a.requested, b.requested)]
    else []
  }

  function CollisionsWith(destination: Destination, others: seq<Destination>): seq<Violation> {
    if others == [] then []
    else CollisionsWith(destination, others[..|others| - 1]) + Collision(destination, others[|others| - 1])
  }

  function CollisionsFrom(destinations: seq<Destination>, n: nat): seq<Violation>
    requires n <= |destinations|
  {
    if n == 0 then []
    else CollisionsFrom(destinations, n - 1) + CollisionsWith(destinations[n - 1], destinations[n..])
  }

  method Collisions(destinations: seq<Destination>) returns (messages: seq<Violation>)
    ensures messages == CollisionsFrom(destinations, |destinations|)
  {
    messages := [];
    for index := 0 to |destinations|
      invariant messages == CollisionsFrom(destinations, index)
    {
      var others := destinations[index + 1..];
      ghost var before := messages;
      for k := 0 to |others|
        invariant messages == before + CollisionsWith(destinations[index], others[..k])
      {
        assert others[..k + 1][..k] == others[..k];
        messages := messages + Collision(destinations[index], others[k]);
      }
      assert others[..|others|] == others;
    }
  }

  function Violations(request: CopyDestinationRequest): seq<Violation> {
    var outcomes := BindOutcomes(request) + VolumeOutcomes(request);
    var destinations := Destinations(outcomes);
    Refusals(outcomes) + CollisionsFrom(destinations, |destinations|)
  }

  method CopyDestinationViolations(request: CopyDestinationRequest) returns (violations: seq<Violation>)
    ensures violations == Violations(request)
  {
    hide BindDestination, NamedVolumeDestination, RefusalOf, DestinationOf, CollisionsFrom;
    violations := [];
    var destinations: seq<Destination> := [];
    ghost var outcomes := BindOutcomes(request) + VolumeOutcomes(request);
    for i := 0 to |request.bindCopies|
      invariant violations == Refusals(outcomes[..i]) && destinations == Destinations(outcomes[..i])
    {
      var outcome := BindDestination(request.bindCopies[i], request.targetDir, request.composeDir);
      assert outcomes[..i + 1][..i] == outcomes[..i] && outcomes[i] == outcome;
      violations := violations + RefusalOf(outcome);
      destinations := destinations + DestinationOf(outcome);
    }
    ghost var n := |request.bindCopies|;
    for i := 0 to |request.namedVolumes|
      invariant violations == Refusals(outcomes[..n + i]) && destinations == Destinations(outcomes[..n + i])
    {
      var outcome := NamedVolumeDestination(request.namedVolumes[i], request.targetDir);
      assert outcomes[..n + i + 1][..n + i] == outcomes[..n + i] && outcomes[n + i] == outcome;
      violations := violations + RefusalOf(outcome);
      destinations := destinations + DestinationOf(outcome);
    }
    assert outcomes[..|outcomes|] == outcomes;
    var messages := Collisions(destinations);
    violations := violations + messages;
  }

  // ----- What an empty answer means -----

  /** No destination equals or contains another one. */
  ghost predicate PairwiseDisjoint(destinations: seq<Destination>) {
    forall i, j :: 0 <= i < j < |destinations| ==> Disjoint(destinations[i].resolved, destinations[j].resolved)
  }

  /** A legal place for copied data: strictly inside the target, clear of the compose files, `.env` and the backup. */
  predicate IsSafePlace(targetDir: Path, place: Path) {
    targetDir < place && !IsReservedRootName(place[|targetDir|])
  }

  /** What a bind mount's destination has to be. */
  predicate BindIsAcceptable(copy: BindCopyRequest, targetDir: Path, composeDir: Path) {
    var resolved := Resolve(targetDir, copy.newPath);
    !IsEmptyOrNul(copy.newPath) &&
    if resolved == targetDir then IsStackDirectoryMount(copy.originalPath, composeDir)
    else IsSafePlace(targetDir, resolved) && !(".." <= resolved[|targetDir|])
  }

  lemma BindAcceptedIff(copy: BindCopyRequest, targetDir: Path, composeDir: Path)
    ensures BindDestination(copy, targetDir, composeDir).Accepted? <==> BindIsAcceptable(copy, targetDir, composeDir)
    ensures BindIsAcceptable(copy, targetDir, composeDir) ==>
      BindDestination(copy, targetDir, composeDir).destination ==
        var resolved := Resolve(targetDir, copy.newPath);
        if resolved == targetDir then None else Some(Destination(BindLabel(copy.newPath), resolved))
  {
    var resolved := Resolve(targetDir, copy.newPath);
    hide Resolve, IsReservedRootName, IsEmptyOrNul, IsStackDirectoryMount, Relative;
    DotsTestIs(targetDir, resolved);
    RelativeIs(targetDir, resolved);
    assert targetDir <= resolved && |resolved| == |targetDir| ==> resolved == targetDir;
  }

  /** Why a bind mount's destination is refused: the first of four reasons that applies. */
  lemma RefusedBecause(copy: BindCopyRequest, targetDir: Path, composeDir: Path)
    ensures var outcome := BindDestination(copy, targetDir, composeDir);
      var resolved := Resolve(targetDir, copy.newPath);
      var empty := copy.newPath in {RawPath(false, [""]), RawPath(false, [])} ||
        exists s :: s in copy.newPath.segments && '\0' in s;
      var outside := !(targetDir <= resolved) || (targetDir < resolved && ".." <= resolved[|targetDir|]);
      && (outcome == Refused(EmptyOrNul(copy.originalPath)) <==> empty)
      && (outcome == Refused(Escapes(copy.newPath)) <==> !empty && outside)
      && (outcome == Refused(StackDirectory(copy.newPath)) <==>
            !empty && resolved == targetDir && !IsStackDirectoryMount(copy.originalPath, composeDir))
      && (outcome == Refused(Overwrites(copy.newPath)) <==>
            !empty && !outside && targetDir < resolved && IsReservedRootName(resolved[|targetDir|]))
  {
    var resolved := Resolve(targetDir, copy.newPath);
    DotsTestIs(targetDir, resolved);
    RelativeIs(targetDir, resolved);
    assert targetDir <= resolved && |resolved| == |targetDir| ==> resolved == targetDir;
    hide Resolve, IsReservedRootName, IsStackDirectoryMount, Relative;
  }

  /** `.` and the absolute spelling are mounts of the old stack's directory; `~` and anything inside it are not. */
  lemma StackDirectoryMounts(composeDir: Path, rest: seq<string>)
    ensures IsStackDirectoryMount(RawPath(false, ["."]), composeDir)
    ensures !IsStackDirectoryMount(RawPath(false, ["~"] + rest), composeDir)
    ensures IsNormal(composeDir) ==> IsStackDirectoryMount(RawPath(true, composeDir), composeDir)
    ensures forall name :: IsRealSegment(name) ==> !IsStackDirectoryMount(RawPath(false, [name]), composeDir)
  {
    forall name | IsRealSegment(name)
      ensures Walk(composeDir, [name]) == composeDir + [name] != composeDir
    {
      WalkNormal(composeDir, [name]);
    }
    if IsNormal(composeDir) {
      WalkNormal([], composeDir);
      assert [] + composeDir == composeDir;
    }
    assert Walk(composeDir, ["."]) == Walk(composeDir, []);
  }

  /** The answer lists every refusal and every collision, and nothing else. */
  lemma ViolationsIff(request: CopyDestinationRequest, v: Violation)
    ensures v in Violations(request) <==>
      || (exists i :: 0 <= i < |request.bindCopies| &&
            BindDestination(request.bindCopies[i], request.targetDir, request.composeDir) == Refused(v))
      || (exists name :: name in request.namedVolumes && !IsVolumeName(name) && v == InvalidVolumeName(name))
      || (var ds := RequestedDestinations(request);
          exists i, j :: 0 <= i < j < |ds| && Reports(v, ds[i], ds[j]))
  {
    hide BindDestination, IsVolumeName, Destinations, Refusals, CollisionsFrom, Reports;
    var binds, volumes := BindOutcomes(request), VolumeOutcomes(request);
    RefusalIff(binds + volumes, v);
    ReportedIff(v, RequestedDestinations(request));
    RefusedBindIff(request, v);
    RefusedVolumeIff(request, v);
    hide BindOutcomes, VolumeOutcomes;
    assert Refused(v) in binds + volumes <==> Refused(v) in binds || Refused(v) in volumes;
  }

  lemma RefusedBindIff(request: CopyDestinationRequest, v: Violation)
    ensures Refused(v) in BindOutcomes(request) <==>
      exists i :: 0 <= i < |request.bindCopies| &&
        BindDestination(request.bindCopies[i], request.targetDir, request.composeDir) == Refused(v)
  {
    hide BindDestination;
    var outcomes := BindOutcomes(request);
    assert |outcomes| == |request.bindCopies|;
    forall i | 0 <= i < |outcomes|
      ensures outcomes[i] == BindDestination(request.bindCopies[i], request.targetDir, request.composeDir)
      ensures outcomes[i] in outcomes
    {
    }
    if Refused(v) in outcomes {
      var i :| 0 <= i < |outcomes| && outcomes[i] == Refused(v);
      assert BindDestination(request.bindCopies[i], request.targetDir, request.composeDir) == Refused(v);
    }
  }

  lemma RefusedVolumeIff(request: CopyDestinationRequest, v: Violation)
    ensures Refused(v) in VolumeOutcomes(request) <==>
      exists name :: name in request.namedVolumes && !IsVolumeName(name) && v == InvalidVolumeName(name)
  {
    hide IsVolumeName;
    var outcomes := VolumeOutcomes(request);
    if name :| name in request.namedVolumes && !IsVolumeName(name) && v == InvalidVolumeName(name) {
      var i :| 0 <= i < |request.namedVolumes| && request.namedVolumes[i] == name;
      assert outcomes[i] in outcomes;
    }
  }

  lemma {:induction false} RefusalIff(outcomes: seq<Outcome>, v: Violation)
    ensures v in Refusals(outcomes) <==> Refused(v) in outcomes
  {
    if outcomes != [] {
      var init, last := outcomes[..|outcomes| - 1], outcomes[|outcomes| - 1];
      RefusalIff(init, v);
      assert outcomes == init + [last];
    }
  }

  lemma {:induction false} RefusalsEmptyIff(outcomes: seq<Outcome>)
    ensures Refusals(outcomes) == [] <==> forall o :: o in outcomes ==> o.Accepted?
  {
    if outcomes != [] {
      var init, last := outcomes[..|outcomes| - 1], outcomes[|outcomes| - 1];
      RefusalsEmptyIff(init);
      assert outcomes == init + [last];
      assert last in outcomes;
      assert forall o :: o in outcomes ==> o in init || o == last;
      assert forall o :: o in init ==> o in outcomes;
      assert RefusalOf(last) == [] <==> last.Accepted?;
      assert Refusals(outcomes) == [] <==> Refusals(init) == [] && RefusalOf(last) == [] by {
        hide RefusalOf;
      }
    }
  }

  ghost predicate ClearOf(destination: Destination, others: seq<Destination>) {
    forall i :: 0 <= i < |others| ==> Disjoint(destination.resolved, others[i].resolved)
  }

  lemma {:induction false} CollisionsWithEmptyIff(destination: Destination, others: seq<Destination>)
    ensures CollisionsWith(destination, others) == [] <==> ClearOf(destination, others)
  {
    if others != [] {
      var init, last := others[..|others| - 1], others[|others| - 1];
      CollisionsWithEmptyIff(destination, init);
      assert Collision(destination, last) == [] <==> Disjoint(destination.resolved, last.resolved);
      hide Disjoint, CollisionsWith, Collision;
      assert forall i :: 0 <= i < |init| ==> init[i] == others[i];
    }
  }

  /** Each of the first `n` destinations collides with none of those behind it. */
  ghost predicate ClearUpTo(destinations: seq<Destination>, n: nat)
    requires n <= |destinations|
  {
    n == 0 || (ClearUpTo(destinations, n - 1) && ClearOf(destinations[n - 1], destinations[n..]))
  }

  lemma {:induction false} CollisionsEmptyIff(destinations: seq<Destination>, n: nat)
    requires n <= |destinations|
    ensures CollisionsFrom(destinations, n) == [] <==> ClearUpTo(destinations, n)
  {
    if n > 0 {
      CollisionsEmptyIff(destinations, n - 1);
      CollisionsWithEmptyIff(destinations[n - 1], destinations[n..]);
    }
  }

  lemma {:induction false} ClearPair(destinations: seq<Destination>, n: nat, i: nat, j: nat)
    requires n <= |destinations| && ClearUpTo(destinations, n) && i < n && i < j < |destinations|
    ensures Disjoint(destinations[i].resolved, destinations[j].resolved)
  {
    if i == n - 1 {
      assert destinations[n..][j - n] == destinations[j];
    } else {
      ClearPair(destinations, n - 1, i, j);
    }
  }

  lemma {:induction false} PairwiseIsClear(destinations: seq<Destination>, n: nat)
    requires n <= |destinations| && PairwiseDisjoint(destinations)
    ensures ClearUpTo(destinations, n)
  {
    if n > 0 {
      PairwiseIsClear(destinations, n - 1);
      hide Disjoint;
      forall k | 0 <= k < |destinations[n..]|
        ensures Disjoint(destinations[n - 1].resolved, destinations[n..][k].resolved)
      {
        assert destinations[n..][k] == destinations[n + k];
      }
    }
  }

  lemma NoCollisionsIff(destinations: seq<Destination>)
    ensures CollisionsFrom(destinations, |destinations|) == [] <==> PairwiseDisjoint(destinations)
  {
    var n := |destinations|;
    CollisionsEmptyIff(destinations, n);
    if ClearUpTo(destinations, n) {
      forall i, j | 0 <= i < j < n
        ensures Disjoint(destinations[i].resolved, destinations[j].resolved)
      {
        ClearPair(destinations, n, i, j);
      }
    } else if PairwiseDisjoint(destinations) {
      PairwiseIsClear(destinations, n);
    }
  }

  /** The message says what is wrong with this pair. */
  predicate Reports(message: Violation, a: Destination, b: Destination) {
    (message == SameDestination(a.requested, b.requested) && a.resolved == b.resolved) ||
    (message == NestedDestinations(a.requested, b.requested) && (a.resolved < b.resolved || b.resolved < a.resolved))
  }

  predicate ReportsOneOf(message: Violation, destination: Destination, others: seq<Destination>) {
    exists k :: 0 <= k < |others| && Reports(message, destination, others[k])
  }

  lemma {:induction false} ReportedWithIff(message: Violation, destination: Destination, others: seq<Destination>)
    ensures message in CollisionsWith(destination, others) <==> ReportsOneOf(message, destination, others)
  {
    if others != [] {
      var init, last := others[..|others| - 1], others[|others| - 1];
      ReportedWithIff(message, destination, init);
      assert message in Collision(destination, last) <==> Reports(message, destination, last);
      hide Reports, Collision;
      assert forall k :: 0 <= k < |init| ==> init[k] == others[k];
      if k :| 0 <= k < |others| && Reports(message, destination, others[k]) {
        assert k < |init| ==> Reports(message, destination, init[k]);
      }
    }
  }

  lemma {:induction false} ReportedFromIff(message: Violation, destinations: seq<Destination>, n: nat)
    requires n <= |destinations|
    ensures message in CollisionsFrom(destinations, n) <==>
      exists i :: 0 <= i < n && ReportsOneOf(message, destinations[i], destinations[i + 1..])
  {
    if n > 0 {
      ReportedFromIff(message, destinations, n - 1);
      ReportedWithIff(message, destinations[n - 1], destinations[n..]);
      hide ReportsOneOf, CollisionsWith;
      if i :| 0 <= i < n && ReportsOneOf(message, destinations[i], destinations[i + 1..]) {
        assert i == n - 1 || i < n - 1;
      }
    }
  }

  /** A message is given exactly when some pair of destinations is equal or nested, and it names that pair. */
  lemma ReportedIff(message: Violation, destinations: seq<Destination>)
    ensures message in CollisionsFrom(destinations, |destinations|) <==>
      exists i, j :: 0 <= i < j < |destinations| && Reports(message, destinations[i], destinations[j])
  {
    hide Reports, CollisionsFrom;
    ReportedFromIff(message, destinations, |destinations|);
    if i :| 0 <= i < |destinations| && ReportsOneOf(message, destinations[i], destinations[i + 1..]) {
      var k :| 0 <= k < |destinations[i + 1..]| && Reports(message, destinations[i], destinations[i + 1..][k]);
      assert destinations[i + 1..][k] == destinations[i + 1 + k];
    }
    if i, j :| 0 <= i < j < |destinations| && Reports(message, destinations[i], destinations[j]) {
      assert destinations[i + 1..][j - i - 1] == destinations[j];
      assert ReportsOneOf(message, destinations[i], destinations[i + 1..]);
    }
  }

  /** The destinations a request asks for. */
  function RequestedDestinations(request: CopyDestinationRequest): seq<Destination> {
    Destinations(BindOutcomes(request) + VolumeOutcomes(request))
  }

  /** A request is let through exactly when every single destination is legal and no two collide. */
  lemma NoViolationsIff(request: CopyDestinationRequest)
    ensures Violations(request) == [] <==>
      && (forall i :: 0 <= i < |request.bindCopies| ==>
            BindIsAcceptable(request.bindCopies[i], request.targetDir, request.composeDir))
      && (forall i :: 0 <= i < |request.namedVolumes| ==> IsVolumeName(request.namedVolumes[i]))
      && PairwiseDisjoint(RequestedDestinations(request))
  {
    hide BindDestination, BindIsAcceptable, IsVolumeName, Destinations, Refusals, CollisionsFrom, PairwiseDisjoint;
    var binds, volumes := BindOutcomes(request), VolumeOutcomes(request);
    var outcomes := binds + volumes;
    RefusalsEmptyIff(outcomes);
    NoCollisionsIff(RequestedDestinations(request));
    AllAcceptedIff(request);
  }

  lemma AllAcceptedIff(request: CopyDestinationRequest)
    ensures (forall o :: o in BindOutcomes(request) + VolumeOutcomes(request) ==> o.Accepted?) <==>
      && (forall i :: 0 <= i < |request.bindCopies| ==>
            BindIsAcceptable(request.bindCopies[i], request.targetDir, request.composeDir))
      && (forall i :: 0 <= i < |request.namedVolumes| ==> IsVolumeName(request.namedVolumes[i]))
  {
    hide BindDestination, BindIsAcceptable, IsVolumeName;
    var binds, volumes := BindOutcomes(request), VolumeOutcomes(request);
    forall i | 0 <= i < |binds|
      ensures binds[i].Accepted? <==> BindIsAcceptable(request.bindCopies[i], request.targetDir, request.composeDir)
      ensures binds[i] in binds + volumes
    {
      assert (binds + volumes)[i] == binds[i];
      BindAcceptedIff(request.bindCopies[i], request.targetDir, request.composeDir);
    }
    forall i | 0 <= i < |volumes|
      ensures volumes[i].Accepted? <==> IsVolumeName(request.namedVolumes[i])
      ensures volumes[i] in binds + volumes
    {
      assert (binds + volumes)[|binds| + i] == volumes[i];
    }
  }

  lemma VolumeNameIsSegment(name: string, targetDir: Path)
    requires IsVolumeName(name)
    ensures IsRealSegment(name) && IsSafePlace(targetDir, targetDir + ["volumes", name])
  {
    assert (targetDir + ["volumes", name])[|targetDir|] == "volumes";
    assert ToLower("volumes") == "volumes";
    assert |"volumes"| == 7;
    assert "volumes" !in COMPOSE_NAMES;
  }

  lemma AcceptableIsSafe(copy: BindCopyRequest, targetDir: Path, composeDir: Path)
    requires BindIsAcceptable(copy, targetDir, composeDir) && Resolve(targetDir, copy.newPath) != targetDir
    ensures IsSafePlace(targetDir, Resolve(targetDir, copy.newPath))
  {
  }

  /** After an empty answer every requested destination is a safe place. */
  lemma {:induction false} DestinationsAreSafe(request: CopyDestinationRequest, d: Destination)
    requires Violations(request) == [] && d in RequestedDestinations(request)
    ensures IsSafePlace(request.targetDir, d.resolved)
  {
    hide IsSafePlace, BindDestination, IsVolumeName, BindIsAcceptable, Violations;
    NoViolationsIff(request);
    var outcomes := BindOutcomes(request) + VolumeOutcomes(request);
    hide Destinations, Resolve;
    var i := DestinationComesFrom(outcomes, d);
    if i < |request.bindCopies| {
      BindAcceptedIff(request.bindCopies[i], request.targetDir, request.composeDir);
      AcceptableIsSafe(request.bindCopies[i], request.targetDir, request.composeDir);
    } else {
      VolumeNameIsSegment(request.namedVolumes[i - |request.bindCopies|], request.targetDir);
    }
  }

  lemma {:induction false} DestinationComesFrom(outcomes: seq<Outcome>, d: Destination) returns (i: nat)
    requires d in Destinations(outcomes)
    ensures i < |outcomes| && outcomes[i] == Accepted(Some(d))
  {
    var init := outcomes[..|outcomes| - 1];
    if d in Destinations(init) {
      i := DestinationComesFrom(init, d);
    } else {
      i := |outcomes| - 1;
    }
  }
}
