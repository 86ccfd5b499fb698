# Verified models of Docktor's hard logic

Docktor manages Docker Compose stacks. This project models the parts of it whose correctness is hardest to see by reading
and proves what they promise, for every input, run or interleaving:

- **Migrating an existing stack.** The rewriter moves inline environment literals of a compose file into `.env` under
  allocated names, as splices on the original text (`SourceEdits`, `ComposeRewriter`, `ComposeExtraction`, `DotenvFormat`,
  `HostPorts`, `ComposeProjectName`). Directory identity and the destination checks decide whether a run is safe
  (`DirectoryIdentity`, `MigrationTarget`, on the paths of `Paths`). The executor stops, renames aside, creates, copies,
  writes, records and deploys, and rolls back after a failure at any point (`MigrationService`, on the disk of `FileTree`
  and the fallible calls of `MigrationPorts`; `MigrationPlans` and `MigrationCopies` hold the invariants).
- **Shared and fault-tolerant state.** The refcounted network attachment of health probes (`NetworkAttachments`), the probe
  health beside a database that may fail (`ServiceHealth`), incidents (`IncidentTracker`) and the registry of background
  migrations (`MigrationOperations`), with the browser's view of it (`ClientSnapshots`).
- **Arithmetic, parsing and fresh names.** Uptime (`Uptime`), the lossless `.env` editor (`EnvFile`), proposed volume
  targets (`VolumePaths`).
- **The status machine.** Deploying, updating and upgrading a stack, and the catch-up afterwards (`StackService`,
  `StackStatus`).

Each module names the file it models. Code that changes things step by step is a class or a method with loops, proved
against a specification function; the properties are lemmas about that function, or the method's own `ensures`. A call
that can fail takes its outcome from an oracle (a fault value of `Failures`, or the `faults` of a `Host`) that the proofs
leave arbitrary. `Text` holds what the modules share.

Assumptions, all of them about the environment: renames are atomic, there are no symbolic links, a Docker call takes effect
before it settles or not at all, and nothing else changes the disk while a migration runs. Where the system takes a lock,
calls under it are modelled as one atomic step.

## What turned out not to hold

These promises fail for some inputs; the model keeps the code as it is, shows an input, and says exactly when they hold.

- A name that a compose file references only through an escape (`"\x24PORT"`, in an environment entry, an `image` or
  anywhere else) is invisible to the name scan, so the rewriter can allocate it and change what the value means
  (`ComposeRewriter.HiddenReferenceChangesMeaning`). A file is safe under every `.env` and shell if and only if no value
  references, unspelled, a name that one of the file's own literals could be moved to (`HidesMovable`, decided on the file
  alone; `MeaningKeptIff`). Files whose spellings show their references are safe (`ShowingDocumentsHideNothing`).
- For the same reason the refusal of a shared project name misses `name: "\x24PORT"`
  (`ComposeProjectName.HiddenNameIsShared`); the prediction is right for every `.env` if and only if `name:` references no
  such name (`PredictionHoldsIff`).
- A volume entry written as a block scalar is not edited, so it does not follow its data: after the pass an entry reads what
  the rules ask for if and only if it is no block scalar or read that before (`ComposeRewriter.MovedVolumeReads`).
- When creating the stack record takes effect but its answer is lost, the record outlives the rollback
  (`MigrationService.LostAnswerLeavesARecord`). After a single failure the records are restored if and only if that is not
  what happened (`Execute`).
- `startsWith("..")` also rejects names such as `..data`. So two spellings of a directory with such a name are not
  recognised as one (`DirectoryIdentity.DottedNameIsMissed`, `AliasesAreSameIff`), and after an in-place rename a source
  with such a name, or the old directory itself, is looked for where it no longer is
  (`MigrationPlans.DottedSourceIsNotFollowed`, `RelocationFollowsIff`).
- Removing every row of a file that has only variable lines leaves one blank line that was not there
  (`EnvFile.EmptiedFileGainsALine`, `EditedDocumentReadsBack`).
- A probe result whose row write works and whose status write fails leaves the stack status stale, and the next good result
  does not repair it (`ServiceHealth.StaleStatusStays`); a result repairs the status if and only if its health differs from
  the stored one (`StatusIsRightIff`).
- `upgradeServiceImage` leaves the stack in UPDATING when its compose file cannot be written
  (`StackService.FullDiskStrandsAnUpgrade`, `OnlyTheComposeWriteStrands`).

## Model

| member | source | states |
|---|---|---|
| SourceEdits.ApplyFailsIffOverlap | server/src/infrastructure/compose-rewriter.ts:96-109 | applying the splices fails if and only if two of them overlap |
| SourceEdits.ApplyLength | server/src/infrastructure/compose-rewriter.ts:96-109 | the length changes by exactly the sum of the splices' differences |
| SourceEdits.ApplyCopiesTheRest | server/src/infrastructure/compose-rewriter.ts:96-109 | every character outside the splices is copied, shifted by the splices before it |
| SourceEdits.ApplyPlacesTexts | server/src/infrastructure/compose-rewriter.ts:96-109 | every splice's text stands at its start, moved by the growth of the splices in front of it |
| SourceEdits.ApplyPlacesTextAt | server/src/infrastructure/compose-rewriter.ts:96-109 | at distinct places that position follows from the set of splices alone |
| SourceEdits.ApplyIgnoresAddOrder | server/src/infrastructure/compose-rewriter.ts:59-109 | splices at distinct places give the same result in whatever order they were added |
| SourceEdits.SourceEdits.Apply | server/src/infrastructure/compose-rewriter.ts:96-109 | the sorting and cursor loop computes the specified splicing |
| ComposeRewriter.EnvNameAllocator.Allocate | server/src/infrastructure/compose-rewriter.ts:181-224 | picks the first usable candidate, and keeps the emitted entries good: legal fresh names, one value each |
| ComposeRewriter.AllocationKeeps | server/src/infrastructure/compose-rewriter.ts:189-223 | an allocated name carries the value it was asked for, and earlier entries stay |
| ComposeExtraction.LiteralIff | server/src/infrastructure/compose-rewriter.ts:294-305 | exactly which entries move and with which text: a writable string, or a boolean or decimal integer as it is spelled, under a valid name and not in a block scalar |
| ComposeExtraction.CandidatesAre | server/src/infrastructure/compose-rewriter.ts:189-195 | the names tried: the key, then the key behind the service's name, then that with the numbers 2 to 99 |
| ComposeExtraction.PrefixIs | server/src/infrastructure/compose-rewriter.ts:153-157 | how a service name becomes a name prefix: small letters become capitals, what is neither letter nor digit an underscore |
| ComposeExtraction.UsableIff | server/src/infrastructure/compose-rewriter.ts:210-223 | a name can carry a value unless it is reserved, compose's own, bound to another value, or referenced without having a value |
| ComposeRewriter.RewriteKeeps | server/src/infrastructure/compose-rewriter.ts:275-305 | over the whole document the emitted names stay fresh with one value each, and every piece is a carrying reference or as it was |
| ComposeExtraction.EntriesAreExtracted | server/src/infrastructure/compose-rewriter.ts:275-305 | every literal becomes `${name}` in its own quotes, where the name is the first one not taken, and compose reads the literal back there; it stays exactly when all names are taken; nothing else but moved volumes changes |
| ComposeExtraction.NothingElseIsWritten | server/src/infrastructure/compose-rewriter.ts:307-313 | each new `.env` line is the literal of some entry that now refers to it |
| ComposeRewriter.NewVariables | server/src/infrastructure/compose-rewriter.ts:181-224 | reading the new `.env` under the shell gives the old variables plus one per allocated name |
| ComposeRewriter.LookupsKeptIff | server/src/infrastructure/compose-rewriter.ts:163-223 | a set of names resolves as before if and only if none of them was allocated |
| ComposeRewriter.MeaningKeptIff | server/src/infrastructure/compose-rewriter.ts:449-484 | every rewrite of a file keeps all references, all spelled names and the meaning of every value, if and only if no value hides a reference to a name that one of its literals could be moved to |
| ComposeRewriter.RewritePreservesMeaning | server/src/infrastructure/compose-rewriter.ts:449-484 | for such a file, every `.env`, reserved set and shell: every environment value, moved volume and other scalar of the rewritten file resolves, with the new `.env`, to what it resolved to before |
| ComposeRewriter.ShowingDocumentsHideNothing | server/src/infrastructure/compose-rewriter.ts:163-165 | files whose spellings show every reference their values make are safe |
| ComposeRewriter.VerbatimHidesNothing | server/src/infrastructure/compose-rewriter.ts:163-165 | a scalar that spells its value verbatim shows its references |
| ComposeRewriter.HiddenReferenceChangesMeaning | server/src/infrastructure/compose-rewriter.ts:163-165 | a reference hidden by an escape, in an environment entry or anywhere else, is not seen, and the value changes its meaning |
| ComposeRewriter.Rewrite | server/src/infrastructure/compose-rewriter.ts:449-484 | one pass over environment entries and service volumes: the spliced text is exactly the source of the rewritten document; edits never overlap |
| ComposeRewriter.LastConvertedWins | server/src/infrastructure/compose-rewriter.ts:112-124 | a path is rewritten if and only if some converted selection names it, and then to what the last of them asks for |
| ComposeRewriter.ShortFormKeepsTheRest | server/src/infrastructure/compose-rewriter.ts:140-148 | only the host part of a short-form entry is replaced; everything from the first colon on is kept |
| ComposeRewriter.ShortFormMoves | server/src/infrastructure/compose-rewriter.ts:126-148 | a bind mount goes where its last converted selection says, a converted named volume below `./volumes`, and nothing else moves |
| ComposeRewriter.LongFormAgreesWithShort | server/src/infrastructure/compose-rewriter.ts:317-331 | the long form moves a source to the place the short form moves it to; a converted named volume becomes a bind mount |
| ComposeRewriter.MovedVolumeReads | server/src/infrastructure/compose-rewriter.ts:68-89 | after the pass an entry reads the path the rules ask for, if and only if it is no block scalar or read it before |
| HostPorts.ParseEnvAssignments | server/src/domain/host-ports.ts:41-62 | the line loop computes the specified assignments |
| HostPorts.LineAssigns | server/src/domain/host-ports.ts:41-62 | `KEY=value` assigns, with or without `export` and with white space around both; the value loses one pair of quotes |
| HostPorts.NothingAssigned | server/src/domain/host-ports.ts:45-52 | blank lines, comments and lines without a key or without `=` assign nothing |
| HostPorts.UnquoteStripsOnce | server/src/domain/host-ports.ts:53-59 | one pair of matching quotes goes, and only one |
| HostPorts.LastAssignmentWins | server/src/domain/host-ports.ts:41-62 | a name has the value of its last assignment, and no value without one |
| HostPorts.InterpolateEnv | server/src/domain/host-ports.ts:122-153 | the scan with its unresolved flag computes the specified interpolation |
| HostPorts.UnresolvedIff | server/src/domain/host-ports.ts:122-153 | interpolation fails if and only if some reference has neither a value nor a default |
| HostPorts.InterpolationNeedsOnlyReferences | server/src/domain/host-ports.ts:122-153 | the result depends only on the names the text references |
| HostPorts.InterpolateBraced | server/src/domain/host-ports.ts:122-153 | `${NAME}` alone resolves to that variable |
| HostPorts.BracedReference | server/src/domain/host-ports.ts:122-153 | `${NAME}` in front of any text gives the value, even an empty one, and fails without one |
| HostPorts.ColonDashReference | server/src/domain/host-ports.ts:135-140 | `${NAME:-d}` gives the default for an unset and for an empty variable |
| HostPorts.DashReference | server/src/domain/host-ports.ts:141-146 | `${NAME-d}` gives the default for an unset variable only |
| HostPorts.BareReference | server/src/domain/host-ports.ts:122-153 | `$NAME` ends at the first character that cannot belong to the name |
| HostPorts.OtherDollar | server/src/domain/host-ports.ts:122-126 | every other `$` is copied: before something that starts no name, and before a brace without a well-formed reference |
| HostPorts.InterpolateBehind | server/src/domain/host-ports.ts:122-153 | text without `$` is copied, whatever follows |
| HostPorts.ReferencedIff | server/src/infrastructure/compose-rewriter.ts:163-165 | a name is referenced if and only if `$name` or `${name` stands somewhere and ends there |
| DotenvFormat.FormattedLineIs | server/src/infrastructure/dotenv-format.ts:9-26 | plain values stay unquoted, every other one is put in single quotes |
| DotenvFormat.FormattedLineReadsBack | server/src/infrastructure/dotenv-format.ts:19-26 | a printed line of a safe value reads back as exactly that assignment |
| DotenvFormat.MergedEnvReadsBack | server/src/application/migration-service.ts:666-681 | reading the merged text gives the old assignments followed by the extracted ones |
| DotenvFormat.OldTextIsKept | server/src/application/migration-service.ts:666-681 | the merged file begins with the old text and ends with the extracted lines; without either there is no file |
| DotenvFormat.DotenvRoundTrip | server/src/application/migration-service.ts:666-681 | with fresh distinct names every old and every new value is read back unchanged |
| ComposeProjectName.NormalizedIsLegal | server/src/domain/compose-project-name.ts:23-28 | normalising gives a legal name and is idempotent |
| ComposeProjectName.LegalNamesAreKept | server/src/domain/compose-project-name.ts:23-28 | a legal name is not changed |
| ComposeProjectName.CapitalsBecomeSmall | server/src/domain/compose-project-name.ts:23-28 | capitals become small letters |
| ComposeProjectName.OthersVanish | server/src/domain/compose-project-name.ts:23-28 | characters a name cannot hold vanish |
| ComposeProjectName.ForeignCapitals | server/src/domain/compose-project-name.ts:23-28 | the two capitals outside ASCII that have a small letter of their own are lowered too |
| ComposeProjectName.LeadingMarksVanish | server/src/domain/compose-project-name.ts:23-28 | so do `_` and `-` at the start |
| ComposeProjectName.ThreeCandidates | server/src/domain/compose-project-name.ts:53-67 | `COMPOSE_PROJECT_NAME`, then `name:`, then the directory: the first that is not empty when normalised |
| ComposeProjectName.PredictedNameHolds | server/src/domain/compose-project-name.ts:53-67 | unless `name:` hides a movable name, the name predicted from the old files is the name computed from the rewritten file and the merged `.env` |
| ComposeProjectName.PredictionHoldsIff | server/src/domain/compose-project-name.ts:53-67 | for every old `.env` the variables of `name:` and the project name stay the same, if and only if `name:` references no hidden name that a literal could take |
| ComposeProjectName.SharedNameIsExact | server/src/application/migration-service.ts:345-354 | unless `name:` hides a movable name, the refusal fires if and only if old and new stack would run under one non-empty name |
| ComposeProjectName.HiddenNameIsShared | server/src/application/migration-service.ts:345-354 | with an escaped `name:` the refusal misses a name that both stacks get |
| DirectoryIdentity.HostPathsOfContainerPath | server/src/domain/directory-identity.ts:53-70 | collects every host path a container path shows, once each |
| DirectoryIdentity.ContainerVisiblePaths | server/src/domain/self-stack-paths.ts:33-50 | lists the identical path, then one path per bind mount above it, in mount order |
| DirectoryIdentity.ListedAliasesAreSame | server/src/domain/directory-identity.ts:77-115 | any two listed container paths of one host directory have identities that relate as the same |
| DirectoryIdentity.ListedIff | server/src/domain/directory-identity.ts:77-85 | a path is listed for a host directory if and only if some bind mount of it or above it shows the directory there and no dotted name hides it |
| DirectoryIdentity.RelateIsSymmetric | server/src/domain/directory-identity.ts:154-169 | the relation of two identities does not depend on their order |
| DirectoryIdentity.SameIff | server/src/domain/directory-identity.ts:104-169 | from any view, directories are the same if and only if a spelling of each is: equal, or known under one host path |
| DirectoryIdentity.UnrelatedIff | server/src/domain/directory-identity.ts:104-169 | they are unrelated if and only if no spellings of them overlap, neither as spelled nor under any host paths known |
| DirectoryIdentity.UnrelatedIsDisjoint | server/src/domain/directory-identity.ts:154-169 | unrelated directories do not overlap, under any host path either of them shows |
| DirectoryIdentity.ShownAliasesAreSame | server/src/domain/directory-identity.ts:53-115 | two paths that really show one host directory are recognised, unless a name beginning with two dots hides it |
| DirectoryIdentity.AliasesAreSameIff | server/src/domain/directory-identity.ts:53-115 | under any mounts two spellings are recognised if and only if a bind mount above each gives one host path and neither goes on below that mount with a name that begins with two dots |
| DirectoryIdentity.DottedNameIsMissed | server/src/domain/directory-identity.ts:53-70 | two spellings of a directory named `..snap` are taken for different directories |
| MigrationTarget.SeparateTargetsAreDisjoint | server/src/domain/migration-target.ts:23-32 | a target called separate does not overlap the old directory, whatever the spellings |
| MigrationTarget.ClassifiedIff | server/src/domain/migration-target.ts:23-32 | exactly which targets are in place, separate and nested, in terms of spellings and host paths |
| MigrationTarget.AsideNamesAre | server/src/domain/migration-target.ts:38-41 | `<id>-pre-migration`, then with the numbers from 2 |
| MigrationTarget.AsideNamesAreDistinct | server/src/domain/migration-target.ts:38-41 | the names tried for the renamed original are distinct and differ from the stack id |
| MigrationTarget.Collisions | server/src/domain/migration-target.ts:122-137 | the nested loops give the specified messages, in order |
| MigrationTarget.ReportedIff | server/src/domain/migration-target.ts:122-137 | a message is given if and only if some pair of destinations is equal or nested, and it names that pair and which of the two it is |
| MigrationTarget.CopyDestinationViolations | server/src/domain/migration-target.ts:144-166 | the loops compute the specified list of violations |
| MigrationTarget.NoCollisionsIff | server/src/domain/migration-target.ts:122-137 | nothing is reported if and only if the destinations are pairwise neither equal nor nested |
| MigrationTarget.BindAcceptedIff | server/src/domain/migration-target.ts:84-113 | exactly when a bind mount's destination is let through |
| MigrationTarget.RefusedBecause | server/src/domain/migration-target.ts:84-113 | exactly which of the four reasons a refused destination is given |
| MigrationTarget.ReservedIff | server/src/domain/migration-target.ts:54-61 | reserved are exactly the four compose names, `.env` and the backup's name, however capitalised |
| MigrationTarget.StackDirectoryMounts | server/src/domain/migration-target.ts:84-86 | `.` and the absolute spelling name the stack's own directory, `~` and anything inside it do not |
| MigrationTarget.NoViolationsIff | server/src/domain/migration-target.ts:144-166 | a request passes if and only if every destination is legal and no two collide |
| MigrationTarget.ViolationsIff | server/src/domain/migration-target.ts:144-166 | the answer holds exactly the refusals of single destinations, the invalid volume names and the colliding pairs |
| MigrationTarget.DestinationsAreSafe | server/src/domain/migration-target.ts:88-120 | after an empty answer every destination is inside the target, clear of compose, `.env` and backup names |
| FileTree.RenameMoves | server/src/infrastructure/volume-migrator.ts:100-111 | a renamed directory is at its new name as it was, and nothing is left at the old one |
| FileTree.CopiedIsExact | server/src/infrastructure/volume-migrator.ts:73-93 | copied to a vacant place, a tree is there exactly |
| FileTree.SubtreeKept | server/src/infrastructure/volume-migrator.ts:73-93 | a change confined to one place does not touch a disjoint tree |
| FileTree.CopyKeepsWellFormed | server/src/infrastructure/volume-migrator.ts:73-93 | a copy leaves every entry in a directory |
| FileTree.RenameKeepsWellFormed | server/src/infrastructure/volume-migrator.ts:100-111 | a rename into a free name leaves every entry in a directory |
| FileTree.TakenIsPresent | server/src/application/migration-service.ts:103-113 | on a disk where every entry lies in a directory, a path is taken exactly when it has an entry |
| MigrationPorts.Host.MoveDirectory | server/src/infrastructure/volume-migrator.ts:100-111 | renames only to a free name; a rejected rename changes nothing |
| MigrationPorts.Host.CreateDirectoryExclusive | server/src/infrastructure/stack-filesystem.ts:18-32 | never adopts an existing directory; a refusal leaves at most parent directories |
| MigrationPorts.Host.CopyDirectory | server/src/infrastructure/volume-migrator.ts:73-93 | a copy merges into a directory or fails; whatever happens stays at the destination and its missing parents |
| MigrationPorts.Host.CopyVolumeToBindMount | server/src/infrastructure/volume-migrator.ts:52-66 | puts the volume's content at the destination; whatever happens stays there |
| MigrationPorts.Host.RemoveDirectory | server/src/infrastructure/stack-filesystem.ts:62-64 | removes the tree, or any part of it when it fails, and nothing else |
| MigrationPlans.RelocationFollowsIff | server/src/application/migration-service.ts:120-124 | a source at or below the renamed directory is followed if and only if it is below it and its name does not begin with two dots |
| MigrationPlans.RelocationLeavesOthers | server/src/application/migration-service.ts:120-124 | a source outside the original directory is left alone |
| MigrationPlans.DottedSourceIsNotFollowed | server/src/application/migration-service.ts:120-124 | a source called `..data` is read from where it no longer is |
| MigrationPlans.KeepsMovedBack | server/src/application/migration-service.ts:763-777 | moving the original back restores every old entry and leaves at most new parent directories |
| MigrationPlans.RemovalRestores | server/src/application/migration-service.ts:599-606 | removing a separate new directory restores the disk up to new parent directories |
| MigrationCopies.CheckedPlacesAreApart | server/src/domain/migration-target.ts:144-166 | an empty list of violations puts every copy at a safe place of its own |
| MigrationCopies.CheckedPlanIsApart | server/src/domain/migration-target.ts:144-166 | with sources clear of the target, an empty list of violations is all that the exact half of Execute asks of a plan |
| MigrationCopies.CopiedNext | server/src/application/migration-service.ts:537-549 | the next copy touches neither what is copied already nor the places still to come |
| MigrationCopies.SourceAfterPrepare | server/src/application/migration-service.ts:494-495 | after the rename every source, relocated or not, has its old content |
| MigrationCopies.DeliveredWithFiles | server/src/application/migration-service.ts:551-569 | writing the compose file and `.env` changes no copied tree |
| MigrationCopies.DeliveredInAnyOrder | server/src/application/migration-service.ts:537-549 | what a successful run delivers does not depend on the order of the copies |
| MigrationCopies.DeliveredMeans | server/src/application/migration-service.ts:526-549 | entry by entry: volumes below `volumes`, each source at the place asked for, an empty directory for an absent one, the backup |
| MigrationCopies.HasFilesMeans | server/src/application/migration-service.ts:551-569 | `docker-compose.yml` and `.env` are what the rewriter makes of the old compose file and the old `.env` |
| MigrationCopies.RecordNamesTheStack | server/src/application/migration-service.ts:573-581 | the record has the display name, the new directory and the new compose text, and says kept-at exactly for a run in place |
| MigrationService.MigrationService.FirstFreeAsideDir | server/src/application/migration-service.ts:746-755 | finds the first free candidate, and gives up only when all are taken |
| MigrationService.MigrationService.PlanInPlace | server/src/application/migration-service.ts:722-743 | an in-place plan exists only for a stack that will be stopped, with a free sibling of another name |
| MigrationService.MigrationService.Prepare | server/src/application/migration-service.ts:502-524 | stop, rename aside and create, in this order: nothing on the disk changes before the old stack is down, and after each failure the flags say exactly what was done |
| MigrationService.MigrationService.CopyNamedVolumes | server/src/application/migration-service.ts:537-546 | each named volume's content is at its own place; nothing outside the target changes |
| MigrationService.MigrationService.CopyBindMounts | server/src/application/migration-service.ts:689-713 | each source's tree is at its own place; nothing outside the target changes |
| MigrationService.MigrationService.WriteNewEnv | server/src/application/migration-service.ts:666-681 | writes the merged text, or copies the old file, or writes nothing |
| MigrationService.MigrationService.Publish | server/src/application/migration-service.ts:551-587 | the new files come from the old text; a record is created only under a free id |
| MigrationService.MigrationService.MoveOriginalBack | server/src/application/migration-service.ts:763-777 | moves the original back only into a free path, and says where it is |
| MigrationService.MigrationService.Rollback | server/src/application/migration-service.ts:593-626 | undoes only what this run did; restarts the old stack exactly when this run stopped it and its directory is back |
| MigrationService.MigrationService.LostAnswerLeavesARecord | server/src/application/migration-service.ts:571-606 | a record whose creation took effect and rejected stays after every rollback |
| MigrationService.MigrationService.Attempt | server/src/application/migration-service.ts:490-591 | the steps up to the deployment: what they deliver together, and what the flags say after a failure of any of them |
| MigrationService.MigrationService.Execute | server/src/application/migration-service.ts:490-627 | for every plan and every failure the old tree ends where the result says and nothing foreign is removed or changed; a successful run has stopped the old stack if and only if asked to; a single failure leaves no directory behind, and no record unless the answer of its creation was lost; a run without failures delivers every tree and file |
| NetworkAttachments.InvStep | server/src/infrastructure/probe-transport.ts:164-237 | every atomic step keeps the invariant |
| NetworkAttachments.CountIsJoined | server/src/infrastructure/probe-transport.ts:180-197 | in every interleaving the count is the number of probes joined to the current attachment |
| NetworkAttachments.AtMostOneCall | server/src/infrastructure/probe-transport.ts:199-208 | at most one connect or disconnect call per network is in flight |
| NetworkAttachments.RunningIsUndisturbed | server/src/infrastructure/probe-transport.ts:171-178 | while a probe's request runs Docktor is connected and no disconnect is in flight |
| NetworkAttachments.AllEndedLeavesNothing | server/src/infrastructure/probe-transport.ts:210-224 | when all probes have ended no attachment and no detaching entry remains |
| NetworkAttachments.AllEndedIsDisconnected | server/src/infrastructure/probe-transport.ts:199-224 | and when Docker answered rightly Docktor has left every network it had joined |
| NetworkAttachments.LastOneOutDisconnects | server/src/infrastructure/probe-transport.ts:210-224 | the last probe out leaves a disconnect in flight and cannot end before it settles; any other one ends at once |
| NetworkAttachments.NoDeadlock | server/src/infrastructure/probe-transport.ts:164-237 | as long as a probe has not ended some step other than a new probe can happen |
| NetworkAttachments.RunsEnd | server/src/infrastructure/probe-transport.ts:164-237 | from any reachable state only a bounded number of steps can happen without a new probe, so every probe ends |
| NetworkAttachments.NetworkAttachments.Acquire | server/src/infrastructure/probe-transport.ts:180-197 | joins the active attachment or starts one behind a disconnect in flight |
| NetworkAttachments.NetworkAttachments.Release | server/src/infrastructure/probe-transport.ts:210-224 | the last probe out starts the disconnect |
| NetworkAttachments.NetworkAttachments.ForgetFailed | server/src/infrastructure/probe-transport.ts:187-194 | a rejected connect is forgotten only while it is still the network's attachment |
| NetworkAttachments.NetworkAttachments.FinishRelease | server/src/infrastructure/probe-transport.ts:219-223 | a settled disconnect clears its own detaching entry and no later one |
| ServiceHealth.ThresholdAlwaysHolds | server/src/domain/health-probe.ts:69-97 | in every state reachable by results and clears, unhealthy means at least three failures in a row, and nothing else does |
| ServiceHealth.ServiceHealthService.ApplyProbeResult | server/src/application/service-health-service.ts:115-170 | early advance, restore and writes give the specified entry, row and announcements for every failure of the database |
| ServiceHealth.ServiceHealthService.ApplyProbeCleared | server/src/application/service-health-service.ts:192-217 | forgets the probe and gives the specified row and announcements for every failure |
| ServiceHealth.CountedExactlyOnce | server/src/application/service-health-service.ts:115-170 | in every state and whichever calls fail, a result that applies advances the state by exactly one step and any other leaves it |
| ServiceHealth.NothingUntrueIsAnnounced | server/src/application/service-health-service.ts:269-319 | whatever fails, every announced health and status is the stored one |
| ServiceHealth.ChangesAreAnnounced | server/src/application/service-health-service.ts:269-319 | and every stored change is announced, as far as it was stored, with the history message of its result |
| ServiceHealth.ClearedProbeLeavesTheTruth | server/src/application/service-health-service.ts:192-217 | after a clear without failures the row shows what Docker reports, or nothing for a stopped container, and the announcements say so |
| ServiceHealth.RunningAgainIsLeftAlone | server/src/application/service-health-service.ts:195-204 | a clear does nothing to a container that runs again, during an operation, or unread |
| ServiceHealth.FailuresDoNotMatter | server/src/application/service-health-service.ts:115-170 | over any run with any failures the remembered state is what counting each result once gives |
| ServiceHealth.HealthIsTheVerdict | server/src/domain/health-probe.ts:62-82 | over any run of a new container with any failures: once it has answered, failures in a row count, before that those after its first minute; from three on it is unhealthy |
| ServiceHealth.SlowStartIsForgiven | server/src/domain/health-probe.ts:73-76 | failures within the first minute are forgiven, three later ones are not |
| ServiceHealth.StartingIsForgiven | server/src/domain/health-probe.ts:73-76 | whatever fails, a failed result of a starting container in its first minute counts for nothing |
| ServiceHealth.NewContainerStartsOver | server/src/application/service-health-service.ts:329-354 | the first result of a replaced or restarted container counts from the start |
| ServiceHealth.RowIsTheTruth | server/src/application/service-health-service.ts:320-343 | after a restart of Docktor, or when someone reset the row, counting goes on from the stored health |
| ServiceHealth.ForeignResultsAreIgnored | server/src/application/service-health-service.ts:134-151 | a result of a container that is not the row's running one, or during an operation, changes and announces nothing |
| ServiceHealth.ThreeFailuresAreNoticed | server/src/domain/health-probe.ts:69-82 | three failed probes past the grace period make a service unhealthy however many database calls failed |
| ServiceHealth.FaultFreeResultIsStored | server/src/application/service-health-service.ts:153-169 | after one result without failures the row shows the remembered health |
| ServiceHealth.StatusIsRightIff | server/src/application/service-health-service.ts:269-299 | after such a result the stack status is right if and only if the result's health differs from the stored one or the status was right before |
| ServiceHealth.StaleStatusStays | server/src/application/service-health-service.ts:155-158 | a failed status write is never repeated |
| StackStatus.DerivationIgnoresOrder | server/src/domain/stack-state-derivation.ts:26-55 | the derived status depends on which states occur, not on their order or number |
| StackStatus.DerivedIff | server/src/domain/stack-state-derivation.ts:26-55 | exactly when each status is derived, by the container states and healths that occur |
| StackStatus.DerivedIsNotTransitional | server/src/domain/stack-state-derivation.ts:26-55 | observation never yields a status that belongs to an operation |
| StackStatus.NoActionDuringAnother | server/src/domain/stack-status-machine.ts:12-47 | no action is allowed from a transitional status |
| StackStatus.ActionsByStatus | server/src/domain/stack-status-machine.ts:12-47 | which actions each status allows |
| StackService.StackService.CatchUp | server/src/application/container-state-catch-up.ts:85-114 | leaves a transitional status alone and never writes one; the status is derived only after every row was written |
| StackService.ObservedState | server/src/application/container-state-catch-up.ts:157-204 | the row gets its first container's id, and its state as inspected, or as listed when inspecting fails |
| StackService.WithoutContainerIsExited | server/src/application/container-state-catch-up.ts:157-170 | a service without a container has exited |
| StackService.ObservedHealth | server/src/application/container-state-catch-up.ts:157-204 | a probed service keeps the probe's health whatever Docker says, unless its only container replaced another one; any other shows Docker's |
| StackService.SeveralReplaceNothing | server/src/application/container-state-catch-up.ts:175-176 | of several containers none counts as a replacement |
| StackService.StackService.DeployStack | server/src/application/stack-service.ts:507-587 | ends in a transitional status if and only if the named status writes fail |
| StackService.StackService.UpdateImages | server/src/application/stack-service.ts:636-716 | ends in a transitional status if and only if the named status writes fail |
| StackService.StackService.UpgradeServiceImage | server/src/application/stack-service.ts:773-874 | is stranded exactly when the named writes fail; a failed pull or up leaves the compose file unchanged when the restore works |
| StackService.OnlyTheComposeWriteStrands | server/src/application/stack-service.ts:813-847 | with working error-status writes only the compose write of an upgrade can strand a stack |
| Uptime.ComputeUptime | server/src/domain/uptime.ts:55-89 | the interval sums are the number of milliseconds in the window whose status is up, or down |
| Uptime.ClassAtIff | server/src/domain/uptime.ts:16-43 | an instant is up while the latest status is running or healthy, down while it is unhealthy or error |
| Uptime.ObservedTimeIsConserved | server/src/domain/uptime.ts:55-89 | up, down and neutral time add up to the observed span |
| Uptime.CountMsSplits | server/src/domain/uptime.ts:55-89 | the figures of two adjacent windows add up to those of the whole |
| EnvFile.SerializeParse | client/src/lib/env-file.ts:36-49 | serialising a parsed text gives the text, for every string |
| EnvFile.VariableIff | client/src/lib/env-file.ts:26-44 | exactly which lines are variables, and with which key and value |
| EnvFile.UneditedTableIsIdentity | client/src/lib/env-file.ts:52-104 | applying the unedited table gives the text, for every string |
| EnvFile.ApplyTableRows | client/src/lib/env-file.ts:68-104 | the map, the output list and the splice compute the specified lines |
| EnvFile.EditedDocumentReadsBack | client/src/lib/env-file.ts:36-104 | re-parsing gives the kept rows in document order and then the new ones; other lines are kept if and only if something is left |
| EnvFile.FinalNewlineStays | client/src/lib/env-file.ts:94-103 | a final newline stays at the end, behind all new lines |
| EnvFile.LastRowWins | client/src/lib/env-file.ts:68-76 | of several rows for one line the last one counts |
| EnvFile.EmptiedFileGainsALine | client/src/lib/env-file.ts:103 | an emptied document reads as one blank line |
| MigrationOperations.AtMostFiftyFinished | server/src/domain/migration-operation.ts:70-83 | after a prune at most fifty finished operations remain, all of them recent |
| MigrationOperations.OnlySurplusIsDropped | server/src/domain/migration-operation.ts:70-83 | a dropped operation finished over an hour ago or has fifty newer finished ones before it |
| MigrationOperations.StartsAndListsPrune | server/src/application/migration-operation-service.ts:59-64 | every start and every listing leaves at most fifty finished operations, all running ones, newest first |
| MigrationOperations.InvStep | server/src/application/migration-operation-service.ts:59-180 | every step of the registry keeps its invariant |
| MigrationOperations.HeldKeysAreExact | server/src/application/migration-operation-service.ts:105-127 | the held keys are exactly those of starts in preflight or executing, each held once |
| MigrationOperations.RefusedIff | server/src/application/migration-operation-service.ts:105-121 | a start is refused if and only if another live one is for the same stack or compose file |
| MigrationOperations.RunningOperationsAreApart | server/src/application/migration-operation-service.ts:105-121 | no two running operations share a stack or a compose file |
| MigrationOperations.RunningIsNeverPruned | server/src/application/migration-operation-service.ts:142-153 | an executing start always finds its operation, still running |
| MigrationOperations.SettledIsFinished | server/src/application/migration-operation-service.ts:155-165 | when its execution settles an operation is finished |
| MigrationOperations.StepsAreRecorded | server/src/domain/migration-operation.ts:14-58 | what starting, each step and settling leave in the operation |
| MigrationOperations.FinishedIsFinal | server/src/domain/migration-operation.ts:33-42 | a finished operation never changes again |
| MigrationOperations.MigrationOperationService.HoldInFlight | server/src/application/migration-operation-service.ts:105-121 | holds both keys, or none when one is held already |
| MigrationOperations.MigrationOperationService.BeginStart | server/src/application/migration-operation-service.ts:59-64 | prunes, then holds the keys or refuses, in one turn |
| MigrationOperations.MigrationOperationService.RefusePreflight | server/src/application/migration-operation-service.ts:65-68 | a refused preflight frees exactly the keys this start held |
| MigrationOperations.MigrationOperationService.BeginRun | server/src/application/migration-operation-service.ts:69-80 | stores the new operation as running |
| MigrationOperations.MigrationOperationService.RecordStep | server/src/application/migration-operation-service.ts:129-134 | moves a running operation to its next step and leaves a finished one alone |
| MigrationOperations.MigrationOperationService.FinishRun | server/src/application/migration-operation-service.ts:155-165 | finishes the operation and frees exactly its own keys |
| IncidentTracker.NeverTwoOpen | server/src/application/incident-tracker.ts:35-67 | over every sequence with any failures a stack has at most one open incident and the cache agrees with the table |
| IncidentTracker.FaultFreeObservation | server/src/domain/incident-tracking.ts:20-28 | whatever failed before, one observation without failures puts things right |
| IncidentTracker.OpenIffLastIsBad | server/src/application/incident-tracker.ts:35-67 | without failures an incident is open if and only if the last telling status was UNHEALTHY or ERROR |
| IncidentTracker.OthersAreUntouched | server/src/application/incident-tracker.ts:46-57 | closed incidents and other stacks' incidents stay as they are; an open one keeps its cause |
| IncidentTracker.EpisodeIsRecorded | server/src/application/incident-tracker.ts:35-67 | the only writes: a bad status appends an open incident with its cause and time when none is open, a good one ends the open one |
| IncidentTracker.IncidentTracker.ObserveStackStatus | server/src/application/incident-tracker.ts:35-67 | reading, deciding, writing and forgetting after a failure give the specified cache and table |
| VolumePaths.ResolveRelativePath | client/src/lib/migration-volume-paths.ts:35-49 | the segment stack gives the resolved path, the escape flag and the name |
| VolumePaths.SlashesSeparate | client/src/lib/migration-volume-paths.ts:38 | both slashes separate segments |
| VolumePaths.EscapesIff | client/src/lib/migration-volume-paths.ts:35-49 | the flag is unset if and only if the path stays inside every directory it starts from |
| VolumePaths.VolumesPathFor | client/src/lib/migration-volume-paths.ts:51-58 | the suffix search ends, at the first candidate that is not taken |
| VolumePaths.BuildBindMountChoices | client/src/lib/migration-volume-paths.ts:60-94 | all proposed targets are distinct, differ from every named volume's, and are called after their mounts |
| VolumePaths.SelectionsCollideOnlyWhenKept | client/src/lib/migration-volume-paths.ts:96-109 | two selections ask for one place only if a relative mount is kept where it is |
| VolumePaths.SelectionIs | client/src/lib/migration-volume-paths.ts:96-109 | what is asked for each mount; a relative one is copied even when it stays |
| ClientSnapshots.NeverBackwards | client/src/hooks/use-migration-operations.ts:34-65 | under any reordering, duplication or loss a stored operation never moves backwards |
| ClientSnapshots.TheEndStays | client/src/hooks/use-migration-operations.ts:34-65 | the terminal snapshot, once delivered, is what stays stored |
| ClientSnapshots.FurthestStays | client/src/hooks/use-migration-operations.ts:34-65 | of any running snapshots delivered, one that is furthest along stays stored |
| ClientSnapshots.OrderDoesNotMatter | client/src/hooks/use-migration-operations.ts:34-65 | the stored step is the same for every order and repetition of the same running snapshots |
| ClientSnapshots.LaterStepWins | client/src/hooks/use-migration-operations.ts:34-57 | in the order in which a migration reports its steps a later one replaces an earlier one, never the other way |
| ClientSnapshots.NewsIsTaken | client/src/hooks/use-migration-operations.ts:34-57 | another detail of the same step and another outcome are taken |
| ClientSnapshots.RepetitionIsStale | client/src/hooks/use-migration-operations.ts:34-57 | a repeated snapshot is not taken |
| ClientSnapshots.FollowedIff | client/src/hooks/use-migration-operations.ts:58-65 | a session reports on an operation it has seen running |
| ClientSnapshots.AskedForIsFollowed | client/src/hooks/use-migration-operations.ts:58-65 | and on one it has asked for, even if only its end arrives |
| ClientSnapshots.MigrationOperationsStore.Upsert | client/src/hooks/use-migration-operations.ts:58-65 | stores, follows and reports exactly the snapshots that are not stale |

## Left out

- YAML: parsing, tokens, anchors, flow-style documents, a flow-style `environment: {PORT: 80}` inside a block document, and
  the decoding of escapes. A document is a list of pieces: text between scalars, and scalars, each with its spelling and
  its parsed value.
- RewritePreservesMeaning, PredictedNameHolds, SharedNameIsExact: ask that no movable name is hidden; MeaningKeptIff and
  PredictionHoldsIff say that nothing less will do.
- Rewrite: the top-level `volumes` block, list-form `environment` and `env_file`.
- PredictionHoldsIff: the compose file's top-level `name` is a given text, not found by parsing.
- VariablePrefix: the prefix made of a service name is upper-cased for ASCII only.
- HostPathsOfContainerPath, ContainerVisiblePaths: paths are lists of segments, so the trimming of trailing slashes and
  backslash handling are not modelled; neither are symbolic links.
- ListedAliasesAreSame: asks for aliases listed by the code itself; AliasesAreSameIff covers every other spelling.
- BindAcceptedIff, CopyDestinationViolations: violations are values, not the wording of the messages.
- Execute: the rewriter is a parameter (`ComposeRewriter` models it), `docker compose` changes no file, and what
  containers write into their volumes after the deployment is not modelled; progress reports are left out.
- Delivered trees: proved for plans without a mount of the stack directory itself and without a source that overlaps the
  target in another way than by the rename; the safety half of Execute holds for every plan.
- CopyDirectory: no ownership, modes or timestamps.
- Preflight: what it reads (declared sources, readable mounts, the existing record) appears as the hypotheses `ValidPlan`,
  `CopiesAreApart` and `Ready`.
- NetworkAttachments: deadlines appear only as calls that reject; a connect that takes effect after its deadline, which
  the original documents as an exception, is excluded. A disconnect that rejects without effect leaves Docktor connected;
  AllEndedIsDisconnected is about runs in which Docker answers rightly.
- IncidentTracker, ServiceHealth, MigrationOperations: the database is a value with failing operations; the keyed locks are
  atomic steps.
- DeployStack, UpdateImages, UpgradeServiceImage: the pre-deploy check, digest comparison, status log and bus events.
- CatchUp: a stack that has vanished and a failed listing are one case, and the filter for the stack's own containers has
  been applied.
- ParseEnvFile: JavaScript strings are sequences of characters; only the line terminators that `.` excludes are modelled.
- Docker, restic, git, registry, SMTP and HTTP adapters, timers, Prisma repositories, React components, settings and
  account services: adapters or easy members.
