/** Health derived from HTTP probes: the counting rule (server/src/domain/health-probe.ts) and the service that
    remembers it beside a database that may fail (server/src/application/service-health-service.ts). */
module ServiceHealth {
  import opened Text
  import opened StackStatus
  import opened Failures

  const PROBE_FAILURE_THRESHOLD := 3
  const PROBE_STARTUP_GRACE_MS := 60_000

  datatype ProbeHealth = ProbeHealthy | ProbeUnhealthy | Starting

  datatype ProbeState = ProbeState(consecutiveFailures: nat, health: ProbeHealth)

  function HealthName(health: ProbeHealth): string {
    match health
    case ProbeHealthy => "healthy"
    case ProbeUnhealthy => "unhealthy"
    case Starting => "starting"
  }

  /** One finished probe of a container; `text` is what its outcome reads as. */
  datatype ProbeEvent =
    ProbeEvent(containerId: string, containerStartedAt: Option<string>, ok: bool, text: string, nowMs: int)

  function EvaluateProbe(prev: ProbeState, ok: bool, startedAtMs: int, nowMs: int): ProbeState {
    if ok then ProbeState(0, ProbeHealthy)
    else if prev.health == Starting && nowMs - startedAtMs < PROBE_STARTUP_GRACE_MS then ProbeState(0, Starting)
    else
      var failures := prev.consecutiveFailures + 1;
      ProbeState(failures, if failures >= PROBE_FAILURE_THRESHOLD then ProbeUnhealthy else prev.health)
  }

  function SeedProbeState(stored: Option<string>): ProbeState {
    if stored == Some("unhealthy") then ProbeState(PROBE_FAILURE_THRESHOLD, ProbeUnhealthy)
    else if stored == Some("healthy") then ProbeState(0, ProbeHealthy)
    else ProbeState(0, Starting)
  }

  const NEW_CONTAINER_STATE := ProbeState(0, Starting)

  /** What is remembered about the container last probed; `unwritten` while its health has not reached the row. */
  datatype ProbeEntry = ProbeEntry(containerId: string, startedAt: Option<string>, probe: ProbeState, unwritten: bool)

  datatype ServiceRow = ServiceRow(
    containerId: Option<string>,
    containerState: Option<string>,
    healthStatus: Option<string>)

  /** A stack and its services, by name, in a fixed order. */
  datatype Stack = Stack(status: Status, names: seq<string>, rows: map<string, ServiceRow>)

  type DateParser = string -> Option<int>

  predicate IsNewContainer(existing: ProbeEntry, event: ProbeEvent) {
    existing.containerId != event.containerId ||
    (event.containerStartedAt.Some? && existing.startedAt.Some? && existing.startedAt != event.containerStartedAt)
  }

  function PreviousState(existing: Option<ProbeEntry>, event: ProbeEvent, stored: Option<string>): ProbeState {
    match existing
    case None => SeedProbeState(stored)
    case Some(entry) =>
      if IsNewContainer(entry, event) then NEW_CONTAINER_STATE
      else if entry.unwritten || Some(HealthName(entry.probe.health)) == stored then entry.probe
      else SeedProbeState(stored)
  }

  /** An unknown start time counts as the epoch, so it grants no grace. */
  function StartedAtMs(startedAt: Option<string>, parse: DateParser): int {
    if startedAt.Some? && parse(startedAt.value).Some? then parse(startedAt.value).value else 0
  }

  function KnownStart(existing: Option<ProbeEntry>, event: ProbeEvent): Option<string> {
    if event.containerStartedAt.Some? then event.containerStartedAt
    else if existing.Some? then existing.value.startedAt
    else None
  }

  function NextEntry(existing: Option<ProbeEntry>, event: ProbeEvent, prev: ProbeState, parse: DateParser): ProbeEntry {
    var startedAt := KnownStart(existing, event);
    ProbeEntry(event.containerId, startedAt,
               EvaluateProbe(prev, event.ok, StartedAtMs(startedAt, parse), event.nowMs), false)
  }

  function Observed(stack: Stack, names: seq<string>): seq<ObservedService> {
    if names == [] then []
    else
      (if names[0] in stack.rows then
         [ObservedService(stack.rows[names[0]].containerState, stack.rows[names[0]].healthStatus)]
       else []) + Observed(stack, names[1..])
  }

  function Derived(stack: Stack): Status {
    DeriveStackStatus(Observed(stack, stack.names))
  }

  datatype Faults = Faults(read: Fault, rowWrite: Fault, statusWrite: Fault)

  const NO_FAULTS := Faults(Works, Works, Works)

  /** The service row a result may be applied to: running, and still the probed container. */
  predicate IsApplicable(stack: Option<Stack>, service: string, event: ProbeEvent) {
    stack.Some? && !IsTransitional(stack.value.status) && service in stack.value.rows &&
    stack.value.rows[service].containerState == Some("running") &&
    stack.value.rows[service].containerId == Some(event.containerId)
  }

  datatype HealthSource = DockerHealthcheck | HttpProbe

  /** One health change of a row, whoever caused it. */
  datatype HealthChange = HealthChange(
    containerId: Option<string>,
    containerState: string,
    previous: Option<string>,
    next: Option<string>,
    source: HealthSource,
    message: Option<string>)

  function WithChange(stack: Stack, service: string, change: HealthChange): Stack {
    stack.(rows := stack.rows[service := ServiceRow(change.containerId, Some(change.containerState), change.next)])
  }

  /** The history message; reaching `unhealthy` names the threshold. */
  function DescribeProbeTransition(next: ProbeHealth, event: ProbeEvent): Option<string> {
    if next.ProbeHealthy? && event.ok then Some(event.text)
    else if next.ProbeUnhealthy? && !event.ok then
      Some(event.text + " after " + Decimal(PROBE_FAILURE_THRESHOLD) + " failed checks")
    else None
  }

  function ProbeChange(stored: Option<string>, event: ProbeEvent, health: ProbeHealth): HealthChange {
    HealthChange(Some(event.containerId), "running", stored, Some(HealthName(health)), HttpProbe,
                 DescribeProbeTransition(health, event))
  }

  function WithHealth(stack: Stack, service: string, event: ProbeEvent, health: ProbeHealth): Stack {
    stack.(rows := stack.rows[service :=
      ServiceRow(Some(event.containerId), Some("running"), Some(HealthName(health)))])
  }

  /** What is announced on the event bus. */
  datatype Announcement =
    | HealthChanged(stackId: string, service: string, fromStatus: Option<string>, toStatus: Option<string>,
                    source: HealthSource, message: Option<string>)
    | StateChanged(stackId: string, service: string, containerState: string, healthStatus: Option<string>,
                   stackStatus: Status)

  /** The row's change is announced once it is written, the stack's status once that is written too. */
  function Announced(stackId: string, stack: Stack, service: string, change: HealthChange, faults: Faults)
    : seq<Announcement>
  {
    if faults.rowWrite.Rejects? then []
    else
      var health := HealthChanged(stackId, service, change.previous, change.next, change.source, change.message);
      if faults.statusWrite.Rejects? then [health]
      else
        var status := Derived(WithChange(stack, service, change));
        [health, StateChanged(stackId, service, change.containerState, change.next, status)]
  }

  /** The stored stack after a change, as far as its two writes get. */
  function AfterChange(stack: Stack, service: string, change: HealthChange, faults: Faults): Stack {
    var written := WithChange(stack, service, change);
    if faults.rowWrite.Rejects? then if faults.rowWrite.tookEffect then written else stack
    else if TakesEffect(faults.statusWrite) then written.(status := Derived(written))
    else written
  }

  datatype World = World(entry: Option<ProbeEntry>, stack: Option<Stack>)

  /** What one result does to the remembered entry and the stored stack. */
  function Applied(w: World, service: string, event: ProbeEvent, parse: DateParser, faults: Faults): World {
    if faults.read.Rejects? then
      if w.entry.Some? && !IsNewContainer(w.entry.value, event) then
        var early := NextEntry(w.entry, event, w.entry.value.probe, parse);
        w.(entry := Some(early.(unwritten := w.entry.value.unwritten || early.probe.health != w.entry.value.probe.health)))
      else w
    else if !IsApplicable(w.stack, service, event) then w
    else
      var stack := w.stack.value;
      var stored := NormalizeHealth(stack.rows[service].healthStatus);
      var entry := NextEntry(w.entry, event, PreviousState(w.entry, event, stored), parse);
      if Some(HealthName(entry.probe.health)) == stored then World(Some(entry), w.stack)
      else
        var written := WithHealth(stack, service, event, entry.probe.health);
        var unwritten := Some(entry.(unwritten := true));
        if faults.rowWrite.Rejects? then
          World(unwritten, Some(if faults.rowWrite.tookEffect then written else stack))
        else
          var derived := written.(status := Derived(written));
          if faults.statusWrite.Rejects? then
            World(unwritten, Some(if faults.statusWrite.tookEffect then derived else written))
          else World(Some(entry), Some(derived))
  }

  /** What one result announces. */
  function AnnouncedBy(w: World, stackId: string, service: string, event: ProbeEvent, parse: DateParser, faults: Faults)
    : seq<Announcement>
  {
    if faults.read.Rejects? || !IsApplicable(w.stack, service, event) then []
    else
      var stored := NormalizeHealth(w.stack.value.rows[service].healthStatus);
      var health := NextHealth(w, service, event, parse);
      if Some(HealthName(health)) == stored then []
      else Announced(stackId, w.stack.value, service, ProbeChange(stored, event, health), faults)
  }

  /** The health the rule gives for an applicable result. */
  function NextHealth(w: World, service: string, event: ProbeEvent, parse: DateParser): ProbeHealth
    requires IsApplicable(w.stack, service, event)
  {
    var stored := NormalizeHealth(w.stack.value.rows[service].healthStatus);
    NextEntry(w.entry, event, PreviousState(w.entry, event, stored), parse).probe.health
  }

  /** Why a service is no longer probed. */
  datatype ClearReason = ContainerNotRunning | ProbeRemoved

  const PROBE_REMOVED_MESSAGE := "HTTP probe removed"

  /** The row a cleared probe may be settled in; a container that runs again is decided by its next probes. */
  predicate IsClearable(stack: Option<Stack>, service: string, reason: ClearReason) {
    stack.Some? && !IsTransitional(stack.value.status) && service in stack.value.rows &&
    !(reason.ContainerNotRunning? && stack.value.rows[service].containerState == Some("running"))
  }

  /** The truth that replaces a health the probe left behind: none for a stopped container, Docker's own (`docker`)
      for one that runs on without its probe. */
  function ClearChange(row: ServiceRow, reason: ClearReason, docker: Option<string>): HealthChange {
    var stored := NormalizeHealth(row.healthStatus);
    var state := if row.containerState.Some? then row.containerState.value else "";
    if reason.ContainerNotRunning? || row.containerState != Some("running") || row.containerId.None? then
      HealthChange(row.containerId, state, stored, None, HttpProbe, None)
    else
      HealthChange(row.containerId, state, stored, NormalizeHealth(docker), DockerHealthcheck, Some(PROBE_REMOVED_MESSAGE))
  }

  /** What a cleared probe does; the remembered entry is dropped first. */
  function Cleared(w: World, service: string, reason: ClearReason, docker: Option<string>, faults: Faults): World {
    if faults.read.Rejects? || !IsClearable(w.stack, service, reason) then World(None, w.stack)
    else
      var change := ClearChange(w.stack.value.rows[service], reason, docker);
      World(None, if change.next == change.previous then w.stack
                  else Some(AfterChange(w.stack.value, service, change, faults)))
  }

  function AnnouncedByClear(w: World, stackId: string, service: string, reason: ClearReason, docker: Option<string>,
                            faults: Faults)
    : seq<Announcement>
  {
    if faults.read.Rejects? || !IsClearable(w.stack, service, reason) then []
    else
      var change := ClearChange(w.stack.value.rows[service], reason, docker);
      if change.next == change.previous then [] else Announced(stackId, w.stack.value, service, change, faults)
  }

  class ServiceHealthService {
    /** In-memory probe state by stack and service. */
    var entries: map<(string, string), ProbeEntry>
    /** The stored stacks, and how the next database calls end. */
    var stacks: map<string, Stack>
    var faults: Faults
    /** What has been announced so far. */
    var announced: seq<Announcement>
    const parse: DateParser

    ghost function View(stackId: string, service: string): World
      reads this
    {
      World(if (stackId, service) in entries then Some(entries[(stackId, service)]) else None,
            if stackId in stacks then Some(stacks[stackId]) else None)
    }

    method Restore(key: (string, string), remembered: Option<ProbeEntry>)
      modifies this`entries
      ensures entries == if remembered.None? then old(entries) - {key} else old(entries)[key := remembered.value]
    {
      if remembered.None? {
        entries := entries - {key};
      } else {
        entries := entries[key := remembered.value];
      }
    }

    /** Writes the row, then the re-derived status, announcing each once it is stored. */
    method ApplyHealth(stackId: string, stack: Stack, service: string, change: HealthChange) returns (ok: bool)
      requires stackId in stacks && stacks[stackId] == stack
      modifies this`stacks, this`announced
      ensures ok == (faults.rowWrite.Works? && faults.statusWrite.Works?)
      ensures stacks == old(stacks)[stackId := AfterChange(stack, service, change, faults)]
      ensures announced == old(announced) + Announced(stackId, stack, service, change, faults)
    {
      var written := WithChange(stack, service, change);
      if TakesEffect(faults.rowWrite) {
        stacks := stacks[stackId := written];
      }
      if faults.rowWrite.Rejects? {
        return false;
      }
      announced := announced +
        [HealthChanged(stackId, service, change.previous, change.next, change.source, change.message)];
      var stackStatus := Derived(written);
      if TakesEffect(faults.statusWrite) {
        stacks := stacks[stackId := written.(status := stackStatus)];
      }
      if faults.statusWrite.Rejects? {
        return false;
      }
      announced := announced + [StateChanged(stackId, service, change.containerState, change.next, stackStatus)];
      ok := true;
    }

    /** Applies one probe result; nothing but this service's entry and this stack changes. */
    method ApplyProbeResult(stackId: string, service: string, event: ProbeEvent)
      modifies this`entries, this`stacks, this`announced
      ensures View(stackId, service) == Applied(old(View(stackId, service)), service, event, parse, faults)
      ensures announced == old(announced) +
        AnnouncedBy(old(View(stackId, service)), stackId, service, event, parse, faults)
      ensures entries - {(stackId, service)} == old(entries) - {(stackId, service)}
      ensures stacks - {stackId} == old(stacks) - {stackId}
    {
      hide Derived, NextEntry, PreviousState, IsNewContainer, NormalizeHealth, HealthName;
      var key := (stackId, service);
      var remembered := if key in entries then Some(entries[key]) else None;
      if remembered.Some? && !IsNewContainer(remembered.value, event) {
        var early := NextEntry(remembered, event, remembered.value.probe, parse);
        entries := entries[key := early.(unwritten :=
          remembered.value.unwritten || early.probe.health != remembered.value.probe.health)];
      }
      if faults.read.Rejects? {
        return;
      }
      Restore(key, remembered);
      if stackId !in stacks || IsTransitional(stacks[stackId].status) {
        return;
      }
      var stack := stacks[stackId];
      if service !in stack.rows || stack.rows[service].containerState != Some("running") {
        return;
      }
      var row := stack.rows[service];
      if row.containerId != Some(event.containerId) {
        return;
      }
      var stored := NormalizeHealth(row.healthStatus);
      var entry := NextEntry(remembered, event, PreviousState(remembered, event, stored), parse);
      if Some(HealthName(entry.probe.health)) == stored {
        entries := entries[key := entry];
        return;
      }
      entries := entries[key := entry.(unwritten := true)];
      var ok := ApplyHealth(stackId, stack, service, ProbeChange(stored, event, entry.probe.health));
      if ok {
        entries := entries[key := entry];
      }
    }

    /** Settles a service that is no longer probed. */
    method ApplyProbeCleared(stackId: string, service: string, reason: ClearReason, docker: Option<string>)
      modifies this`entries, this`stacks, this`announced
      ensures View(stackId, service) == Cleared(old(View(stackId, service)), service, reason, docker, faults)
      ensures announced == old(announced) +
        AnnouncedByClear(old(View(stackId, service)), stackId, service, reason, docker, faults)
      ensures entries == old(entries) - {(stackId, service)}
      ensures stacks - {stackId} == old(stacks) - {stackId}
    {
      hide Derived, ClearChange, AfterChange, Announced;
      entries := entries - {(stackId, service)};
      if faults.read.Rejects? || stackId !in stacks || IsTransitional(stacks[stackId].status) {
        return;
      }
      var stack := stacks[stackId];
      if service !in stack.rows ||
         (reason.ContainerNotRunning? && stack.rows[service].containerState == Some("running")) {
        return;
      }
      var change := ClearChange(stack.rows[service], reason, docker);
      if change.next == change.previous {
        return;
      }
      var ok := ApplyHealth(stackId, stack, service, change);
    }
  }

  // ----- The counting rule -----

  /** Unhealthy means at least three failures in a row, and nothing else does. */
  predicate ThresholdHolds(probe: ProbeState) {
    probe.health.ProbeUnhealthy? <==> probe.consecutiveFailures >= PROBE_FAILURE_THRESHOLD
  }

  ghost predicate EntryHolds(entry: Option<ProbeEntry>) {
    entry.Some? ==> ThresholdHolds(entry.value.probe)
  }

  datatype Result = Result(event: ProbeEvent, faults: Faults)

  /** What reaches the service: a finished probe, or the news that a service is no longer probed. */
  datatype Happening = Probed(result: Result) | Unprobed(reason: ClearReason, docker: Option<string>, faults: Faults)

  function AfterHappening(w: World, service: string, happening: Happening, parse: DateParser): World {
    match happening
    case Probed(result) => Applied(w, service, result.event, parse, result.faults)
    case Unprobed(reason, docker, faults) => Cleared(w, service, reason, docker, faults)
  }

  /** A run of one service, each happening with its own database failures. Between two of them anybody may have changed
      the stored stack. */
  function AfterAll(w: World, service: string, run: seq<(Happening, Option<Stack>)>, parse: DateParser): World
    decreases |run|
  {
    if run == [] then w
    else AfterAll(AfterHappening(w.(stack := run[0].1), service, run[0].0, parse), service, run[1..], parse)
  }

  /** The threshold rule holds in every reachable state, whatever fails and whoever else writes the rows. */
  lemma {:induction false} ThresholdAlwaysHolds(w: World, service: string, run: seq<(Happening, Option<Stack>)>,
                                                parse: DateParser)
    requires EntryHolds(w.entry)
    ensures EntryHolds(AfterAll(w, service, run, parse).entry)
    decreases |run|
  {
    if run != [] {
      hide Applied, EntryHolds;
      var (happening, stack) := run[0];
      if happening.Probed? {
        ThresholdKept(w.(stack := stack), service, happening.result.event, parse, happening.result.faults);
      } else {
        NothingHolds();
      }
      ThresholdAlwaysHolds(AfterHappening(w.(stack := stack), service, happening, parse), service, run[1..], parse);
    }
  }

  lemma NothingHolds()
    ensures EntryHolds(None)
  {
  }

  lemma ThresholdKept(w: World, service: string, event: ProbeEvent, parse: DateParser, faults: Faults)
    requires EntryHolds(w.entry)
    ensures EntryHolds(Applied(w, service, event, parse, faults).entry)
  {
    hide Derived, StartedAtMs, WithHealth;
  }

  // ----- No result is lost or counted twice -----

  /** The remembered container is the row's, still running, and it is the one probed. */
  ghost predicate IsSteady(w: World, service: string, event: ProbeEvent) {
    IsApplicable(w.stack, service, event) && w.entry.Some? && !IsNewContainer(w.entry.value, event)
  }

  /** What is remembered is stored as well, or marked as not stored yet. */
  ghost predicate IsConsistent(w: World, service: string) {
    w.entry.Some? && w.stack.Some? && service in w.stack.value.rows &&
    (w.entry.value.unwritten ||
     Some(HealthName(w.entry.value.probe.health)) == NormalizeHealth(w.stack.value.rows[service].healthStatus))
  }

  /** `after` remembers exactly one step of the rule, from `prev`. */
  predicate IsOneStep(after: Option<ProbeEntry>, before: Option<ProbeEntry>, prev: ProbeState, event: ProbeEvent,
                      parse: DateParser)
  {
    var startedAt := KnownStart(before, event);
    && after.Some? && after.value.containerId == event.containerId && after.value.startedAt == startedAt
    && after.value.probe == EvaluateProbe(prev, event.ok, StartedAtMs(startedAt, parse), event.nowMs)
  }

  /** A result advances the remembered state by one step or leaves it as it is, never by two, whichever calls fail.
      Unread, only a result of the remembered container counts, from the remembered state; read, every applicable
      one counts, from the state that the row and the memory agree on. */
  lemma CountedExactlyOnce(w: World, service: string, event: ProbeEvent, parse: DateParser, faults: Faults)
    ensures var v := Applied(w, service, event, parse, faults);
      if faults.read.Rejects? then
        if w.entry.Some? && !IsNewContainer(w.entry.value, event) then
          IsOneStep(v.entry, w.entry, w.entry.value.probe, event, parse)
        else v.entry == w.entry
      else if IsApplicable(w.stack, service, event) then
        var stored := NormalizeHealth(w.stack.value.rows[service].healthStatus);
        IsOneStep(v.entry, w.entry, PreviousState(w.entry, event, stored), event, parse)
      else v.entry == w.entry
  {
    hide StartedAtMs, EvaluateProbe, Derived, PreviousState, IsNewContainer, WithHealth, NormalizeHealth;
  }

  /** Whichever database calls fail, a result of a steady container advances the state from where it was. */
  lemma SteadyStep(w: World, service: string, event: ProbeEvent, parse: DateParser, faults: Faults)
    requires IsSteady(w, service, event) && IsConsistent(w, service)
    ensures var v := Applied(w, service, event, parse, faults);
      var startedAt := KnownStart(w.entry, event);
      && v.entry.Some? && v.entry.value.containerId == event.containerId && v.entry.value.startedAt == startedAt
      && v.entry.value.probe == EvaluateProbe(w.entry.value.probe, event.ok, StartedAtMs(startedAt, parse), event.nowMs)
      && IsConsistent(v, service) && IsApplicable(v.stack, service, event)
  {
    hide StartedAtMs, EvaluateProbe, DeriveStackStatus;
    var v := Applied(w, service, event, parse, faults);
    var written := WithHealth(w.stack.value, service, event, v.entry.value.probe.health);
    DerivedIsNotTransitional(Observed(written, written.names));
  }

  /** The state after counting `events` one by one. */
  function Counted(probe: ProbeState, startedAt: Option<string>, events: seq<ProbeEvent>, parse: DateParser): ProbeState
    decreases |events|
  {
    if events == [] then probe
    else
      var event := events[0];
      var known := if event.containerStartedAt.Some? then event.containerStartedAt else startedAt;
      Counted(EvaluateProbe(probe, event.ok, StartedAtMs(known, parse), event.nowMs), known, events[1..], parse)
  }

  function AppliedRun(w: World, service: string, results: seq<Result>, parse: DateParser): World
    decreases |results|
  {
    if results == [] then w
    else AppliedRun(Applied(w, service, results[0].event, parse, results[0].faults), service, results[1..], parse)
  }

  function Events(results: seq<Result>): seq<ProbeEvent> {
    seq(|results|, i requires 0 <= i < |results| => results[i].event)
  }

  /** All results are of the container `id`, started at `start` as far as it could be inspected. */
  predicate OfContainer(results: seq<Result>, id: string, start: string) {
    forall r :: r in results ==> r.event.containerId == id && r.event.containerStartedAt in {None, Some(start)}
  }

  /** Over any run of results of one running container, with any database failures, the remembered state is what
      counting every result once gives. */
  lemma {:induction false} FailuresDoNotMatter(w: World, service: string, results: seq<Result>, id: string, start: string,
                                               parse: DateParser)
    requires OfContainer(results, id, start) && IsConsistent(w, service)
    requires w.entry.value.containerId == id && w.entry.value.startedAt in {None, Some(start)}
    requires !IsTransitional(w.stack.value.status)
    requires w.stack.value.rows[service].containerState == Some("running")
    requires w.stack.value.rows[service].containerId == Some(id)
    ensures var v := AppliedRun(w, service, results, parse);
      && IsConsistent(v, service)
      && v.entry.value.probe == Counted(w.entry.value.probe, w.entry.value.startedAt, Events(results), parse)
    decreases |results|
  {
    if results != [] {
      hide Applied, EvaluateProbe, StartedAtMs, NormalizeHealth, IsConsistent;
      var event := results[0].event;
      assert results[0] in results;
      IsConsistentMeans(w, service);
      SteadyStep(w, service, event, parse, results[0].faults);
      var v := Applied(w, service, event, parse, results[0].faults);
      IsConsistentMeans(v, service);
      FailuresDoNotMatter(v, service, results[1..], id, start, parse);
      assert Events(results)[1..] == Events(results[1..]);
    }
  }

  lemma IsConsistentMeans(w: World, service: string)
    requires IsConsistent(w, service)
    ensures w.entry.Some? && w.stack.Some? && service in w.stack.value.rows
  {
  }

  /** A failed probe that counts: the container's start is unknown or more than the grace period ago. */
  ghost predicate IsCountedFailure(event: ProbeEvent, start: string, parse: DateParser) {
    && !event.ok && event.nowMs >= PROBE_STARTUP_GRACE_MS
    && event.nowMs - StartedAtMs(Some(start), parse) >= PROBE_STARTUP_GRACE_MS
  }

  lemma {:induction false} CountedAppend(probe: ProbeState, startedAt: Option<string>, events: seq<ProbeEvent>,
                                         more: seq<ProbeEvent>, start: string, parse: DateParser)
    returns (known: Option<string>)
    requires startedAt in {None, Some(start)}
    requires forall e :: e in events ==> e.containerStartedAt in {None, Some(start)}
    ensures known in {None, Some(start)}
    ensures Counted(probe, startedAt, events + more, parse) ==
      Counted(Counted(probe, startedAt, events, parse), known, more, parse)
    decreases |events|
  {
    if events == [] {
      known := startedAt;
      assert [] + more == more;
    } else {
      hide EvaluateProbe, StartedAtMs;
      var event := events[0];
      var now := if event.containerStartedAt.Some? then event.containerStartedAt else startedAt;
      assert (events + more)[1..] == events[1..] + more;
      var next := EvaluateProbe(probe, event.ok, StartedAtMs(now, parse), event.nowMs);
      known := CountedAppend(next, now, events[1..], more, start, parse);
    }
  }

  /** Three failures past the grace period make a service unhealthy, however many database calls failed meanwhile. */
  lemma ThreeFailuresAreNoticed(w: World, service: string, earlier: seq<Result>, failures: seq<Result>, id: string,
                                start: string, parse: DateParser)
    requires OfContainer(earlier + failures, id, start) && IsConsistent(w, service)
    requires w.entry.value.containerId == id && w.entry.value.startedAt in {None, Some(start)}
    requires !IsTransitional(w.stack.value.status)
    requires w.stack.value.rows[service].containerState == Some("running")
    requires w.stack.value.rows[service].containerId == Some(id)
    requires |failures| == 3 && forall r :: r in failures ==> IsCountedFailure(r.event, start, parse)
    ensures var v := AppliedRun(w, service, earlier + failures, parse);
      v.entry.Some? && v.entry.value.probe.health == ProbeUnhealthy
  {
    FailuresDoNotMatter(w, service, earlier + failures, id, start, parse);
    assert Events(earlier + failures) == Events(earlier) + Events(failures);
    assert forall r :: r in earlier ==> r in earlier + failures;
    assert forall r :: r in failures ==> r in earlier + failures;
    hide AppliedRun, Counted, IsConsistent, IsCountedFailure, Events;
    EventsOf(earlier, id, start);
    var entry := w.entry.value;
    var known := CountedAppend(entry.probe, entry.startedAt, Events(earlier), Events(failures), start, parse);
    ThreeCounted(Counted(entry.probe, entry.startedAt, Events(earlier), parse), known, failures, start, parse);
  }

  lemma EventsOf(results: seq<Result>, id: string, start: string)
    requires OfContainer(results, id, start)
    ensures forall e :: e in Events(results) ==> e.containerStartedAt in {None, Some(start)}
  {
    forall e | e in Events(results)
      ensures e.containerStartedAt in {None, Some(start)}
    {
      var i :| 0 <= i < |results| && Events(results)[i] == e;
      assert results[i] in results;
    }
  }

  lemma ThreeCounted(probe: ProbeState, known: Option<string>, failures: seq<Result>, start: string, parse: DateParser)
    requires known in {None, Some(start)} && |failures| == 3
    requires forall r :: r in failures ==>
      IsCountedFailure(r.event, start, parse) && r.event.containerStartedAt in {None, Some(start)}
    ensures Counted(probe, known, Events(failures), parse).health == ProbeUnhealthy
  {
    var events := Events(failures);
    assert events == [failures[0].event, failures[1].event, failures[2].event];
    var probe1, known1 := CountedFailure(probe, known, events, failures[0], start, parse);
    var probe2, known2 := CountedFailure(probe1, known1, events[1..], failures[1], start, parse);
    var probe3, known3 := CountedFailure(probe2, known2, events[1..][1..], failures[2], start, parse);
    assert events[1..][1..][1..] == [];
  }

  lemma CountedFailure(probe: ProbeState, known: Option<string>, events: seq<ProbeEvent>, result: Result, start: string,
                       parse: DateParser)
    returns (next: ProbeState, nextKnown: Option<string>)
    requires events != [] && events[0] == result.event && known in {None, Some(start)}
    requires IsCountedFailure(result.event, start, parse) && result.event.containerStartedAt in {None, Some(start)}
    ensures next.consecutiveFailures == probe.consecutiveFailures + 1
    ensures next.consecutiveFailures >= PROBE_FAILURE_THRESHOLD ==> next.health == ProbeUnhealthy
    ensures nextKnown in {None, Some(start)}
    ensures Counted(probe, known, events, parse) == Counted(next, nextKnown, events[1..], parse)
  {
    var event := events[0];
    nextKnown := if event.containerStartedAt.Some? then event.containerStartedAt else known;
    next := EvaluateProbe(probe, event.ok, StartedAtMs(nextKnown, parse), event.nowMs);
  }

  // ----- What the rule amounts to -----

  /** How many of the last results in a row failed. */
  function Trailing(events: seq<ProbeEvent>): nat {
    if events == [] || events[|events| - 1].ok then 0 else Trailing(events[..|events| - 1]) + 1
  }

  /** How many results came after the container's first minute. */
  function Late(events: seq<ProbeEvent>, startMs: int): nat {
    if events == [] then 0
    else
      Late(events[..|events| - 1], startMs) +
      if events[|events| - 1].nowMs - startMs >= PROBE_STARTUP_GRACE_MS then 1 else 0
  }

  /** The health of a container by all its results: once it has answered, failures in a row count; before that, those
      after its first minute. */
  function Verdict(events: seq<ProbeEvent>, startMs: int): ProbeState {
    var failures := if HasAnswered(events) then Trailing(events) else Late(events, startMs);
    ProbeState(failures,
               if failures >= PROBE_FAILURE_THRESHOLD then ProbeUnhealthy
               else if HasAnswered(events) then ProbeHealthy
               else Starting)
  }

  predicate HasAnswered(events: seq<ProbeEvent>) {
    exists e :: e in events && e.ok
  }

  predicate InOrder(events: seq<ProbeEvent>) {
    forall i, j :: 0 <= i < j < |events| ==> events[i].nowMs <= events[j].nowMs
  }

  /** In its first minute nothing counts for a container that has not answered. */
  lemma {:induction false} NoneLate(events: seq<ProbeEvent>, startMs: int)
    requires forall e :: e in events ==> e.nowMs - startMs < PROBE_STARTUP_GRACE_MS
    ensures Late(events, startMs) == 0
  {
    if events != [] {
      NoneLate(events[..|events| - 1], startMs);
    }
  }

  lemma VerdictStep(init: seq<ProbeEvent>, last: ProbeEvent, startMs: int)
    requires InOrder(init + [last])
    ensures Verdict(init + [last], startMs) == EvaluateProbe(Verdict(init, startMs), last.ok, startMs, last.nowMs)
  {
    TrailingStep(init, last);
    LateStep(init, last, startMs);
    hide HasAnswered, Trailing, Late, InOrder;
  }

  lemma TrailingStep(init: seq<ProbeEvent>, last: ProbeEvent)
    ensures HasAnswered(init + [last]) <==> HasAnswered(init) || last.ok
    ensures Trailing(init + [last]) == if last.ok then 0 else Trailing(init) + 1
  {
    var events := init + [last];
    assert events[..|events| - 1] == init && events[|events| - 1] == last;
    assert last in events && forall e :: e in events <==> e in init || e == last;
  }

  lemma LateStep(init: seq<ProbeEvent>, last: ProbeEvent, startMs: int)
    requires InOrder(init + [last])
    ensures Late(init + [last], startMs) ==
      Late(init, startMs) + if last.nowMs - startMs >= PROBE_STARTUP_GRACE_MS then 1 else 0
    ensures last.nowMs - startMs < PROBE_STARTUP_GRACE_MS ==> Late(init, startMs) == 0
  {
    var events := init + [last];
    assert events[..|events| - 1] == init && events[|events| - 1] == last;
    if last.nowMs - startMs < PROBE_STARTUP_GRACE_MS {
      forall e | e in init
        ensures e.nowMs <= last.nowMs
      {
        var i :| 0 <= i < |init| && init[i] == e;
        assert events[i] == e && events[|init|] == last;
      }
      NoneLate(init, startMs);
    }
  }

  /** Counting the results of a new container one by one gives the verdict. */
  lemma {:induction false} CountedIsVerdict(events: seq<ProbeEvent>, start: string, startMs: int, parse: DateParser)
    requires parse(start) == Some(startMs) && InOrder(events)
    requires forall e :: e in events ==> e.containerStartedAt in {None, Some(start)}
    ensures Counted(NEW_CONTAINER_STATE, Some(start), events, parse) == Verdict(events, startMs)
  {
    if events != [] {
      var init, last := events[..|events| - 1], events[|events| - 1];
      assert events == init + [last];
      CountedIsVerdict(init, start, startMs, parse);
      CountedLast(NEW_CONTAINER_STATE, init, last, start, startMs, parse);
      VerdictStep(init, last, startMs);
    }
  }

  lemma {:induction false} CountedLast(probe: ProbeState, init: seq<ProbeEvent>, last: ProbeEvent, start: string,
                                       startMs: int, parse: DateParser)
    requires parse(start) == Some(startMs)
    requires forall e :: e in init + [last] ==> e.containerStartedAt in {None, Some(start)}
    ensures Counted(probe, Some(start), init + [last], parse) ==
      EvaluateProbe(Counted(probe, Some(start), init, parse), last.ok, startMs, last.nowMs)
    decreases |init|
  {
    hide EvaluateProbe;
    if init == [] {
      assert [] + [last] == [last] && last in [last];
      assert Counted(EvaluateProbe(probe, last.ok, startMs, last.nowMs), Some(start), [], parse) ==
        EvaluateProbe(probe, last.ok, startMs, last.nowMs);
    } else {
      assert (init + [last])[0] == init[0] && (init + [last])[1..] == init[1..] + [last];
      assert init[0] in init + [last] && forall e :: e in init[1..] + [last] ==> e in init + [last];
      var next := EvaluateProbe(probe, init[0].ok, startMs, init[0].nowMs);
      CountedLast(next, init[1..], last, start, startMs, parse);
    }
  }

  /** Over any run of results of a new container, with any database failures, what is remembered is the verdict on all
      its results. */
  lemma HealthIsTheVerdict(w: World, service: string, results: seq<Result>, id: string, start: string, startMs: int,
                           parse: DateParser)
    requires OfContainer(results, id, start) && IsConsistent(w, service)
    requires w.entry.value.containerId == id && w.entry.value.startedAt == Some(start)
    requires w.entry.value.probe == NEW_CONTAINER_STATE
    requires !IsTransitional(w.stack.value.status)
    requires w.stack.value.rows[service].containerState == Some("running")
    requires w.stack.value.rows[service].containerId == Some(id)
    requires parse(start) == Some(startMs) && InOrder(Events(results))
    ensures var v := AppliedRun(w, service, results, parse);
      v.entry.Some? && v.entry.value.probe == Verdict(Events(results), startMs)
  {
    FailuresDoNotMatter(w, service, results, id, start, parse);
    EventsOf(results, id, start);
    CountedIsVerdict(Events(results), start, startMs, parse);
  }

  /** One more failure of a container that has not answered. */
  lemma UnansweredStep(init: seq<ProbeEvent>, last: ProbeEvent, startMs: int, failures: nat)
    requires !last.ok && !HasAnswered(init) && Late(init, startMs) == failures
    ensures !HasAnswered(init + [last])
    ensures Late(init + [last], startMs) == failures + if last.nowMs - startMs >= 60_000 then 1 else 0
  {
    TrailingStep(init, last);
    assert (init + [last])[..|init|] == init;
    hide HasAnswered;
  }

  /** A slow start: failures within the first minute are forgiven, three later ones are not. */
  lemma SlowStartIsForgiven(event: ProbeEvent)
    requires !event.ok
    ensures var early, late := event.(nowMs := 1_059_999), event.(nowMs := 1_060_000);
      && Verdict([early, early, early], 1_000_000) == ProbeState(0, Starting)
      && Verdict([early, early, early, late, late], 1_000_000) == ProbeState(2, Starting)
      && Verdict([early, early, early, late, late, late], 1_000_000) == ProbeState(3, ProbeUnhealthy)
  {
    var early, late := event.(nowMs := 1_059_999), event.(nowMs := 1_060_000);
    NothingYet();
    hide Late, HasAnswered, Trailing;
    UnansweredStep([], early, 1_000_000, 0);
    assert [] + [early] == [early];
    UnansweredStep([early], early, 1_000_000, 0);
    assert [early] + [early] == [early, early];
    UnansweredStep([early, early], early, 1_000_000, 0);
    var run := [early, early, early];
    assert [early, early] + [early] == run;
    UnansweredStep(run, late, 1_000_000, 0);
    UnansweredStep(run + [late], late, 1_000_000, 1);
    UnansweredStep(run + [late] + [late], late, 1_000_000, 2);
    assert run + [late] + [late] == [early, early, early, late, late];
    assert run + [late] + [late] + [late] == [early, early, early, late, late, late];
  }

  lemma NothingYet()
    ensures !HasAnswered([]) && Late([], 1_000_000) == 0
  {
  }

  /** Whatever fails, a failure of a starting container in its first minute counts for nothing. */
  lemma StartingIsForgiven(w: World, service: string, event: ProbeEvent, parse: DateParser, faults: Faults)
    requires IsSteady(w, service, event) && IsConsistent(w, service)
    requires w.entry.value.probe.health == Starting && !event.ok
    requires var start := KnownStart(w.entry, event);
      start.Some? && parse(start.value).Some? && event.nowMs - parse(start.value).value < 60_000
    ensures var v := Applied(w, service, event, parse, faults);
      v.entry.Some? && v.entry.value.probe == ProbeState(0, Starting)
  {
    SteadyStep(w, service, event, parse, faults);
  }

  /** What a result does to a container that is new, or that was not remembered: whatever was remembered of another one
      plays no part. */
  predicate IsFirstStep(probe: ProbeState, base: ProbeState, event: ProbeEvent, startMs: Option<int>) {
    if event.ok then probe == ProbeState(0, ProbeHealthy)
    else if base == ProbeState(0, Starting) then
      probe == ProbeState(if event.nowMs - (if startMs.Some? then startMs.value else 0) < 60_000 then 0 else 1, Starting)
    else probe == base.(consecutiveFailures := base.consecutiveFailures + 1)
  }

  function ParsedStart(start: Option<string>, parse: DateParser): Option<int> {
    if start.Some? then parse(start.value) else None
  }

  /** A replaced or restarted container starts over. */
  lemma NewContainerStartsOver(w: World, service: string, event: ProbeEvent, parse: DateParser, faults: Faults)
    requires IsApplicable(w.stack, service, event) && faults.read.Works? && w.entry.Some?
    requires w.entry.value.containerId != event.containerId ||
      (event.containerStartedAt.Some? && w.entry.value.startedAt.Some? &&
       event.containerStartedAt != w.entry.value.startedAt)
    ensures var v := Applied(w, service, event, parse, faults);
      && v.entry.Some? && v.entry.value.containerId == event.containerId
      && IsFirstStep(v.entry.value.probe, ProbeState(0, Starting), event, ParsedStart(KnownStart(w.entry, event), parse))
  {
    CountedExactlyOnce(w, service, event, parse, faults);
    hide Applied;
  }

  /** After a restart of Docktor, or when someone else has reset the row, counting goes on from the stored health: an
      unhealthy service stays unhealthy until it answers, a healthy one has three failures ahead of it. */
  lemma RowIsTheTruth(w: World, service: string, event: ProbeEvent, parse: DateParser, faults: Faults)
    requires IsApplicable(w.stack, service, event) && faults.read.Works?
    requires w.entry.None? ||
      (w.entry.value.containerId == event.containerId && w.entry.value.startedAt in {None, event.containerStartedAt} &&
       !IsConsistent(w, service))
    ensures var v := Applied(w, service, event, parse, faults);
      var stored := w.stack.value.rows[service].healthStatus;
      var base := if stored == Some("unhealthy") then ProbeState(3, ProbeUnhealthy)
                  else if stored == Some("healthy") then ProbeState(0, ProbeHealthy)
                  else ProbeState(0, Starting);
      v.entry.Some? && IsFirstStep(v.entry.value.probe, base, event, ParsedStart(KnownStart(w.entry, event), parse))
  {
    CountedExactlyOnce(w, service, event, parse, faults);
    hide Applied;
  }

  /** A result of a container that is not, or no longer, the row's running one changes nothing and announces nothing. */
  lemma ForeignResultsAreIgnored(w: World, stackId: string, service: string, event: ProbeEvent, parse: DateParser,
                                 faults: Faults)
    requires w.stack.None? || service !in w.stack.value.rows ||
      w.stack.value.status in {Deploying, Updating, BackingUp, Restoring, Migrating} ||
      w.stack.value.rows[service].containerState != Some("running") ||
      w.stack.value.rows[service].containerId != Some(event.containerId)
    requires faults.read.Works?
    ensures Applied(w, service, event, parse, faults) == w
    ensures AnnouncedBy(w, stackId, service, event, parse, faults) == []
  {
  }

  // ----- After a result without failures -----

  /** The row then shows the remembered health, whatever failed before. */
  lemma FaultFreeResultIsStored(w: World, service: string, event: ProbeEvent, parse: DateParser)
    requires IsApplicable(w.stack, service, event)
    ensures var v := Applied(w, service, event, parse, NO_FAULTS);
      && v.entry.Some? && !v.entry.value.unwritten && v.stack.Some? && service in v.stack.value.rows
      && NormalizeHealth(v.stack.value.rows[service].healthStatus) == Some(HealthName(v.entry.value.probe.health))
  {
    hide Derived, StartedAtMs;
  }

  /** The stack status is re-derived only together with a changed health: it is right after a result without failures
      exactly when the result's health differs from the stored one or the status was right before. */
  lemma StatusIsRightIff(w: World, service: string, event: ProbeEvent, parse: DateParser)
    requires IsApplicable(w.stack, service, event)
    ensures var v := Applied(w, service, event, parse, NO_FAULTS);
      var stored := NormalizeHealth(w.stack.value.rows[service].healthStatus);
      v.stack.value.status == Derived(v.stack.value) <==>
        || Some(HealthName(NextHealth(w, service, event, parse))) != stored
        || w.stack.value.status == Derived(w.stack.value)
  {
    hide StartedAtMs, DeriveStackStatus, EvaluateProbe, PreviousState, NormalizeHealth;
    var stored := NormalizeHealth(w.stack.value.rows[service].healthStatus);
    var health := NextHealth(w, service, event, parse);
    if Some(HealthName(health)) != stored {
      var written := WithHealth(w.stack.value, service, event, health);
      ObservedIgnoresStatus(written, Derived(written), written.names);
    }
  }

  /** What the status is derived from: every listed service that has a row. */
  lemma {:induction false} ObservedIff(stack: Stack, names: seq<string>, o: ObservedService)
    ensures o in Observed(stack, names) <==>
      exists name :: name in names && name in stack.rows &&
        o == ObservedService(stack.rows[name].containerState, stack.rows[name].healthStatus)
  {
    if names != [] {
      ObservedIff(stack, names[1..], o);
    }
  }

  lemma {:induction false} ObservedIgnoresStatus(stack: Stack, status: Status, names: seq<string>)
    ensures Observed(stack.(status := status), names) == Observed(stack, names)
  {
    if names != [] {
      ObservedIgnoresStatus(stack, status, names[1..]);
    }
  }

  /** So a status write that failed after its row write is never repeated: the next result finds the row as it
      should be, and the status stays wrong. */
  lemma StaleStatusStays(parse: DateParser)
    ensures var event := ProbeEvent("c", None, true, "Responded with HTTP 200", 0);
      var row := ServiceRow(Some("c"), Some("running"), Some("unhealthy"));
      var w := World(Some(ProbeEntry("c", None, ProbeState(3, ProbeUnhealthy), false)),
                     Some(Stack(Unhealthy, ["web"], map["web" := row])));
      var failed := Applied(w, "web", event, parse, Faults(Works, Works, Rejects(false)));
      var v := Applied(failed, "web", event, parse, NO_FAULTS);
      v.stack.value.status == Unhealthy && Derived(v.stack.value) == Healthy
  {
    var event := ProbeEvent("c", None, true, "Responded with HTTP 200", 0);
    var row := ServiceRow(Some("c"), Some("running"), Some("unhealthy"));
    var stack := Stack(Unhealthy, ["web"], map["web" := row]);
    var w := World(Some(ProbeEntry("c", None, ProbeState(3, ProbeUnhealthy), false)), Some(stack));
    var failed := Applied(w, "web", event, parse, Faults(Works, Works, Rejects(false)));
    var written := WithHealth(stack, "web", event, ProbeHealthy);
    assert failed.stack == Some(written);
    assert Observed(written, ["web"]) == [ObservedService(Some("running"), Some("healthy"))];
    assert ObservedService(Some("running"), Some("healthy")) in Observed(written, ["web"]);
  }

  // ----- What is announced, and what a cleared probe leaves -----

  /** The announcement describes what is stored. */
  predicate IsTrueOf(a: Announcement, stack: Stack, service: string) {
    a.service == service && service in stack.rows &&
    match a
    case HealthChanged(_, _, _, toStatus, _, _) => stack.rows[service].healthStatus == toStatus
    case StateChanged(_, _, containerState, healthStatus, stackStatus) =>
      && stack.rows[service].containerState == Some(containerState) && stack.rows[service].healthStatus == healthStatus
      && stack.status == stackStatus == Derived(stack)
  }

  lemma AnnouncedIsTrue(stackId: string, stack: Stack, service: string, change: HealthChange, faults: Faults,
                        a: Announcement)
    requires a in Announced(stackId, stack, service, change, faults)
    ensures IsTrueOf(a, AfterChange(stack, service, change, faults), service)
  {
    hide DeriveStackStatus;
    var written := WithChange(stack, service, change);
    ObservedIgnoresStatus(written, Derived(written), written.names);
  }

  /** And every stored change is announced, as far as it was stored: first the health, then the status. */
  lemma ChangesAreAnnounced(w: World, stackId: string, service: string, event: ProbeEvent, parse: DateParser,
                            faults: Faults)
    requires IsApplicable(w.stack, service, event) && faults.read.Works? && faults.rowWrite.Works?
    ensures var v := Applied(w, service, event, parse, faults);
      var announced := AnnouncedBy(w, stackId, service, event, parse, faults);
      var before := NormalizeHealth(w.stack.value.rows[service].healthStatus);
      var after := v.stack.value.rows[service].healthStatus;
      if NormalizeHealth(after) == before then announced == []
      else
        && |announced| == (if faults.statusWrite.Works? then 2 else 1)
        && announced[0].HealthChanged? && announced[0].fromStatus == before && announced[0].toStatus == after
        && announced[0].stackId == stackId && announced[0].source == HttpProbe
        && announced[0].message == (if event.ok then Some(event.text)
                                    else if after == Some("unhealthy") then Some(event.text + " after 3 failed checks")
                                    else None)
        && (faults.statusWrite.Works? ==> announced[1].StateChanged? && announced[1].stackId == stackId)
  {
    hide Derived;
    assert Decimal(3) == "3" && " after " + "3" + " failed checks" == " after 3 failed checks";
    assert event.text + " after " + Decimal(3) + " failed checks" ==
      event.text + (" after " + Decimal(3) + " failed checks");
  }

  /** Whatever fails, nothing is announced that is not stored. */
  lemma NothingUntrueIsAnnounced(w: World, stackId: string, service: string, event: ProbeEvent, parse: DateParser,
                                 faults: Faults, a: Announcement)
    requires a in AnnouncedBy(w, stackId, service, event, parse, faults)
    ensures var v := Applied(w, service, event, parse, faults);
      v.stack.Some? && IsTrueOf(a, v.stack.value, service)
  {
    hide Derived, NextEntry, PreviousState, NormalizeHealth, Announced, IsTrueOf;
    var stored := NormalizeHealth(w.stack.value.rows[service].healthStatus);
    var change := ProbeChange(stored, event, NextHealth(w, service, event, parse));
    AnnouncedIsTrue(stackId, w.stack.value, service, change, faults, a);
  }

  /** A container that runs again, or a stack in the middle of an operation, is left to those who act on it. */
  lemma RunningAgainIsLeftAlone(w: World, stackId: string, service: string, reason: ClearReason, docker: Option<string>,
                                faults: Faults)
    requires w.stack.Some? && service in w.stack.value.rows
    ensures IsClearable(w.stack, service, reason) <==>
      && w.stack.value.status !in {Deploying, Updating, BackingUp, Restoring, Migrating}
      && (reason.ProbeRemoved? || w.stack.value.rows[service].containerState != Some("running"))
    ensures !IsClearable(w.stack, service, reason) || faults.read.Rejects? ==>
      && Cleared(w, service, reason, docker, faults) == World(None, w.stack)
      && AnnouncedByClear(w, stackId, service, reason, docker, faults) == []
  {
  }

  /** A cleared probe is forgotten; without failures the row then shows the truth, so no health of the probe stays. */
  lemma ClearedProbeLeavesTheTruth(w: World, stackId: string, service: string, reason: ClearReason, docker: Option<string>)
    requires IsClearable(w.stack, service, reason)
    ensures var v := Cleared(w, service, reason, docker, NO_FAULTS);
      var row := w.stack.value.rows[service];
      var stopped := reason.ContainerNotRunning? || row.containerState != Some("running") || row.containerId.None?;
      && v.entry.None? && v.stack.Some? && service in v.stack.value.rows
      && NormalizeHealth(v.stack.value.rows[service].healthStatus) == (if stopped then None else NormalizeHealth(docker))
    ensures forall a :: a in AnnouncedByClear(w, stackId, service, reason, docker, NO_FAULTS) ==>
      IsTrueOf(a, Cleared(w, service, reason, docker, NO_FAULTS).stack.value, service)
    ensures var before := NormalizeHealth(w.stack.value.rows[service].healthStatus);
      var after := NormalizeHealth(Cleared(w, service, reason, docker, NO_FAULTS).stack.value.rows[service].healthStatus);
      |AnnouncedByClear(w, stackId, service, reason, docker, NO_FAULTS)| == if after == before then 0 else 2
    ensures var row := w.stack.value.rows[service];
      var row' := Cleared(w, service, reason, docker, NO_FAULTS).stack.value.rows[service];
      row' == row || (row'.containerId == row.containerId &&
        row'.containerState == if row.containerState.Some? then row.containerState else Some(""))
  {
    var change := ClearChange(w.stack.value.rows[service], reason, docker);
    assert |Announced(stackId, w.stack.value, service, change, NO_FAULTS)| == 2;
    hide Derived, IsTrueOf, Announced;
    forall a | a in AnnouncedByClear(w, stackId, service, reason, docker, NO_FAULTS)
      ensures IsTrueOf(a, Cleared(w, service, reason, docker, NO_FAULTS).stack.value, service)
    {
      AnnouncedIsTrue(stackId, w.stack.value, service, change, NO_FAULTS, a);
    }
  }
}
