/** Deploying and updating a stack (server/src/application/stack-service.ts, container-state-catch-up.ts): which
    failures can leave it in the status of an operation that is over. */
module StackService {
  import opened Text
  import opened StackStatus
  import opened Failures

  datatype Service = Service(
    name: string,
    containerId: Option<string>,
    containerState: Option<string>,
    healthStatus: Option<string>)

  /** How writing the compose file ends; a rejected write leaves `leftover` behind when it has got that far. */
  datatype FileWrite = Written | WriteFails(leftover: Option<string>)

  datatype Container = Container(id: string, service: string, state: string)

  datatype Inspection = Inspection(state: string, health: Option<string>)

  /** What the catch-up meets: the listed containers of the stack (`None` when a read failed), what inspecting them
      gives, which services are probed, and how its writes end. */
  datatype CatchUpOracle = CatchUpOracle(
    containers: Option<seq<Container>>,
    inspections: map<string, Inspection>,
    probed: set<string>,
    rowWrites: nat,
    statusWrite: Fault)

  // ----- Catching up with the containers -----

  function ContainersOf(containers: seq<Container>, service: string): (r: seq<Container>)
    ensures forall c :: c in r <==> c in containers && c.service == service
  {
    if containers == [] then []
    else (if containers[0].service == service then [containers[0]] else []) + ContainersOf(containers[1..], service)
  }

  function ProbeOwnedHealth(stored: Option<string>, observedState: string, replaced: bool): Option<string> {
    if !replaced then NormalizeHealth(stored)
    else if observedState == "running" then Some("starting") else None
  }

  function Observe(service: Service, containers: seq<Container>, oracle: CatchUpOracle): Service {
    var labelled := ContainersOf(containers, service.name);
    if labelled == [] then service.(containerId := None, containerState := Some("exited"), healthStatus := None)
    else
      var found := labelled[0];
      var replaced := |labelled| == 1 && service.containerId.Some? && service.containerId.value != "" &&
        service.containerId.value != found.id;
      var owned := service.name in oracle.probed;
      var state := if found.id in oracle.inspections then oracle.inspections[found.id].state else found.state;
      var health :=
        if owned then ProbeOwnedHealth(service.healthStatus, state, replaced)
        else if found.id in oracle.inspections then oracle.inspections[found.id].health
        else NormalizeHealth(service.healthStatus);
      service.(containerId := Some(found.id), containerState := Some(state), healthStatus := health)
  }

  function ObserveAll(services: seq<Service>, containers: seq<Container>, oracle: CatchUpOracle): seq<Service> {
    seq(|services|, i requires 0 <= i < |services| => Observe(services[i], containers, oracle))
  }

  function Observed(services: seq<Service>): seq<ObservedService> {
    seq(|services|, i requires 0 <= i < |services| => ObservedService(services[i].containerState, services[i].healthStatus))
  }

  /** What the catch-up writes for a service: without a container it has exited; otherwise its first container's id and
      state. */
  lemma ObservedState(service: Service, containers: seq<Container>, oracle: CatchUpOracle, i: nat)
    requires i < |containers| && containers[i].service == service.name
    requires forall j :: 0 <= j < i ==> containers[j].service != service.name
    ensures var seen := Observe(service, containers, oracle);
      && seen.name == service.name && seen.containerId == Some(containers[i].id)
      && seen.containerState == Some(if containers[i].id in oracle.inspections
                                     then oracle.inspections[containers[i].id].state else containers[i].state)
  {
    FirstOf(containers, service.name, i);
  }

  lemma {:induction false} FirstOf(containers: seq<Container>, service: string, i: nat)
    requires i < |containers| && containers[i].service == service
    requires forall j :: 0 <= j < i ==> containers[j].service != service
    ensures ContainersOf(containers, service) != [] && ContainersOf(containers, service)[0] == containers[i]
  {
    if i > 0 {
      FirstOf(containers[1..], service, i - 1);
    }
  }

  lemma WithoutContainerIsExited(service: Service, containers: seq<Container>, oracle: CatchUpOracle)
    requires forall c :: c in containers ==> c.service != service.name
    ensures Observe(service, containers, oracle) == Service(service.name, None, Some("exited"), None)
  {
    NoneOf(containers, service.name);
  }

  lemma {:induction false} NoneOf(containers: seq<Container>, service: string)
    requires forall c :: c in containers ==> c.service != service
    ensures ContainersOf(containers, service) == []
  {
    if containers != [] {
      NoneOf(containers[1..], service);
    }
  }

  /** And its health. A service without probes shows what Docker says, or keeps what it had when Docker cannot be asked. A
      probed one keeps the probe's health, whatever Docker says, unless its only container has replaced another one. */
  lemma ObservedHealth(service: Service, container: Container, oracle: CatchUpOracle)
    requires container.service == service.name
    ensures var seen := Observe(service, [container], oracle);
      var stored := if service.healthStatus == Some("") then None else service.healthStatus;
      var replaced := service.containerId.Some? && service.containerId.value !in {"", container.id};
      if service.name in oracle.probed then
        seen.healthStatus ==
          if !replaced then stored else if seen.containerState == Some("running") then Some("starting") else None
      else
        seen.healthStatus ==
          if container.id in oracle.inspections then oracle.inspections[container.id].health else stored
  {
    assert ContainersOf([container][1..], service.name) == [];
    var labelled := ContainersOf([container], service.name);
    assert labelled == [container] && |labelled| == 1 && labelled[0] == container;
  }

  /** Of several containers none is taken for a replacement. */
  lemma SeveralReplaceNothing(service: Service, containers: seq<Container>, oracle: CatchUpOracle)
    requires |ContainersOf(containers, service.name)| > 1 && service.name in oracle.probed
    ensures Observe(service, containers, oracle).healthStatus ==
      if service.healthStatus == Some("") then None else service.healthStatus
  {
  }

  /** The operations' failures, in the order of the calls. `names` are the services of the deployed compose file. */
  datatype DeployOracle = DeployOracle(
    clearFlagFirst: bool,
    begin: Fault,
    up: bool,
    names: Option<seq<string>>,
    record: bool,
    replaceServices: bool,
    finish: Fault,
    clearFlag: bool,
    lastError: Fault,
    catchUp: CatchUpOracle,
    catchUpAfterError: CatchUpOracle)

  datatype UpgradeOracle = UpgradeOracle(
    currentTag: Option<string>,
    begin: Fault,
    edited: Option<string>,
    composeWrite: FileWrite,
    deployed: bool,
    restore: FileWrite,
    names: Option<seq<string>>,
    replaceServices: bool,
    finish: Fault,
    clearFlag: bool,
    lastError: Fault,
    catchUp: CatchUpOracle,
    catchUpAfterError: CatchUpOracle)

  /** After Docker has done its part: is the success recorded without any rejection? */
  predicate RecordsSuccess(o: DeployOracle) {
    o.names.Some? && o.record && o.replaceServices && o.finish.Works? && o.clearFlag
  }

  /** The operation has written a final status before anything was left to recover from. */
  predicate LeavesInTime(o: DeployOracle) {
    o.names.Some? && o.record && (o.up ==> o.replaceServices) && TakesEffect(o.finish)
  }

  /** Deploying strands a stack exactly when the first status write rejects after taking effect, or when no final
      status was written and the last error-status write has no effect. */
  predicate DeployStrands(o: DeployOracle) {
    o.clearFlagFirst &&
    match o.begin
    case Rejects(tookEffect) => tookEffect
    case Works => !LeavesInTime(o) && !TakesEffect(o.lastError)
  }

  /** Updating the images: without the deployment record, and with its own error path when Docker fails. */
  predicate UpdateStrands(o: DeployOracle) {
    match o.begin
    case Rejects(tookEffect) => tookEffect
    case Works =>
      if !o.up then !TakesEffect(o.lastError)
      else !(o.names.Some? && o.replaceServices && TakesEffect(o.finish)) && !TakesEffect(o.lastError)
  }

  /** Upgrading a service additionally strands the stack when the compose file cannot be written. */
  predicate UpgradeStrands(o: UpgradeOracle) {
    match o.begin
    case Rejects(tookEffect) => tookEffect
    case Works =>
      if o.edited.None? then !TakesEffect(o.lastError)
      else if o.composeWrite.WriteFails? then true
      else if !o.deployed then !TakesEffect(o.lastError)
      else !(o.names.Some? && o.replaceServices && TakesEffect(o.finish)) && !TakesEffect(o.lastError)
  }

  function FreshServices(names: seq<string>): seq<Service> {
    seq(|names|, i requires 0 <= i < |names| => Service(names[i], None, None, None))
  }

  /** The catch-up can read the containers and write everything. */
  predicate IsQuiet(oracle: CatchUpOracle, rows: nat) {
    oracle.containers.Some? && oracle.rowWrites >= rows && oracle.statusWrite.Works?
  }

  /** After Docker has done its part everything about an update is written. */
  predicate UpdateIsRecorded(names: Option<seq<string>>, replaceServices: bool, finish: Fault, clearFlag: bool) {
    names.Some? && replaceServices && finish.Works? && clearFlag
  }

  class StackService {
    var status: Status
    var services: seq<Service>
    var compose: string

    /** Reads the containers and writes rows, then the derived status; gives up at the first failure. */
    method CatchUp(oracle: CatchUpOracle)
      modifies this`status, this`services
      ensures IsTransitional(old(status)) ==> status == old(status) && services == old(services)
      ensures !IsTransitional(old(status)) ==> !IsTransitional(status)
      ensures oracle.containers.None? || old(services) == [] ==> status == old(status) && services == old(services)
      ensures oracle.containers.Some? ==>
        var seen := ObserveAll(old(services), oracle.containers.value, oracle);
        && (status != old(status) ==> services == seen && status == DeriveStackStatus(Observed(seen)))
        && |services| == |old(services)|
        && (forall i :: 0 <= i < |services| ==> services[i] == seen[i] || services[i] == old(services)[i])
        && (!IsTransitional(old(status)) && old(services) != [] &&
            oracle.rowWrites >= |old(services)| && oracle.statusWrite.Works? ==>
              services == seen && status == DeriveStackStatus(Observed(seen)))
    {
      if oracle.containers.None? || services == [] || IsTransitional(status) {
        return;
      }
      ghost var before := services;
      var containers := oracle.containers.value;
      var observations: seq<Service> := [];
      for i := 0 to |services|
        invariant observations == ObserveAll(before, containers, oracle)[..i]
      {
        observations := observations + [Observe(services[i], containers, oracle)];
      }
      assert observations == ObserveAll(before, containers, oracle);
      for i := 0 to |observations|
        invariant |services| == |before| && status == old(status) && i <= oracle.rowWrites
        invariant forall k :: 0 <= k < |services| ==> services[k] == if k < i then observations[k] else before[k]
      {
        if i == oracle.rowWrites {
          return;
        }
        services := services[i := observations[i]];
      }
      assert services == observations;
      DerivedIsNotTransitional(Observed(observations));
      if TakesEffect(oracle.statusWrite) {
        status := DeriveStackStatus(Observed(observations));
      }
    }

    method TransitionStatus(to: Status, write: Fault) returns (ok: bool)
      modifies this`status
      ensures status == if TakesEffect(write) then to else old(status)
      ensures ok == write.Works?
    {
      if write.Works? || write.tookEffect {
        status := to;
      }
      ok := write.Works?;
    }

    /** The single way out of a transitional status: write the final one, then catch up. */
    method FinishOperation(to: Status, write: Fault, oracle: CatchUpOracle) returns (ok: bool)
      requires !IsTransitional(to)
      modifies this`status, this`services
      ensures ok == write.Works?
      ensures TakesEffect(write) ==> !IsTransitional(status)
      ensures !TakesEffect(write) ==> status == old(status) && services == old(services)
      ensures !ok ==> services == old(services) && (TakesEffect(write) ==> status == to)
      ensures ok && (oracle.containers.None? || old(services) == []) ==> status == to && services == old(services)
      ensures ok && IsQuiet(oracle, |old(services)|) && old(services) != [] ==>
        services == ObserveAll(old(services), oracle.containers.value, oracle) &&
        status == DeriveStackStatus(Observed(services))
    {
      ok := TransitionStatus(to, write);
      if ok {
        CatchUp(oracle);
      }
    }

    /** `refused` when the current status does not allow it; `threw` when the caller gets an error. */
    method DeployStack(o: DeployOracle) returns (refused: bool, threw: bool, success: bool)
      modifies this`status, this`services
      ensures refused <==> !CanTransition(old(status), Deploy)
      ensures refused ==> status == old(status) && services == old(services)
      ensures !refused ==> (IsTransitional(status) <==> DeployStrands(o))
      ensures !refused && !threw ==> (success <==> o.up && RecordsSuccess(o))
      ensures IsTransitional(status) && !refused ==> threw && status == Deploying
      ensures success && o.names.Some? && o.catchUp.containers.None? ==>
        status == Running && services == FreshServices(o.names.value)
      ensures success && o.names.Some? && o.names.value != [] && IsQuiet(o.catchUp, |o.names.value|) ==>
        && services == ObserveAll(FreshServices(o.names.value), o.catchUp.containers.value, o.catchUp)
        && status == DeriveStackStatus(Observed(services))
      ensures !refused ==>
        var recorded := o.names.Some? && o.record && o.finish.Works? && (o.up ==> o.replaceServices && o.clearFlag);
        threw <==> !o.clearFlagFirst || o.begin.Rejects? || (!recorded && o.lastError.Rejects?)
      ensures !o.up && o.catchUp.containers.None? && o.catchUpAfterError.containers.None? ==> services == old(services)
      ensures !refused && !threw && !success && o.catchUp.containers.None? && o.catchUpAfterError.containers.None? ==>
        status == Error
    {
      refused, threw, success := false, false, false;
      if !CanTransition(status, Deploy) {
        return true, true, false;
      }
      AllowedIsSettled(status, Deploy);
      if !o.clearFlagFirst {
        return false, true, false;
      }
      var begun := TransitionStatus(Deploying, o.begin);
      if !begun {
        return false, true, false;
      }
      success := o.up;
      var completed := false;
      if o.names.Some? && o.record {
        if success {
          if o.replaceServices {
            services := FreshServices(o.names.value);
            completed := FinishOperation(Running, o.finish, o.catchUp);
            completed := completed && o.clearFlag;
          }
        } else {
          completed := FinishOperation(Error, o.finish, o.catchUp);
        }
      }
      if !completed {
        success := false;
        var ended := FinishOperation(Error, o.lastError, o.catchUpAfterError);
        threw := !ended;
      }
    }

    method UpdateImages(o: DeployOracle) returns (refused: bool, threw: bool)
      modifies this`status, this`services
      ensures refused <==> !CanTransition(old(status), Update)
      ensures refused ==> status == old(status) && services == old(services)
      ensures !refused ==> (IsTransitional(status) <==> UpdateStrands(o))
      ensures !refused ==>
        (!threw <==> o.begin.Works? && o.up && UpdateIsRecorded(o.names, o.replaceServices, o.finish, o.clearFlag))
      ensures !threw && o.names.Some? && o.names.value != [] && IsQuiet(o.catchUp, |o.names.value|) ==>
        && services == ObserveAll(FreshServices(o.names.value), o.catchUp.containers.value, o.catchUp)
        && status == DeriveStackStatus(Observed(services))
      ensures IsTransitional(status) && !refused ==> threw && status == Updating
      ensures !threw && o.names.Some? && o.catchUp.containers.None? ==>
        status == Running && services == FreshServices(o.names.value)
      ensures !o.up && o.catchUpAfterError.containers.None? ==> services == old(services)
      ensures !refused && threw && o.begin.Works? && o.lastError.Works? && o.catchUpAfterError.containers.None? ==>
        status == Error
    {
      refused, threw := false, false;
      if !CanTransition(status, Update) {
        return true, true;
      }
      AllowedIsSettled(status, Update);
      var begun := TransitionStatus(Updating, o.begin);
      if !begun {
        return false, true;
      }
      if !o.up {
        var ended := FinishOperation(Error, o.lastError, o.catchUpAfterError);
        return false, true;
      }
      var completed := false;
      if o.names.Some? && o.replaceServices {
        services := FreshServices(o.names.value);
        completed := FinishOperation(Running, o.finish, o.catchUp);
        completed := completed && o.clearFlag;
      }
      if !completed {
        var ended := FinishOperation(Error, o.lastError, o.catchUpAfterError);
        threw := true;
      }
    }

    method WriteCompose(content: string, write: FileWrite) returns (ok: bool)
      modifies this`compose
      ensures ok == write.Written?
      ensures compose ==
        if write.Written? then content else if write.leftover.Some? then write.leftover.value else old(compose)
    {
      ok := write.Written?;
      if write.Written? {
        compose := content;
      } else if write.leftover.Some? {
        compose := write.leftover.value;
      }
    }

    /** `currentTag` is the tag in the compose file (`latest` when it names none), `None` when the file or the service
        cannot be read; an unchanged tag is left alone. */
    method UpgradeServiceImage(targetTag: string, o: UpgradeOracle) returns (refused: bool, threw: bool, changed: bool)
      modifies this`status, this`services, this`compose
      ensures refused <==> o.currentTag.None? || !CanTransition(old(status), Update)
      ensures refused || o.currentTag == Some(targetTag) ==>
        status == old(status) && services == old(services) && compose == old(compose) && !changed
      ensures !refused && o.currentTag != Some(targetTag) ==> (IsTransitional(status) <==> UpgradeStrands(o))
      ensures !refused && o.currentTag != Some(targetTag) && o.begin.Works? && o.edited.Some? && o.composeWrite.Written? ==>
        && (o.deployed ==> compose == o.edited.value)
        && (!o.deployed && o.restore.Written? ==> compose == old(compose))
      ensures !o.deployed && o.catchUpAfterError.containers.None? ==> services == old(services)
      ensures changed ==> !threw && o.edited.Some? && compose == o.edited.value
      ensures changed <==>
        && !refused && o.currentTag != Some(targetTag) && o.begin.Works? && o.edited.Some? && o.composeWrite.Written?
        && o.deployed && UpdateIsRecorded(o.names, o.replaceServices, o.finish, o.clearFlag)
      ensures threw <==> refused || (o.currentTag != Some(targetTag) && !changed)
      ensures changed && o.names.Some? && o.names.value != [] && IsQuiet(o.catchUp, |o.names.value|) ==>
        && services == ObserveAll(FreshServices(o.names.value), o.catchUp.containers.value, o.catchUp)
        && status == DeriveStackStatus(Observed(services))
      ensures changed && o.names.Some? && o.catchUp.containers.None? ==>
        status == Running && services == FreshServices(o.names.value)
    {
      refused, threw, changed := false, false, false;
      var originalContent := compose;
      if o.currentTag.None? || !CanTransition(status, Update) {
        return true, true, false;
      }
      AllowedIsSettled(status, Update);
      if o.currentTag.value == targetTag {
        return;
      }
      var begun := TransitionStatus(Updating, o.begin);
      if !begun {
        return false, true, false;
      }
      if o.edited.None? {
        var ended := FinishOperation(Error, o.lastError, o.catchUpAfterError);
        return false, true, false;
      }
      var written := WriteCompose(o.edited.value, o.composeWrite);
      if !written {
        return false, true, false;
      }
      if !o.deployed {
        var restored := WriteCompose(originalContent, o.restore);
        var ended := FinishOperation(Error, o.lastError, o.catchUpAfterError);
        return false, true, false;
      }
      var completed := false;
      if o.names.Some? && o.replaceServices {
        services := FreshServices(o.names.value);
        completed := FinishOperation(Running, o.finish, o.catchUp);
        completed := completed && o.clearFlag;
      }
      if !completed {
        var ended := FinishOperation(Error, o.lastError, o.catchUpAfterError);
        return false, true, false;
      }
      changed := true;
    }
  }

  /** An action starts only from a settled status. */
  lemma AllowedIsSettled(current: Status, action: Action)
    requires CanTransition(current, action)
    ensures !IsTransitional(current)
  {
  }

  /** With a database whose rejected status writes have no effect and whose last error write works, neither deploying
      nor updating can strand a stack; upgrading does exactly when the edited compose file cannot be written. */
  lemma OnlyTheComposeWriteStrands(d: DeployOracle, u: UpgradeOracle)
    requires d.lastError.Works? && u.lastError.Works?
    requires d.begin != Rejects(true) && u.begin != Rejects(true)
    ensures !DeployStrands(d) && !UpdateStrands(d)
    ensures UpgradeStrands(u) <==> u.begin.Works? && u.edited.Some? && u.composeWrite.WriteFails?
  {
  }

  /** One way it happens: the disk is full when the new compose file is written. */
  lemma FullDiskStrandsAnUpgrade(noCatchUp: CatchUpOracle)
    ensures UpgradeStrands(
      UpgradeOracle(Some("1"), Works, Some("image: app:2"), WriteFails(None), true, Written, Some([]), true, Works, true,
                    Works, noCatchUp, noCatchUp))
  {
  }
}
