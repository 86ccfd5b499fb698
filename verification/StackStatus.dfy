/** The status of a stack (server/src/domain/stack-state-derivation.ts, stack-status-machine.ts). */
module StackStatus {
  import opened Text

  datatype Status =
    | Draft | Stopped | Deploying | Running | Healthy | Unhealthy | Updating | BackingUp | Restoring | Migrating | Error

  /** Owned by an operation in flight. */
  predicate IsTransitional(status: Status) {
    status in {Deploying, Updating, BackingUp, Restoring, Migrating}
  }

  datatype ObservedService = ObservedService(containerState: Option<string>, healthStatus: Option<string>)

  /** No health is spelled as none or as the empty string. */
  function NormalizeHealth(value: Option<string>): Option<string> {
    if value == Some("") then None else value
  }

  predicate IsBroken(service: ObservedService) {
    service.containerState == Some("restarting") || service.containerState == Some("dead")
  }

  function DeriveStackStatus(services: seq<ObservedService>): Status {
    if exists s :: s in services && IsBroken(s) then Error
    else if services != [] && forall s :: s in services ==> s.containerState == Some("exited") then Stopped
    else if exists s :: s in services && s.healthStatus == Some("unhealthy") then Unhealthy
    else if (exists s :: s in services && s.healthStatus.Some?) &&
            forall s :: s in services ==> s.healthStatus in {None, Some("healthy")} then Healthy
    else Running
  }

  /** Observation never puts a stack into a status that only an operation may set. */
  lemma DerivedIsNotTransitional(services: seq<ObservedService>)
    ensures !IsTransitional(DeriveStackStatus(services))
  {
  }

  /** Some service shows this container state. */
  ghost predicate AnyIn(services: seq<ObservedService>, state: string) {
    exists s :: s in services && s.containerState == Some(state)
  }

  /** Some service shows this health. */
  ghost predicate AnyShows(services: seq<ObservedService>, health: Option<string>) {
    exists s :: s in services && s.healthStatus == health
  }

  /** All services have exited, and there is at least one. */
  ghost predicate AllExited(services: seq<ObservedService>) {
    services != [] && forall s :: s in services ==> s.containerState == Some("exited")
  }

  /** Exactly when each status is derived, from which states and healths occur. */
  lemma DerivedIff(services: seq<ObservedService>)
    ensures var status := DeriveStackStatus(services);
      var broken := AnyIn(services, "restarting") || AnyIn(services, "dead");
      var unhealthy := AnyShows(services, Some("unhealthy"));
      var pending := exists s :: s in services && s.healthStatus !in {None, Some("healthy"), Some("unhealthy")};
      && (status == Error <==> broken)
      && (status == Stopped <==> AllExited(services))
      && (status == Unhealthy <==> !broken && !AllExited(services) && unhealthy)
      && (status == Healthy <==>
            !broken && !AllExited(services) && !unhealthy && !pending && AnyShows(services, Some("healthy")))
      && (status == Running <==>
            !broken && !AllExited(services) && !unhealthy && (pending || !AnyShows(services, Some("healthy"))))
  {
    if AllExited(services) {
      assert forall s :: s in services ==> !IsBroken(s);
      assert services[0] in services;
    }
  }

  /** The status depends on which states occur, not on the order or the number of services showing them. */
  lemma DerivationIgnoresOrder(services: seq<ObservedService>, others: seq<ObservedService>)
    requires forall s :: s in services <==> s in others
    ensures DeriveStackStatus(services) == DeriveStackStatus(others)
  {
    if services != [] {
      assert services[0] in others;
    }
    if others != [] {
      assert others[0] in services;
    }
  }

  datatype Action = Deploy | Stop | Restart | Delete | Update | Backup | Restore

  function AllowedFrom(action: Action): set<Status> {
    match action
    case Deploy => {Draft, Stopped, Error, Running, Healthy, Unhealthy}
    case Stop => {Running, Healthy, Unhealthy, Error}
    case Restart => {Running, Healthy, Unhealthy}
    case Delete => {Draft, Stopped, Error}
    case Update => {Draft, Stopped, Error, Running, Healthy, Unhealthy}
    case Backup => {Running, Healthy, Unhealthy, Stopped}
    case Restore => {Running, Healthy, Unhealthy, Stopped, Error}
  }

  predicate CanTransition(current: Status, action: Action) {
    current in AllowedFrom(action)
  }

  /** What each status allows. */
  lemma ActionsByStatus(current: Status)
    ensures (set action: Action | CanTransition(current, action)) ==
      match current
      case Draft => {Deploy, Update, Delete}
      case Stopped => {Deploy, Update, Delete, Backup, Restore}
      case Error => {Deploy, Update, Delete, Stop, Restore}
      case Running | Healthy | Unhealthy => {Deploy, Update, Stop, Restart, Backup, Restore}
      case Deploying | Updating | BackingUp | Restoring | Migrating => {}
  {
  }

  /** No operation starts while another one owns the stack. */
  lemma NoActionDuringAnother(current: Status, action: Action)
    requires IsTransitional(current)
    ensures !CanTransition(current, action)
  {
  }
}
