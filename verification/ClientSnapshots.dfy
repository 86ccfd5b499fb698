/** Snapshots of migration operations as they reach a browser, in any order
    (client/src/hooks/use-migration-operations.ts). */
module ClientSnapshots {
  import opened Text

  datatype Step =
    | Starting | StoppingOldStack | MovingOriginalAside | CreatingDirectory | BackingUp | CopyingNamedVolume
    | CopyingBindMount | WritingCompose | RecordingStack | Deploying | RollingBack | Finished

  datatype Status = Running | Succeeded | Failed

  datatype Snapshot = Snapshot(id: string, status: Status, step: Step, stepDetail: Option<string>)

  /** The step's position in the shared list. */
  function StepIndex(snapshot: Snapshot): nat {
    match snapshot.step
    case Starting => 0
    case StoppingOldStack => 1
    case MovingOriginalAside => 2
    case CreatingDirectory => 3
    case BackingUp => 4
    case CopyingNamedVolume => 5
    case CopyingBindMount => 6
    case WritingCompose => 7
    case RecordingStack => 8
    case Deploying => 9
    case RollingBack => 10
    case Finished => 11
  }

  predicate IsSameSnapshot(a: Snapshot, b: Snapshot) {
    a.status == b.status && a.step == b.step && a.stepDetail == b.stepDetail
  }

  predicate IsStale(current: Option<Snapshot>, next: Snapshot) {
    match current
    case None => false
    case Some(c) =>
      if !c.status.Running? then next.status.Running? || IsSameSnapshot(c, next)
      else next.status.Running? && (StepIndex(next) < StepIndex(c) || IsSameSnapshot(c, next))
  }

  /** What a browser session knows: the stored snapshots and the operations it reports on. */
  datatype Session = Session(store: map<string, Snapshot>, followed: set<string>)

  function Stored(session: Session, id: string): Option<Snapshot> {
    if id in session.store then Some(session.store[id]) else None
  }

  function Upserted(session: Session, snapshot: Snapshot, follow: bool): Session {
    if IsStale(Stored(session, snapshot.id), snapshot) then session
    else
      Session(session.store[snapshot.id := snapshot],
              if follow || snapshot.status.Running? then session.followed + {snapshot.id} else session.followed)
  }

  class MigrationOperationsStore {
    var store: map<string, Snapshot>
    var followed: set<string>

    ghost function View(): Session
      reads this
    {
      Session(store, followed)
    }

    /** Takes a snapshot unless it is stale; `reported` tells whether the listener hears of it. */
    method Upsert(snapshot: Snapshot, follow: bool) returns (reported: bool)
      modifies this
      ensures View() == Upserted(old(View()), snapshot, follow)
      ensures reported <==> !IsStale(Stored(old(View()), snapshot.id), snapshot) && snapshot.id in followed
    {
      var current := if snapshot.id in store then Some(store[snapshot.id]) else None;
      if IsStale(current, snapshot) {
        return false;
      }
      if follow || snapshot.status.Running? {
        followed := followed + {snapshot.id};
      }
      store := store[snapshot.id := snapshot];
      reported := snapshot.id in followed;
    }
  }

  /** `b` is not behind `a`: a finished operation stays finished, a running one never returns to an earlier step. */
  predicate IsNotBehind(a: Snapshot, b: Snapshot) {
    if !a.status.Running? then !b.status.Running?
    else b.status.Running? ==> StepIndex(a) <= StepIndex(b)
  }

  /** The steps of a migration in the order it reports them: a later one replaces an earlier one, never the other way. */
  lemma LaterStepWins(early: Snapshot, late: Snapshot, i: nat, j: nat)
    requires early.status == Running && late.status == Running && i < j < 12
    requires var order := [Starting, StoppingOldStack, MovingOriginalAside, CreatingDirectory, BackingUp,
                           CopyingNamedVolume, CopyingBindMount, WritingCompose, RecordingStack, Deploying, RollingBack,
                           Finished];
      early.step == order[i] && late.step == order[j]
    ensures !IsStale(Some(early), late) && IsStale(Some(late), early)
  {
  }

  /** A repeated snapshot is not taken, so nobody hears of it twice. */
  lemma RepetitionIsStale(session: Session, snapshot: Snapshot, follow: bool)
    ensures var current := Stored(Upserted(session, snapshot, follow), snapshot.id);
      IsStale(current, snapshot)
  {
  }

  /** Anything new is taken: another detail of the same step, and another outcome. */
  lemma NewsIsTaken(current: Snapshot, next: Snapshot)
    requires current.id == next.id && current != next
    requires current.status == next.status == Running ==> current.step == next.step
    requires current.status != Running <==> next.status != Running
    ensures !IsStale(Some(current), next)
  {
  }

  /** An operation this session has asked for is reported on, even if only its end arrives. */
  lemma AskedForIsFollowed(session: Session, snapshot: Snapshot)
    requires !IsStale(Stored(session, snapshot.id), snapshot)
    ensures snapshot.id in Upserted(session, snapshot, true).followed
  {
  }

  /** A delivery: a snapshot that arrives, and whether it answers this session's own request. */
  type Delivery = (Snapshot, bool)

  function Delivered(session: Session, deliveries: seq<Delivery>): Session {
    if deliveries == [] then session
    else
      var last := deliveries[|deliveries| - 1];
      Upserted(Delivered(session, deliveries[..|deliveries| - 1]), last.0, last.1)
  }

  /** Under any reordering, duplication or loss, what is stored of an operation never moves backwards. */
  lemma {:induction false} NeverBackwards(session: Session, deliveries: seq<Delivery>, n: nat, id: string)
    requires n <= |deliveries| && id in Delivered(session, deliveries[..n]).store
    ensures id in Delivered(session, deliveries).store
    ensures IsNotBehind(Delivered(session, deliveries[..n]).store[id], Delivered(session, deliveries).store[id])
  {
    if n == |deliveries| {
      assert deliveries[..n] == deliveries;
    } else {
      var init := deliveries[..|deliveries| - 1];
      assert init[..n] == deliveries[..n];
      hide StepIndex;
      NeverBackwards(session, init, n, id);
    }
  }

  /** The snapshots of one run: any number of running ones and a single terminal one. */
  predicate HasOneEnd(deliveries: seq<Delivery>, end: Snapshot) {
    !end.status.Running? &&
    forall d :: d in deliveries && d.0.id == end.id && !d.0.status.Running? ==> d.0 == end
  }

  /** If the end of a run is delivered at all, it is what remains stored, wherever it came among the others. */
  lemma {:induction false} TheEndStays(deliveries: seq<Delivery>, end: Snapshot)
    requires HasOneEnd(deliveries, end)
    ensures (exists d :: d in deliveries && d.0 == end) ==>
      Stored(Delivered(NOTHING_STORED, deliveries), end.id) == Some(end)
    ensures var stored := Stored(Delivered(NOTHING_STORED, deliveries), end.id);
      stored.Some? ==> stored.value == end || stored.value.status.Running?
  {
    if deliveries != [] {
      hide StepIndex;
      var init, last := deliveries[..|deliveries| - 1], deliveries[|deliveries| - 1];
      assert last in deliveries && forall d :: d in init ==> d in deliveries;
      TheEndStays(init, end);
      assert forall d :: d in deliveries ==> d in init || d == last;
    }
  }

  const NOTHING_STORED := Session(map[], {})

  /** All snapshots of the operation that arrive show it running. */
  predicate AreRunning(deliveries: seq<Delivery>, id: string) {
    forall d :: d in deliveries && d.0.id == id ==> d.0.status.Running?
  }

  /** The snapshot is one of those delivered, and none of them is further along. */
  predicate IsFurthest(deliveries: seq<Delivery>, id: string, snapshot: Snapshot) {
    && (exists d :: d in deliveries && d.0 == snapshot) && snapshot.id == id
    && forall d :: d in deliveries && d.0.id == id ==> StepIndex(d.0) <= StepIndex(snapshot)
  }

  /** However many running snapshots of an operation arrive, and in whatever order, one that is furthest along stays. */
  lemma {:induction false} FurthestStays(deliveries: seq<Delivery>, id: string)
    requires AreRunning(deliveries, id)
    ensures match Stored(Delivered(NOTHING_STORED, deliveries), id)
      case None => forall d :: d in deliveries ==> d.0.id != id
      case Some(snapshot) => IsFurthest(deliveries, id, snapshot)
  {
    if deliveries != [] {
      hide StepIndex;
      var init, last := deliveries[..|deliveries| - 1], deliveries[|deliveries| - 1];
      assert last in deliveries && forall d :: d in deliveries <==> d in init || d == last;
      FurthestStays(init, id);
      var before := Stored(Delivered(NOTHING_STORED, init), id);
      if before.Some? {
        assert before.value.status.Running?;
      }
    }
  }

  /** A session reports on an operation that it has seen running or has asked for, and on no other one. */
  lemma {:induction false} FollowedIff(deliveries: seq<Delivery>, id: string)
    requires AreRunning(deliveries, id)
    ensures id in Delivered(NOTHING_STORED, deliveries).followed <==> exists d :: d in deliveries && d.0.id == id
    ensures id in Delivered(NOTHING_STORED, deliveries).followed <==> id in Delivered(NOTHING_STORED, deliveries).store
  {
    if deliveries != [] {
      hide StepIndex;
      var init, last := deliveries[..|deliveries| - 1], deliveries[|deliveries| - 1];
      assert last in deliveries && forall d :: d in deliveries <==> d in init || d == last;
      FollowedIff(init, id);
    }
  }

  lemma {:induction false} OthersAreNotFollowed(deliveries: seq<Delivery>, id: string)
    requires forall d :: d in deliveries && d.0.id == id ==> !d.0.status.Running? && !d.1
    ensures id !in Delivered(NOTHING_STORED, deliveries).followed
  {
    if deliveries != [] {
      hide StepIndex, IsStale;
      var init, last := deliveries[..|deliveries| - 1], deliveries[|deliveries| - 1];
      assert last in deliveries && forall d :: d in init ==> d in deliveries;
      OthersAreNotFollowed(init, id);
    }
  }

  /** So the stored step does not depend on the order in which, or how often, the snapshots arrive. */
  lemma OrderDoesNotMatter(deliveries: seq<Delivery>, others: seq<Delivery>, id: string)
    requires AreRunning(deliveries, id) && forall d :: d in deliveries <==> d in others
    ensures var a := Stored(Delivered(NOTHING_STORED, deliveries), id);
      var b := Stored(Delivered(NOTHING_STORED, others), id);
      a.Some? == b.Some? && (a.Some? ==> a.value.step == b.value.step)
  {
    hide Delivered;
    FurthestStays(deliveries, id);
    FurthestStays(others, id);
    var a := Stored(Delivered(NOTHING_STORED, deliveries), id);
    var b := Stored(Delivered(NOTHING_STORED, others), id);
    if a.Some? && b.Some? {
      assert StepIndex(a.value) == StepIndex(b.value);
    }
  }
}
