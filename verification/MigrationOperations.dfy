/** The registry of background migrations (server/src/application/migration-operation-service.ts,
    server/src/domain/migration-operation.ts). */
module MigrationOperations {
  import opened Text

  datatype OperationStatus = Running | Succeeded | Failed

  datatype Operation = Operation(
    id: string,
    stackId: string,
    composePath: string,
    status: OperationStatus,
    step: string,
    startedAt: int,
    finishedAt: Option<int>)

  const ONE_HOUR_MS := 60 * 60 * 1000
  const MAX_FINISHED_OPERATIONS := 50

  predicate IsFinished(operation: Operation) {
    !operation.status.Running?
  }

  function Started(id: string, stackId: string, composePath: string, now: int): Operation {
    Operation(id, stackId, composePath, Running, "starting", now, None)
  }

  /** A finished operation is returned unchanged. */
  function WithStep(operation: Operation, step: string): Operation {
    if IsFinished(operation) then operation else operation.(step := step)
  }

  function Finish(operation: Operation, success: bool, now: int): Operation {
    operation.(status := if success then Succeeded else Failed, step := "finished", finishedAt := Some(now))
  }

  // ----- Pruning -----

  /** Behind every operation that did not start earlier: a stable sort, newest first. */
  function InsertNewest(operation: Operation, sorted: seq<Operation>): (r: seq<Operation>)
    ensures forall o :: o in r <==> o == operation || o in sorted
  {
    if sorted == [] || sorted[|sorted| - 1].startedAt >= operation.startedAt then sorted + [operation]
    else InsertNewest(operation, sorted[..|sorted| - 1]) + [sorted[|sorted| - 1]]
  }

  function NewestFirst(operations: seq<Operation>): (r: seq<Operation>)
    ensures forall o :: o in r <==> o in operations
  {
    if operations == [] then [] else InsertNewest(operations[|operations| - 1], NewestFirst(operations[..|operations| - 1]))
  }

  predicate IsNewestFirst(operations: seq<Operation>) {
    forall i, j :: 0 <= i < j < |operations| ==> operations[i].startedAt >= operations[j].startedAt
  }

  predicate IsRecent(operation: Operation, now: int) {
    operation.finishedAt.None? || now - operation.finishedAt.value <= ONE_HOUR_MS
  }

  /** The finished, recent ones, in order. */
  function RecentlyFinished(operations: seq<Operation>, now: int): (r: seq<Operation>)
    ensures forall o :: o in r <==> o in operations && IsFinished(o) && IsRecent(o, now)
  {
    if operations == [] then []
    else
      (if IsFinished(operations[0]) && IsRecent(operations[0], now) then [operations[0]] else []) +
      RecentlyFinished(operations[1..], now)
  }

  function FirstFifty(operations: seq<Operation>): seq<Operation> {
    if |operations| <= MAX_FINISHED_OPERATIONS then operations else operations[..MAX_FINISHED_OPERATIONS]
  }

  function RunningOr(operations: seq<Operation>, kept: seq<Operation>): (r: seq<Operation>)
    ensures forall o :: o in r <==> o in operations && (o.status.Running? || o in kept)
  {
    if operations == [] then []
    else
      (if operations[0].status.Running? || operations[0] in kept then [operations[0]] else []) +
      RunningOr(operations[1..], kept)
  }

  function Pruned(operations: seq<Operation>, now: int): seq<Operation> {
    var sorted := NewestFirst(operations);
    RunningOr(sorted, FirstFifty(RecentlyFinished(sorted, now)))
  }

  lemma {:induction false} InsertKeepsOrder(operation: Operation, sorted: seq<Operation>)
    requires IsNewestFirst(sorted)
    ensures IsNewestFirst(InsertNewest(operation, sorted))
  {
    if sorted != [] && sorted[|sorted| - 1].startedAt < operation.startedAt {
      InsertKeepsOrder(operation, sorted[..|sorted| - 1]);
      var init := InsertNewest(operation, sorted[..|sorted| - 1]);
      forall o | o in init
        ensures o.startedAt >= sorted[|sorted| - 1].startedAt
      {
      }
    }
  }

  lemma {:induction false} SortOrders(operations: seq<Operation>)
    ensures IsNewestFirst(NewestFirst(operations))
  {
    if operations != [] {
      SortOrders(operations[..|operations| - 1]);
      InsertKeepsOrder(operations[|operations| - 1], NewestFirst(operations[..|operations| - 1]));
    }
  }

  lemma {:induction false} RecentStaysOrdered(operations: seq<Operation>, now: int)
    requires IsNewestFirst(operations)
    ensures IsNewestFirst(RecentlyFinished(operations, now))
  {
    if operations != [] {
      RecentStaysOrdered(operations[1..], now);
      assert forall o :: o in operations[1..] ==> operations[0].startedAt >= o.startedAt;
    }
  }

  /** A running operation is never dropped. */
  lemma RunningIsKept(operations: seq<Operation>, now: int, o: Operation)
    requires o.status.Running?
    ensures o in Pruned(operations, now) <==> o in operations
  {
  }

  /** A dropped operation had finished more than an hour ago, or fifty newer finished ones are kept. */
  lemma OnlySurplusIsDropped(operations: seq<Operation>, now: int, o: Operation)
    requires o in operations && o !in Pruned(operations, now)
    ensures o.status != Running
    ensures (o.finishedAt.Some? && now - o.finishedAt.value > 3_600_000) ||
      exists kept: seq<Operation> :: |kept| == 50 &&
        forall k :: k in kept ==> k in Pruned(operations, now) && IsFinished(k) && k.startedAt >= o.startedAt
  {
    var sorted := NewestFirst(operations);
    var recent := RecentlyFinished(sorted, now);
    SortOrders(operations);
    RecentStaysOrdered(sorted, now);
    hide NewestFirst, RecentlyFinished;
    if IsRecent(o, now) {
      assert o in recent;
      var i :| 0 <= i < |recent| && recent[i] == o;
      var kept := FirstFifty(recent);
      assert forall k :: 0 <= k < |kept| ==> kept[k] == recent[k] && kept[k] in kept;
      assert |kept| == MAX_FINISHED_OPERATIONS;
      forall k | k in kept
        ensures k in Pruned(operations, now) && IsFinished(k) && k.startedAt >= o.startedAt
      {
        var j :| 0 <= j < |kept| && kept[j] == k;
        assert recent[j] == k && k in recent;
      }
    }
  }

  lemma {:induction false} SetOfSeqIsSmall(operations: seq<Operation>)
    ensures |set o | o in operations| <= |operations|
  {
    if operations != [] {
      SetOfSeqIsSmall(operations[1..]);
      assert (set o | o in operations) == {operations[0]} + (set o | o in operations[1..]);
    } else {
      assert (set o | o in operations) == {};
    }
  }

  /** At most fifty finished operations remain, all of them recent. */
  lemma AtMostFiftyFinished(operations: seq<Operation>, now: int)
    ensures |set o | o in Pruned(operations, now) && o.status != Running| <= 50
    ensures forall o :: o in Pruned(operations, now) && o.status != Running && o.finishedAt.Some? ==>
      now - o.finishedAt.value <= 3_600_000
  {
    var sorted := NewestFirst(operations);
    var recent := RecentlyFinished(sorted, now);
    var kept := FirstFifty(recent);
    hide NewestFirst, RecentlyFinished;
    SetOfSeqIsSmall(kept);
    var finished := set o | o in Pruned(operations, now) && o.status != Running;
    assert finished <= set o | o in kept;
    Subset(finished, set o | o in kept);
    forall o | o in kept
      ensures o in recent
    {
    }
  }

  lemma {:induction false} Subset(a: set<Operation>, b: set<Operation>)
    requires a <= b
    ensures |a| <= |b|
  {
    if o :| o in a {
      Subset(a - {o}, b - {o});
    }
  }

  lemma {:induction false} RunningOrKeepsOrder(operations: seq<Operation>, kept: seq<Operation>)
    requires IsNewestFirst(operations)
    ensures IsNewestFirst(RunningOr(operations, kept))
  {
    if operations != [] {
      RunningOrKeepsOrder(operations[1..], kept);
      assert forall o :: o in operations[1..] ==> operations[0].startedAt >= o.startedAt;
    }
  }

  /** What is left is listed newest first. */
  lemma PrunedIsNewestFirst(operations: seq<Operation>, now: int)
    ensures IsNewestFirst(Pruned(operations, now))
  {
    var sorted := NewestFirst(operations);
    SortOrders(operations);
    RunningOrKeepsOrder(sorted, FirstFifty(RecentlyFinished(sorted, now)));
  }

  // ----- The registry as a state machine -----

  predicate DistinctIds(operations: seq<Operation>) {
    forall i, j :: 0 <= i < j < |operations| ==> operations[i].id != operations[j].id
  }

  /** Two entries with one id are one entry. */
  lemma SameId(operations: seq<Operation>, a: Operation, b: Operation)
    requires DistinctIds(operations) && a in operations && b in operations && a.id == b.id
    ensures a == b
  {
    var i :| 0 <= i < |operations| && operations[i] == a;
    var j :| 0 <= j < |operations| && operations[j] == b;
    assert i == j;
  }

  lemma {:induction false} InsertKeepsDistinct(operation: Operation, sorted: seq<Operation>)
    requires DistinctIds(sorted) && forall o :: o in sorted ==> o.id != operation.id
    ensures DistinctIds(InsertNewest(operation, sorted))
  {
    if sorted != [] && sorted[|sorted| - 1].startedAt < operation.startedAt {
      var init := sorted[..|sorted| - 1];
      InsertKeepsDistinct(operation, init);
      forall o | o in InsertNewest(operation, init)
        ensures o.id != sorted[|sorted| - 1].id
      {
      }
    }
  }

  lemma {:induction false} SortKeepsDistinct(operations: seq<Operation>)
    requires DistinctIds(operations)
    ensures DistinctIds(NewestFirst(operations))
  {
    if operations != [] {
      var init := operations[..|operations| - 1];
      SortKeepsDistinct(init);
      InsertKeepsDistinct(operations[|operations| - 1], NewestFirst(init));
    }
  }

  lemma {:induction false} FilterKeepsDistinct(operations: seq<Operation>, kept: seq<Operation>)
    requires DistinctIds(operations)
    ensures DistinctIds(RunningOr(operations, kept))
  {
    if operations != [] {
      FilterKeepsDistinct(operations[1..], kept);
      assert forall o :: o in operations[1..] ==> o.id != operations[0].id;
    }
  }

  lemma PruneKeepsDistinct(operations: seq<Operation>, now: int)
    requires DistinctIds(operations)
    ensures DistinctIds(Pruned(operations, now))
    ensures forall o :: o in Pruned(operations, now) ==> o in operations
  {
    SortKeepsDistinct(operations);
    var sorted := NewestFirst(operations);
    FilterKeepsDistinct(sorted, FirstFifty(RecentlyFinished(sorted, now)));
  }

  /** Stores an operation under its id: in place when the id is known, at the end otherwise. */
  function Saved(operations: seq<Operation>, operation: Operation): (r: seq<Operation>)
    ensures operation in r
    ensures forall o :: o in r ==> o == operation || o in operations
    ensures forall o :: o in operations && o.id != operation.id ==> o in r
  {
    if operations == [] then [operation]
    else if operations[0].id == operation.id then [operation] + operations[1..]
    else [operations[0]] + Saved(operations[1..], operation)
  }

  lemma {:induction false} SaveKeepsDistinct(operations: seq<Operation>, operation: Operation)
    requires DistinctIds(operations)
    ensures DistinctIds(Saved(operations, operation))
  {
    if operations != [] {
      assert forall o :: o in operations[1..] ==> o.id != operations[0].id;
      if operations[0].id != operation.id {
        SaveKeepsDistinct(operations[1..], operation);
      }
    }
  }

  function Find(operations: seq<Operation>, id: string): (r: Option<Operation>)
    ensures r.Some? ==> r.value in operations && r.value.id == id
    ensures r.None? ==> forall o :: o in operations ==> o.id != id
  {
    if operations == [] then None
    else if operations[0].id == id then Some(operations[0])
    else Find(operations[1..], id)
  }

  datatype Key = StackKey(slug: string) | ComposeKey(path: string)

  /** An empty slug has no stack key. */
  function KeysOf(slug: string, compose: string): set<Key> {
    (if slug == "" then {} else {StackKey(slug)}) + {ComposeKey(compose)}
  }

  /** One call of `start`, from the moment it holds its keys. */
  datatype Start = Preflight(slug: string, compose: string) | Executing(slug: string, compose: string, op: string) | Over

  function Held(start: Start): set<Key> {
    if start.Over? then {} else KeysOf(start.slug, start.compose)
  }

  datatype State = State(operations: seq<Operation>, inFlight: set<Key>, starts: map<nat, Start>)

  datatype Step =
    | StartCalled(sid: nat, slug: string, compose: string, now: int)
    | PreflightFails(sid: nat)
    | PreflightPasses(sid: nat, id: string, now: int)
    | Progress(sid: nat, step: string)
    | Settles(sid: nat, success: bool, now: int)
    | Listed(now: int)

  /** Preflight refuses an empty slug, and operation ids are unused ones. */
  predicate Enabled(s: State, step: Step) {
    match step
    case StartCalled(sid, _, _, _) => sid !in s.starts
    case PreflightFails(sid) => sid in s.starts && s.starts[sid].Preflight?
    case PreflightPasses(sid, id, _) =>
      sid in s.starts && s.starts[sid].Preflight? && s.starts[sid].slug != "" && Find(s.operations, id).None?
    case Progress(sid, _) => sid in s.starts && s.starts[sid].Executing?
    case Settles(sid, _, _) => sid in s.starts && s.starts[sid].Executing?
    case Listed(_) => true
  }

  predicate IsRefused(s: State, slug: string, compose: string) {
    KeysOf(slug, compose) * s.inFlight != {}
  }

  function Next(s: State, step: Step): State
    requires Enabled(s, step)
  {
    match step
    case StartCalled(sid, slug, compose, now) =>
      var t := s.(operations := Pruned(s.operations, now));
      if IsRefused(s, slug, compose) then t
      else t.(inFlight := s.inFlight + KeysOf(slug, compose), starts := s.starts[sid := Preflight(slug, compose)])
    case PreflightFails(sid) =>
      s.(inFlight := s.inFlight - Held(s.starts[sid]), starts := s.starts[sid := Over])
    case PreflightPasses(sid, id, now) =>
      var start := s.starts[sid];
      s.(operations := Saved(s.operations, Started(id, start.slug, start.compose, now)),
         starts := s.starts[sid := Executing(start.slug, start.compose, id)])
    case Progress(sid, step) =>
      var current := Find(s.operations, s.starts[sid].op);
      if current.None? then s else s.(operations := Saved(s.operations, WithStep(current.value, step)))
    case Settles(sid, success, now) =>
      var current := Find(s.operations, s.starts[sid].op);
      var t := s.(inFlight := s.inFlight - Held(s.starts[sid]), starts := s.starts[sid := Over]);
      if current.None? then t else t.(operations := Saved(s.operations, Finish(current.value, success, now)))
    case Listed(now) => s.(operations := Pruned(s.operations, now))
  }

  // ----- The invariant -----

  predicate IsRunBy(s: State, o: Operation, sid: nat) {
    sid in s.starts && s.starts[sid].Executing? && s.starts[sid].op == o.id
  }

  /** An executing start has a running operation of its stack and compose file. */
  predicate StartOk(s: State, sid: nat)
    requires sid in s.starts
  {
    var start := s.starts[sid];
    start.Executing? ==>
      var o := Find(s.operations, start.op);
      && start.slug != "" && o.Some? && o.value.status.Running?
      && o.value.stackId == start.slug && o.value.composePath == start.compose
  }

  predicate OperationOk(s: State, o: Operation) {
    o.status.Running? ==> exists sid :: sid in s.starts && IsRunBy(s, o, sid)
  }

  predicate KeyOk(s: State, k: Key) {
    k in s.inFlight <==> exists sid :: sid in s.starts && k in Held(s.starts[sid])
  }

  ghost predicate Inv(s: State) {
    && DistinctIds(s.operations)
    && (forall sid :: sid in s.starts ==> StartOk(s, sid))
    && (forall o :: o in s.operations ==> OperationOk(s, o))
    && (forall k :: KeyOk(s, k))
    && (forall a, b :: a in s.starts && b in s.starts && a != b ==> Held(s.starts[a]) !! Held(s.starts[b]))
  }

  // ----- Every step keeps it -----

  /** Looking up an id finds the one entry that has it. */
  lemma FindIs(operations: seq<Operation>, o: Operation)
    requires DistinctIds(operations) && o in operations
    ensures Find(operations, o.id) == Some(o)
  {
    SameId(operations, Find(operations, o.id).value, o);
  }

  /** Entries that survive in `operations` under their own ids are found as before. */
  lemma InvWithOperations(s: State, operations: seq<Operation>)
    requires Inv(s) && DistinctIds(operations)
    requires forall o :: o in operations ==> o in s.operations
    requires forall o :: o in s.operations && o.status.Running? ==> o in operations
    ensures Inv(s.(operations := operations))
  {
    var t := s.(operations := operations);
    forall sid | sid in t.starts
      ensures StartOk(t, sid)
    {
      assert StartOk(s, sid);
      if s.starts[sid].Executing? {
        FindIs(operations, Find(s.operations, s.starts[sid].op).value);
      }
    }
    forall o | o in operations
      ensures OperationOk(t, o)
    {
      assert OperationOk(s, o);
      if o.status.Running? {
        var sid :| sid in s.starts && IsRunBy(s, o, sid);
        assert IsRunBy(t, o, sid);
      }
    }
    forall k
      ensures KeyOk(t, k)
    {
      assert KeyOk(s, k);
    }
  }

  lemma InvPruned(s: State, now: int)
    requires Inv(s)
    ensures Inv(s.(operations := Pruned(s.operations, now)))
  {
    PruneKeepsDistinct(s.operations, now);
    forall o | o in s.operations && o.status.Running?
      ensures o in Pruned(s.operations, now)
    {
      RunningIsKept(s.operations, now, o);
    }
    hide Pruned;
    InvWithOperations(s, Pruned(s.operations, now));
  }

  /** A start that is not refused takes keys nobody holds. */
  lemma InvHold(s: State, sid: nat, slug: string, compose: string)
    requires Inv(s) && sid !in s.starts && !IsRefused(s, slug, compose)
    ensures Inv(s.(inFlight := s.inFlight + KeysOf(slug, compose), starts := s.starts[sid := Preflight(slug, compose)]))
  {
    var t := s.(inFlight := s.inFlight + KeysOf(slug, compose), starts := s.starts[sid := Preflight(slug, compose)]);
    hide KeysOf, Find;
    forall a | a in t.starts
      ensures StartOk(t, a)
    {
      assert a != sid ==> StartOk(s, a);
    }
    forall o | o in t.operations
      ensures OperationOk(t, o)
    {
      assert OperationOk(s, o);
      if o.status.Running? {
        var a :| a in s.starts && IsRunBy(s, o, a);
        assert IsRunBy(t, o, a);
      }
    }
    forall k
      ensures KeyOk(t, k)
    {
      assert KeyOk(s, k);
      if k in s.inFlight {
        var a :| a in s.starts && k in Held(s.starts[a]);
        assert k in Held(t.starts[a]);
      }
      if k in KeysOf(slug, compose) {
        assert sid in t.starts && k in Held(t.starts[sid]);
      }
      if a :| a in t.starts && k in Held(t.starts[a]) {
        assert a != sid ==> a in s.starts && k in Held(s.starts[a]);
      }
    }
    forall a | a in s.starts
      ensures Held(s.starts[a]) !! KeysOf(slug, compose)
    {
      forall k | k in Held(s.starts[a])
        ensures k !in KeysOf(slug, compose)
      {
        assert KeyOk(s, k);
        assert k in s.inFlight;
        assert k in KeysOf(slug, compose) ==> k in KeysOf(slug, compose) * s.inFlight;
      }
    }
  }

  /** Ending a start gives back exactly its own keys. */
  lemma KeysReleased(s: State, t: State, sid: nat)
    requires Inv(s) && sid in s.starts
    requires t.inFlight == s.inFlight - Held(s.starts[sid]) && t.starts == s.starts[sid := Over]
    ensures forall k :: KeyOk(t, k)
    ensures forall a, b :: a in t.starts && b in t.starts && a != b ==> Held(t.starts[a]) !! Held(t.starts[b])
  {
    hide KeysOf;
    forall k
      ensures KeyOk(t, k)
    {
      assert KeyOk(s, k);
      if k in t.inFlight {
        var a :| a in s.starts && k in Held(s.starts[a]);
        assert a != sid && k in Held(t.starts[a]);
      }
      if a :| a in t.starts && k in Held(t.starts[a]) {
        assert a != sid && k in Held(s.starts[a]);
      }
    }
  }

  lemma InvPreflightFails(s: State, sid: nat)
    requires Inv(s) && Enabled(s, PreflightFails(sid))
    ensures Inv(Next(s, PreflightFails(sid)))
  {
    var t := Next(s, PreflightFails(sid));
    KeysReleased(s, t, sid);
    hide Held, Find;
    forall a | a in t.starts
      ensures StartOk(t, a)
    {
      assert a != sid ==> StartOk(s, a);
    }
    forall o | o in t.operations
      ensures OperationOk(t, o)
    {
      assert OperationOk(s, o);
      if o.status.Running? {
        var a :| a in s.starts && IsRunBy(s, o, a);
        assert IsRunBy(t, o, a);
      }
    }
  }

  lemma PassesStart(s: State, sid: nat, id: string, now: int, a: nat)
    requires Inv(s) && Enabled(s, PreflightPasses(sid, id, now)) && a in s.starts
    ensures StartOk(Next(s, PreflightPasses(sid, id, now)), a)
    ensures Held(Next(s, PreflightPasses(sid, id, now)).starts[a]) == Held(s.starts[a])
  {
    var added := Started(id, s.starts[sid].slug, s.starts[sid].compose, now);
    SaveKeepsDistinct(s.operations, added);
    var saved := Saved(s.operations, added);
    FindIs(saved, added);
    hide Saved;
    assert StartOk(s, a);
    if a != sid && s.starts[a].Executing? {
      FindIs(saved, Find(s.operations, s.starts[a].op).value);
    }
  }

  lemma PassesOperation(s: State, sid: nat, id: string, now: int, o: Operation)
    requires Inv(s) && Enabled(s, PreflightPasses(sid, id, now)) && o in Next(s, PreflightPasses(sid, id, now)).operations
    ensures OperationOk(Next(s, PreflightPasses(sid, id, now)), o)
  {
    var t := Next(s, PreflightPasses(sid, id, now));
    if o.id == id {
      assert IsRunBy(t, o, sid);
    } else {
      assert o in s.operations && OperationOk(s, o);
      if o.status.Running? {
        var a :| a in s.starts && IsRunBy(s, o, a);
        assert IsRunBy(t, o, a);
      }
    }
  }

  lemma InvPreflightPasses(s: State, sid: nat, id: string, now: int)
    requires Inv(s) && Enabled(s, PreflightPasses(sid, id, now))
    ensures Inv(Next(s, PreflightPasses(sid, id, now)))
  {
    var t := Next(s, PreflightPasses(sid, id, now));
    SaveKeepsDistinct(s.operations, Started(id, s.starts[sid].slug, s.starts[sid].compose, now));
    hide Saved, Find, Held, StartOk, OperationOk, DistinctIds;
    forall a | a in t.starts
      ensures StartOk(t, a) && Held(t.starts[a]) == Held(s.starts[a])
    {
      PassesStart(s, sid, id, now, a);
    }
    forall o | o in t.operations
      ensures OperationOk(t, o)
    {
      PassesOperation(s, sid, id, now, o);
    }
    forall k
      ensures KeyOk(t, k)
    {
      assert KeyOk(s, k);
    }
  }

  /** Saving a new version of a start's operation leaves every other operation alone. */
  lemma OthersKeptBySave(s: State, o: Operation, updated: Operation, sid: nat)
    requires Inv(s) && sid in s.starts && s.starts[sid].Executing?
    requires Find(s.operations, s.starts[sid].op) == Some(o) && updated.id == o.id
    ensures DistinctIds(Saved(s.operations, updated)) && Find(Saved(s.operations, updated), o.id) == Some(updated)
    ensures forall x :: x in Saved(s.operations, updated) ==> x == updated || (x in s.operations && x.id != o.id)
    ensures forall x :: x in s.operations && x.id != o.id ==> Find(Saved(s.operations, updated), x.id) == Some(x)
  {
    var saved := Saved(s.operations, updated);
    SaveKeepsDistinct(s.operations, updated);
    FindIs(saved, updated);
    hide Saved;
    forall x | x in saved && x != updated
      ensures x in s.operations && x.id != o.id
    {
      if x.id == o.id {
        SameId(saved, x, updated);
      }
    }
    forall x | x in s.operations && x.id != o.id
      ensures Find(saved, x.id) == Some(x)
    {
      FindIs(saved, x);
    }
  }

  /** Two executing starts have different operations. */
  lemma OwnOperation(s: State, a: nat, b: nat)
    requires Inv(s) && a in s.starts && b in s.starts && a != b && s.starts[a].Executing? && s.starts[b].Executing?
    ensures s.starts[a].op != s.starts[b].op
  {
    assert StartOk(s, a) && StartOk(s, b);
    assert StackKey(s.starts[a].slug) in Held(s.starts[a]);
    assert StackKey(s.starts[b].slug) in Held(s.starts[b]);
  }

  lemma InvProgress(s: State, sid: nat, step: string)
    requires Inv(s) && Enabled(s, Progress(sid, step))
    ensures Inv(Next(s, Progress(sid, step)))
  {
    var t := Next(s, Progress(sid, step));
    assert StartOk(s, sid);
    var o := Find(s.operations, s.starts[sid].op).value;
    var updated := WithStep(o, step);
    OthersKeptBySave(s, o, updated, sid);
    hide Held, Saved;
    forall a | a in t.starts
      ensures StartOk(t, a)
    {
      assert StartOk(s, a);
      if a != sid && s.starts[a].Executing? {
        OwnOperation(s, a, sid);
      }
    }
    forall x | x in t.operations
      ensures OperationOk(t, x)
    {
      if x == updated {
        assert IsRunBy(t, x, sid);
      } else {
        assert OperationOk(s, x);
        if x.status.Running? {
          var a :| a in s.starts && IsRunBy(s, x, a);
          assert IsRunBy(t, x, a);
        }
      }
    }
    forall k
      ensures KeyOk(t, k)
    {
      assert KeyOk(s, k);
    }
  }

  lemma SettlesStart(s: State, sid: nat, success: bool, now: int, a: nat)
    requires Inv(s) && Enabled(s, Settles(sid, success, now)) && a in s.starts
    ensures StartOk(Next(s, Settles(sid, success, now)), a)
  {
    assert StartOk(s, sid) && StartOk(s, a);
    var o := Find(s.operations, s.starts[sid].op).value;
    OthersKeptBySave(s, o, Finish(o, success, now), sid);
    if a != sid && s.starts[a].Executing? {
      OwnOperation(s, a, sid);
    }
  }

  lemma SettlesOperation(s: State, sid: nat, success: bool, now: int, x: Operation)
    requires Inv(s) && Enabled(s, Settles(sid, success, now)) && x in Next(s, Settles(sid, success, now)).operations
    ensures OperationOk(Next(s, Settles(sid, success, now)), x)
  {
    assert StartOk(s, sid);
    var o := Find(s.operations, s.starts[sid].op).value;
    var updated := Finish(o, success, now);
    OthersKeptBySave(s, o, updated, sid);
    if x.status.Running? {
      assert x in s.operations && OperationOk(s, x);
      var a :| a in s.starts && IsRunBy(s, x, a);
      assert IsRunBy(Next(s, Settles(sid, success, now)), x, a);
    }
  }

  lemma InvSettles(s: State, sid: nat, success: bool, now: int)
    requires Inv(s) && Enabled(s, Settles(sid, success, now))
    ensures Inv(Next(s, Settles(sid, success, now)))
  {
    var t := Next(s, Settles(sid, success, now));
    assert StartOk(s, sid);
    var o := Find(s.operations, s.starts[sid].op).value;
    OthersKeptBySave(s, o, Finish(o, success, now), sid);
    KeysReleased(s, t, sid);
    hide Held, Saved, Find, KeyOk, DistinctIds, StartOk, OperationOk;
    forall a | a in t.starts
      ensures StartOk(t, a)
    {
      SettlesStart(s, sid, success, now, a);
    }
    forall x | x in t.operations
      ensures OperationOk(t, x)
    {
      SettlesOperation(s, sid, success, now, x);
    }
  }

  lemma InvStep(s: State, step: Step)
    requires Inv(s) && Enabled(s, step)
    ensures Inv(Next(s, step))
  {
    hide Inv, Pruned, Saved, Find, KeysOf, Held;
    match step
    case StartCalled(sid, slug, compose, now) =>
      InvPruned(s, now);
      var t := s.(operations := Pruned(s.operations, now));
      if !IsRefused(t, slug, compose) {
        InvHold(t, sid, slug, compose);
      }
    case PreflightFails(sid) => InvPreflightFails(s, sid);
    case PreflightPasses(sid, id, now) => InvPreflightPasses(s, sid, id, now);
    case Progress(sid, name) => InvProgress(s, sid, name);
    case Settles(sid, success, now) => InvSettles(s, sid, success, now);
    case Listed(now) => InvPruned(s, now);
  }

  const INITIAL := State([], {}, map[])

  predicate IsRun(s: State, steps: seq<Step>)
    decreases |steps|
  {
    steps == [] || (Enabled(s, steps[0]) && IsRun(Next(s, steps[0]), steps[1..]))
  }

  function Reached(s: State, steps: seq<Step>): State
    requires IsRun(s, steps)
    decreases |steps|
  {
    if steps == [] then s else Reached(Next(s, steps[0]), steps[1..])
  }

  lemma {:induction false} RunKeepsInv(s: State, steps: seq<Step>)
    requires Inv(s) && IsRun(s, steps)
    ensures Inv(Reached(s, steps))
    decreases |steps|
  {
    hide Inv, Next;
    if steps != [] {
      InvStep(s, steps[0]);
      RunKeepsInv(Next(s, steps[0]), steps[1..]);
    }
  }

  lemma InvAtStart()
    ensures Inv(INITIAL)
  {
  }

  // ----- What holds at every point of every run -----

  /** The held keys are exactly those of the starts in preflight or executing, and no two starts share one. */
  lemma HeldKeysAreExact(steps: seq<Step>, k: Key)
    requires IsRun(INITIAL, steps)
    ensures var s := Reached(INITIAL, steps);
      && (k in s.inFlight <==> exists sid :: sid in s.starts && k in Held(s.starts[sid]))
      && forall a, b :: a in s.starts && b in s.starts && k in Held(s.starts[a]) && k in Held(s.starts[b]) ==> a == b
  {
    InvAtStart();
    RunKeepsInv(INITIAL, steps);
    assert KeyOk(Reached(INITIAL, steps), k);
  }

  predicate IsLiveFor(start: Start, slug: string, compose: string) {
    !start.Over? && ((slug != "" && start.slug == slug) || start.compose == compose)
  }

  /** A start is refused exactly when another one that is not over yet is for the same stack or compose file. */
  lemma RefusedIff(steps: seq<Step>, slug: string, compose: string)
    requires IsRun(INITIAL, steps)
    ensures var s := Reached(INITIAL, steps);
      IsRefused(s, slug, compose) <==>
        exists sid :: sid in s.starts && IsLiveFor(s.starts[sid], slug, compose)
  {
    InvAtStart();
    RunKeepsInv(INITIAL, steps);
    var s := Reached(INITIAL, steps);
    assert KeyOk(s, StackKey(slug)) && KeyOk(s, ComposeKey(compose));
    hide Inv, IsRun;
    assert IsRefused(s, slug, compose) <==>
      (slug != "" && StackKey(slug) in s.inFlight) || ComposeKey(compose) in s.inFlight by {
      assert ComposeKey(compose) in KeysOf(slug, compose) && (slug != "" ==> StackKey(slug) in KeysOf(slug, compose));
    }
    if sid :| sid in s.starts && IsLiveFor(s.starts[sid], slug, compose) {
      assert ComposeKey(s.starts[sid].compose) in Held(s.starts[sid]);
    }
  }

  /** No two running operations share a stack or a compose file. */
  lemma RunningOperationsAreApart(steps: seq<Step>, o: Operation, x: Operation)
    requires IsRun(INITIAL, steps) && o in Reached(INITIAL, steps).operations && x in Reached(INITIAL, steps).operations
    requires o.status.Running? && x.status.Running? && o != x
    ensures o.stackId != x.stackId && o.composePath != x.composePath
  {
    InvAtStart();
    RunKeepsInv(INITIAL, steps);
    var s := Reached(INITIAL, steps);
    assert OperationOk(s, o) && OperationOk(s, x);
    var a :| a in s.starts && IsRunBy(s, o, a);
    var b :| b in s.starts && IsRunBy(s, x, b);
    assert StartOk(s, a) && StartOk(s, b);
    FindIs(s.operations, o);
    FindIs(s.operations, x);
    assert a != b;
    assert ComposeKey(o.composePath) in Held(s.starts[a]) && ComposeKey(x.composePath) in Held(s.starts[b]);
    assert StackKey(o.stackId) in Held(s.starts[a]) && StackKey(x.stackId) in Held(s.starts[b]);
  }

  /** Every start and every listing leaves at most fifty finished operations, newest first among all. */
  lemma StartsAndListsPrune(s: State, step: Step)
    requires Enabled(s, step) && (step.StartCalled? || step.Listed?)
    ensures var operations := Next(s, step).operations;
      && |set o | o in operations && o.status != Running| <= 50
      && IsNewestFirst(operations)
      && forall o :: o in s.operations && o.status == Running ==> o in operations
  {
    AtMostFiftyFinished(s.operations, step.now);
    PrunedIsNewestFirst(s.operations, step.now);
    forall o | o in s.operations && o.status == Running
      ensures o in Pruned(s.operations, step.now)
    {
      RunningIsKept(s.operations, step.now, o);
    }
    hide Pruned, IsNewestFirst;
  }

  /** A start in execution always finds its operation, still running. */
  lemma RunningIsNeverPruned(steps: seq<Step>, sid: nat)
    requires IsRun(INITIAL, steps)
    requires sid in Reached(INITIAL, steps).starts && Reached(INITIAL, steps).starts[sid].Executing?
    ensures var s := Reached(INITIAL, steps);
      var o := Find(s.operations, s.starts[sid].op);
      o.Some? && o.value.status.Running? && o.value.stackId == s.starts[sid].slug
  {
    InvAtStart();
    RunKeepsInv(INITIAL, steps);
    assert StartOk(Reached(INITIAL, steps), sid);
  }

  /** So when its execution settles, the operation is there and finished. */
  lemma SettledIsFinished(steps: seq<Step>, sid: nat, success: bool, now: int)
    requires IsRun(INITIAL, steps) && Enabled(Reached(INITIAL, steps), Settles(sid, success, now))
    ensures var s := Reached(INITIAL, steps);
      var o := Find(Next(s, Settles(sid, success, now)).operations, s.starts[sid].op);
      o.Some? && o.value.status == (if success then Succeeded else Failed) && o.value.finishedAt == Some(now)
  {
    RunningIsNeverPruned(steps, sid);
    InvAtStart();
    RunKeepsInv(INITIAL, steps);
    var s := Reached(INITIAL, steps);
    var o := Find(s.operations, s.starts[sid].op).value;
    OthersKeptBySave(s, o, Finish(o, success, now), sid);
  }

  lemma {:induction false} SavedIsFound(operations: seq<Operation>, operation: Operation)
    ensures Find(Saved(operations, operation), operation.id) == Some(operation)
  {
    if operations != [] && operations[0].id != operation.id {
      SavedIsFound(operations[1..], operation);
      assert Saved(operations, operation)[1..] == Saved(operations[1..], operation);
    }
  }

  /** What each step of an execution leaves in its operation. */
  lemma StepsAreRecorded(steps: seq<Step>, step: Step)
    requires IsRun(INITIAL, steps) && Enabled(Reached(INITIAL, steps), step)
    requires step.PreflightPasses? || step.Progress? || step.Settles?
    ensures var s := Reached(INITIAL, steps);
      var t := Next(s, step);
      match step
      case PreflightPasses(sid, id, now) =>
        Find(t.operations, id) ==
          Some(Operation(id, s.starts[sid].slug, s.starts[sid].compose, Running, "starting", now, None))
      case Progress(sid, name) =>
        var current := Find(s.operations, s.starts[sid].op);
        current.Some? && Find(t.operations, s.starts[sid].op) == Some(current.value.(step := name))
      case Settles(sid, success, now) =>
        var current := Find(s.operations, s.starts[sid].op);
        && current.Some?
        && Find(t.operations, s.starts[sid].op) ==
           Some(current.value.(status := if success then Succeeded else Failed, step := "finished",
                               finishedAt := Some(now)))
      case _ => true
  {
    var s := Reached(INITIAL, steps);
    if step.PreflightPasses? {
      SavedIsFound(s.operations, Started(step.id, s.starts[step.sid].slug, s.starts[step.sid].compose, step.now));
    } else {
      RunningIsNeverPruned(steps, step.sid);
      var current := Find(s.operations, s.starts[step.sid].op).value;
      SavedIsFound(s.operations,
                   if step.Progress? then WithStep(current, step.step) else Finish(current, step.success, step.now));
    }
    hide Saved, Find;
  }

  /** A finished operation never changes again, let alone runs: it stays as it is or is dropped. */
  lemma FinishedIsFinal(steps: seq<Step>, step: Step, o: Operation, x: Operation)
    requires IsRun(INITIAL, steps) && Enabled(Reached(INITIAL, steps), step)
    requires o in Reached(INITIAL, steps).operations && IsFinished(o)
    requires x in Next(Reached(INITIAL, steps), step).operations && x.id == o.id
    ensures x == o
  {
    InvAtStart();
    RunKeepsInv(INITIAL, steps);
    var s := Reached(INITIAL, steps);
    var operations := Next(s, step).operations;
    InvStep(s, step);
    if step.Progress? || step.Settles? {
      assert StartOk(s, step.sid);
      var current := Find(s.operations, s.starts[step.sid].op).value;
      var updated := if step.Progress? then WithStep(current, step.step) else Finish(current, step.success, step.now);
      OthersKeptBySave(s, current, updated, step.sid);
      hide Inv, Saved;
      if o.id == current.id {
        SameId(s.operations, o, current);
      } else {
        assert x != updated;
        SameId(s.operations, x, o);
      }
    } else if step.PreflightPasses? {
      FindIs(s.operations, o);
      hide Inv, Find;
      assert x in s.operations;
      SameId(s.operations, x, o);
    } else {
      if step.StartCalled? || step.Listed? {
        PruneKeepsDistinct(s.operations, step.now);
      }
      hide Inv, Pruned;
      SameId(s.operations, x, o);
    }
  }

  // ----- The service -----

  class MigrationOperationService {
    /** Stored operations, in the order of an insertion-ordered map. */
    var operations: seq<Operation>
    var inFlight: set<Key>
    /** The calls of `start` and how far they are. */
    ghost var starts: map<nat, Start>

    ghost function View(): State
      reads this
    {
      State(operations, inFlight, starts)
    }

    constructor ()
      ensures View() == INITIAL && Inv(View())
    {
      operations, inFlight, starts := [], {}, map[];
    }

    method Prune(now: int)
      modifies this`operations
      ensures operations == Pruned(old(operations), now)
    {
      operations := Pruned(operations, now);
    }

    method Save(operation: Operation)
      modifies this`operations
      ensures operations == Saved(old(operations), operation)
    {
      operations := Saved(operations, operation);
    }

    /** Check and hold in one turn; `None` when another start holds one of the keys. */
    method HoldInFlight(slug: string, compose: string) returns (keys: Option<seq<Key>>)
      modifies this`inFlight
      ensures keys.None? <==> KeysOf(slug, compose) * old(inFlight) != {}
      ensures inFlight == if keys.None? then old(inFlight) else old(inFlight) + KeysOf(slug, compose)
      ensures keys.Some? ==> (set k | k in keys.value) == KeysOf(slug, compose)
    {
      var composeKey := ComposeKey(compose);
      if (slug != "" && StackKey(slug) in inFlight) || composeKey in inFlight {
        var blocking := if StackKey(slug) in inFlight && slug != "" then StackKey(slug) else composeKey;
        assert blocking in KeysOf(slug, compose) * inFlight;
        return None;
      }
      var held := if slug == "" then [composeKey] else [StackKey(slug), composeKey];
      keys := Some(held);
      for i := 0 to |held|
        invariant inFlight == old(inFlight) + set k | k in held[..i]
      {
        assert held[..i + 1] == held[..i] + [held[i]];
        inFlight := inFlight + {held[i]};
      }
      assert held[..|held|] == held;
    }

    method ReleaseInFlight(keys: seq<Key>)
      modifies this`inFlight
      ensures inFlight == old(inFlight) - set k | k in keys
    {
      for i := 0 to |keys|
        invariant inFlight == old(inFlight) - set k | k in keys[..i]
      {
        assert keys[..i + 1] == keys[..i] + [keys[i]];
        inFlight := inFlight - {keys[i]};
      }
      assert keys[..|keys|] == keys;
    }

    /** The first part of `start`, up to the preflight. */
    method BeginStart(ghost sid: nat, slug: string, compose: string, now: int) returns (keys: Option<seq<Key>>)
      requires Inv(View()) && sid !in starts
      modifies this
      ensures View() == Next(old(View()), StartCalled(sid, slug, compose, now)) && Inv(View())
    {
      InvStep(View(), StartCalled(sid, slug, compose, now));
      hide Inv, Pruned, KeysOf;
      Prune(now);
      keys := HoldInFlight(slug, compose);
      if keys.Some? {
        starts := starts[sid := Preflight(slug, compose)];
      }
    }

    method RefusePreflight(ghost sid: nat, keys: seq<Key>)
      requires Inv(View()) && Enabled(View(), PreflightFails(sid)) && (set k | k in keys) == Held(starts[sid])
      modifies this
      ensures View() == Next(old(View()), PreflightFails(sid)) && Inv(View())
    {
      InvStep(View(), PreflightFails(sid));
      hide Inv, Held;
      ReleaseInFlight(keys);
      starts := starts[sid := Over];
    }

    /** The preflight passed: the operation is stored and its execution begins. */
    method BeginRun(ghost sid: nat, id: string, slug: string, compose: string, now: int) returns (operation: Operation)
      requires Inv(View()) && Enabled(View(), PreflightPasses(sid, id, now)) && starts[sid] == Preflight(slug, compose)
      modifies this
      ensures View() == Next(old(View()), PreflightPasses(sid, id, now)) && Inv(View())
      ensures operation in operations && operation.status.Running? && operation.stackId == slug
    {
      InvStep(View(), PreflightPasses(sid, id, now));
      hide Inv;
      operation := Started(id, slug, compose, now);
      Save(operation);
      starts := starts[sid := Executing(slug, compose, id)];
    }

    method RecordStep(ghost sid: nat, id: string, step: string)
      requires Inv(View()) && Enabled(View(), Progress(sid, step)) && starts[sid].op == id
      modifies this`operations
      ensures View() == Next(old(View()), Progress(sid, step)) && Inv(View())
    {
      InvStep(View(), Progress(sid, step));
      hide Inv;
      var current := Find(operations, id);
      if current.Some? {
        Save(WithStep(current.value, step));
      }
    }

    /** The execution settled: the operation is finished and its keys are free again. */
    method FinishRun(ghost sid: nat, id: string, keys: seq<Key>, success: bool, now: int)
      requires Inv(View()) && Enabled(View(), Settles(sid, success, now)) && starts[sid].op == id
      requires (set k | k in keys) == Held(starts[sid])
      modifies this
      ensures View() == Next(old(View()), Settles(sid, success, now)) && Inv(View())
    {
      InvStep(View(), Settles(sid, success, now));
      hide Inv, Held;
      var operation := Find(operations, id);
      if operation.Some? {
        Save(Finish(operation.value, success, now));
      }
      ReleaseInFlight(keys);
      starts := starts[sid := Over];
    }
  }
}
