/** Incidents, one per unhealthy episode of a stack (server/src/application/incident-tracker.ts,
    server/src/domain/incident-tracking.ts). Observations of one stack are serialised by a lock. */
module IncidentTracker {
  import opened Text
  import opened StackStatus
  import opened Failures

  datatype IncidentAction = Open(cause: Status) | Close | Nothing

  predicate IsBad(status: Status) {
    status == Unhealthy || status == Error
  }

  predicate IsGood(status: Status) {
    status == Running || status == Healthy || status == Stopped
  }

  /** A row of the incident table; its id is its position. */
  datatype Incident = Incident(stackId: string, triggerType: Status, startedAt: int, resolvedAt: Option<int>)

  datatype OpenIncident = OpenIncident(id: nat, triggerType: Status)

  function DecideIncidentAction(open: Option<OpenIncident>, status: Status): IncidentAction {
    if IsBad(status) then if open.None? then Open(status) else Nothing
    else if IsGood(status) then if open.None? then Nothing else Close
    else Nothing
  }

  predicate IsOpenAt(incidents: seq<Incident>, stackId: string, id: nat) {
    id < |incidents| && incidents[id].stackId == stackId && incidents[id].resolvedAt.None?
  }

  /** `findOpen`: the newest open incident of a stack. */
  function FindOpen(incidents: seq<Incident>, stackId: string): (r: Option<OpenIncident>)
    ensures r.Some? ==> IsOpenAt(incidents, stackId, r.value.id) && incidents[r.value.id].triggerType == r.value.triggerType
    ensures r.None? ==> forall id: nat :: !IsOpenAt(incidents, stackId, id)
  {
    if incidents == [] then None
    else
      var last := |incidents| - 1;
      if IsOpenAt(incidents, stackId, last) then Some(OpenIncident(last, incidents[last].triggerType))
      else
        var rest := FindOpen(incidents[..last], stackId);
        assert forall id: nat ::
          IsOpenAt(incidents, stackId, id) ==> id == last || IsOpenAt(incidents[..last], stackId, id);
        rest
  }

  /** What is known and stored about one stack: `None` until it was read, then the open incident if there is one. */
  datatype World = World(cached: Option<Option<OpenIncident>>, incidents: seq<Incident>)

  datatype Observation = Observation(status: Status, now: int, read: Fault, write: Fault)

  function Opened(incidents: seq<Incident>, stackId: string, status: Status, now: int): seq<Incident> {
    incidents + [Incident(stackId, status, now, None)]
  }

  function Resolved(incidents: seq<Incident>, id: nat, now: int): seq<Incident> {
    if id < |incidents| then incidents[id := incidents[id].(resolvedAt := Some(now))] else incidents
  }

  /** One observation of stack `stackId`. */
  function Observed(w: World, stackId: string, o: Observation): World {
    if w.cached.None? && o.read.Rejects? then World(None, w.incidents)
    else
      var open := if w.cached.Some? then w.cached.value else FindOpen(w.incidents, stackId);
      match DecideIncidentAction(open, o.status)
      case Nothing => World(Some(open), w.incidents)
      case Open(cause) =>
        var grown := Opened(w.incidents, stackId, cause, o.now);
        if o.write.Works? then World(Some(Some(OpenIncident(|w.incidents|, cause))), grown)
        else World(None, if o.write.tookEffect then grown else w.incidents)
      case Close =>
        var resolved := if open.Some? then Resolved(w.incidents, open.value.id, o.now) else w.incidents;
        if o.write.Works? then World(Some(None), resolved)
        else World(None, if o.write.tookEffect then resolved else w.incidents)
  }

  class IncidentTracker {
    var openByStack: map<string, Option<OpenIncident>>
    /** The incident table. */
    var incidents: seq<Incident>

    ghost function View(stackId: string): World
      reads this
    {
      World(if stackId in openByStack then Some(openByStack[stackId]) else None, incidents)
    }

    method ReadOpen(stackId: string, read: Fault) returns (ok: bool, open: Option<OpenIncident>)
      modifies this`openByStack
      ensures ok <==> stackId in old(openByStack) || read.Works?
      ensures ok ==> open == if stackId in old(openByStack) then old(openByStack)[stackId] else FindOpen(incidents, stackId)
      ensures ok ==> openByStack == old(openByStack)[stackId := open]
      ensures !ok ==> openByStack == old(openByStack)
    {
      if stackId in openByStack {
        return true, openByStack[stackId];
      }
      if read.Rejects? {
        return false, None;
      }
      open := FindOpen(incidents, stackId);
      openByStack := openByStack[stackId := open];
      ok := true;
    }

    method Apply(stackId: string, o: Observation) returns (ok: bool)
      modifies this`openByStack, this`incidents
      ensures ok ==> View(stackId) == Observed(old(View(stackId)), stackId, o)
      ensures !ok ==> World(None, incidents) == Observed(old(View(stackId)), stackId, o)
      ensures openByStack - {stackId} == old(openByStack) - {stackId}
    {
      var open;
      ok, open := ReadOpen(stackId, o.read);
      if !ok {
        return;
      }
      var action := DecideIncidentAction(open, o.status);
      if action.Open? {
        var id := |incidents|;
        if o.write.Works? || o.write.tookEffect {
          incidents := incidents + [Incident(stackId, action.cause, o.now, None)];
        }
        if o.write.Rejects? {
          return false;
        }
        openByStack := openByStack[stackId := Some(OpenIncident(id, action.cause))];
      } else if action.Close? && open.Some? {
        if o.write.Works? || o.write.tookEffect {
          incidents := Resolved(incidents, open.value.id, o.now);
        }
        if o.write.Rejects? {
          return false;
        }
        openByStack := openByStack[stackId := None];
      }
    }

    /** Never rejects: after a failure the cached entry is forgotten, so the next observation reads again. */
    method ObserveStackStatus(stackId: string, o: Observation)
      modifies this`openByStack, this`incidents
      ensures View(stackId) == Observed(old(View(stackId)), stackId, o)
      ensures openByStack - {stackId} == old(openByStack) - {stackId}
    {
      var ok := Apply(stackId, o);
      if !ok {
        openByStack := openByStack - {stackId};
      }
    }
  }

  // ----- At most one open incident, and an honest cache -----

  /** At most one incident of the stack is open, and what is cached is what the table says. */
  ghost predicate Inv(w: World, stackId: string) {
    && (forall a: nat, b: nat :: IsOpenAt(w.incidents, stackId, a) && IsOpenAt(w.incidents, stackId, b) ==> a == b)
    && (w.cached.Some? ==> w.cached.value == FindOpen(w.incidents, stackId))
  }

  predicate HasOpen(w: World, stackId: string) {
    FindOpen(w.incidents, stackId).Some?
  }

  lemma FoundIsTheOne(incidents: seq<Incident>, stackId: string, id: nat)
    requires IsOpenAt(incidents, stackId, id)
    requires forall a: nat, b: nat :: IsOpenAt(incidents, stackId, a) && IsOpenAt(incidents, stackId, b) ==> a == b
    ensures FindOpen(incidents, stackId) == Some(OpenIncident(id, incidents[id].triggerType))
  {
    var found := FindOpen(incidents, stackId);
    assert found.Some?;
  }

  lemma OpenedHasOne(incidents: seq<Incident>, stackId: string, status: Status, now: int)
    requires FindOpen(incidents, stackId).None?
    ensures var grown := Opened(incidents, stackId, status, now);
      && (forall a: nat :: IsOpenAt(grown, stackId, a) <==> a == |incidents|)
      && FindOpen(grown, stackId) == Some(OpenIncident(|incidents|, status))
  {
    hide FindOpen;
    var grown := Opened(incidents, stackId, status, now);
    forall a: nat
      ensures IsOpenAt(grown, stackId, a) <==> a == |incidents|
    {
      assert a < |incidents| ==> IsOpenAt(grown, stackId, a) == IsOpenAt(incidents, stackId, a);
    }
    FoundIsTheOne(grown, stackId, |incidents|);
  }

  lemma ResolvedHasNone(incidents: seq<Incident>, stackId: string, id: nat, now: int)
    requires forall a: nat, b: nat :: IsOpenAt(incidents, stackId, a) && IsOpenAt(incidents, stackId, b) ==> a == b
    requires IsOpenAt(incidents, stackId, id)
    ensures forall a: nat :: !IsOpenAt(Resolved(incidents, id, now), stackId, a)
    ensures FindOpen(Resolved(incidents, id, now), stackId) == None
  {
    hide FindOpen;
    var resolved := Resolved(incidents, id, now);
    forall a: nat
      ensures !IsOpenAt(resolved, stackId, a)
    {
      assert a != id ==> IsOpenAt(resolved, stackId, a) == IsOpenAt(incidents, stackId, a);
    }
    assert FindOpen(resolved, stackId).None?;
  }

  lemma InvObserved(w: World, stackId: string, o: Observation)
    requires Inv(w, stackId)
    ensures Inv(Observed(w, stackId, o), stackId)
  {
    hide FindOpen, Opened, Resolved;
    var open := FindOpen(w.incidents, stackId);
    match DecideIncidentAction(open, o.status)
    case Nothing =>
    case Open(cause) => OpenedHasOne(w.incidents, stackId, cause, o.now);
    case Close => ResolvedHasNone(w.incidents, stackId, open.value.id, o.now);
  }

  /** The whole tracker: the cache entries of all stacks, and the table. */
  datatype Tracker = Tracker(cache: map<string, Option<OpenIncident>>, incidents: seq<Incident>)

  function Of(t: Tracker, stackId: string): World {
    World(if stackId in t.cache then Some(t.cache[stackId]) else None, t.incidents)
  }

  function After(t: Tracker, stackId: string, o: Observation): Tracker {
    var w := Observed(Of(t, stackId), stackId, o);
    Tracker(if w.cached.Some? then t.cache[stackId := w.cached.value] else t.cache - {stackId}, w.incidents)
  }

  /** Observations of any stacks, in the order they are taken. */
  function ObservedAll(t: Tracker, observations: seq<(string, Observation)>): Tracker {
    if observations == [] then t
    else
      var (stackId, o) := observations[|observations| - 1];
      After(ObservedAll(t, observations[..|observations| - 1]), stackId, o)
  }

  const NOTHING_KNOWN := Tracker(map[], [])

  /** An observation of another stack neither opens nor closes an incident of this one. */
  lemma OtherStack(t: Tracker, other: string, o: Observation, stackId: string)
    requires Inv(Of(t, stackId), stackId) && Inv(Of(t, other), other) && stackId != other
    ensures Inv(Of(After(t, other, o), stackId), stackId)
    ensures HasOpen(Of(After(t, other, o), stackId), stackId) == HasOpen(Of(t, stackId), stackId)
  {
    var incidents := After(t, other, o).incidents;
    forall id: nat
      ensures IsOpenAt(incidents, stackId, id) == IsOpenAt(t.incidents, stackId, id)
      ensures IsOpenAt(incidents, stackId, id) ==> incidents[id] == t.incidents[id]
    {
      OtherRow(t, other, o, stackId, id);
    }
    var found := FindOpen(incidents, stackId);
    if found.Some? {
      FoundIsTheOne(t.incidents, stackId, found.value.id);
    }
  }

  lemma OtherRow(t: Tracker, other: string, o: Observation, stackId: string, id: nat)
    requires Inv(Of(t, other), other) && stackId != other
    ensures var incidents := After(t, other, o).incidents;
      && IsOpenAt(incidents, stackId, id) == IsOpenAt(t.incidents, stackId, id)
      && (IsOpenAt(incidents, stackId, id) ==> incidents[id] == t.incidents[id])
  {
  }

  lemma InvAfter(t: Tracker, stackId: string, o: Observation)
    requires Inv(Of(t, stackId), stackId)
    ensures Inv(Of(After(t, stackId, o), stackId), stackId)
  {
    InvObserved(Of(t, stackId), stackId, o);
    assert Of(After(t, stackId, o), stackId) == Observed(Of(t, stackId), stackId, o);
  }

  /** Over every sequence of observations, with any failures: at most one open incident per stack, and no false
      cache entry. */
  lemma {:induction false} NeverTwoOpen(observations: seq<(string, Observation)>, stackId: string)
    ensures Inv(Of(ObservedAll(NOTHING_KNOWN, observations), stackId), stackId)
    decreases |observations|
  {
    if observations != [] {
      hide Inv, After, Of;
      var init := observations[..|observations| - 1];
      var (seen, o) := observations[|observations| - 1];
      var t := ObservedAll(NOTHING_KNOWN, init);
      NeverTwoOpen(init, stackId);
      NeverTwoOpen(init, seen);
      if seen == stackId {
        InvAfter(t, stackId, o);
      } else {
        OtherStack(t, seen, o, stackId);
      }
    } else {
      assert FindOpen([], stackId).None?;
    }
  }

  predicate IsFaultFree(o: Observation) {
    o.read.Works? && o.write.Works?
  }

  /** Whatever failed before, one observation without failures puts things right: bad opens, good closes, any other
      status leaves the episode as it was. */
  lemma FaultFreeObservation(w: World, stackId: string, o: Observation)
    requires Inv(w, stackId) && IsFaultFree(o)
    ensures HasOpen(Observed(w, stackId, o), stackId) ==
      if o.status in {Unhealthy, Error} then true
      else if o.status in {Running, Healthy, Stopped} then false
      else HasOpen(w, stackId)
  {
    hide FindOpen, Opened, Resolved;
    var open := FindOpen(w.incidents, stackId);
    match DecideIncidentAction(open, o.status)
    case Nothing =>
    case Open(cause) => OpenedHasOne(w.incidents, stackId, cause, o.now);
    case Close => ResolvedHasNone(w.incidents, stackId, open.value.id, o.now);
  }

  /** The last status observed of the stack that is not neutral is a bad one. */
  predicate LastIsBad(observations: seq<(string, Observation)>, stackId: string)
    decreases |observations|
  {
    observations != [] &&
    var (seen, o) := observations[|observations| - 1];
    if seen == stackId && o.status in {Unhealthy, Error, Running, Healthy, Stopped} then o.status in {Unhealthy, Error}
    else LastIsBad(observations[..|observations| - 1], stackId)
  }

  /** Without failures an incident is open exactly while the last telling status of its stack is a bad one. */
  lemma {:induction false} OpenIffLastIsBad(observations: seq<(string, Observation)>, stackId: string)
    requires forall e :: e in observations ==> IsFaultFree(e.1)
    ensures HasOpen(Of(ObservedAll(NOTHING_KNOWN, observations), stackId), stackId) <==> LastIsBad(observations, stackId)
    decreases |observations|
  {
    if observations != [] {
      hide Observed, FindOpen, Inv;
      var init, e := observations[..|observations| - 1], observations[|observations| - 1];
      var t := ObservedAll(NOTHING_KNOWN, init);
      NeverTwoOpen(init, stackId);
      NeverTwoOpen(init, e.0);
      OpenIffLastIsBad(init, stackId);
      if e.0 == stackId {
        FaultFreeObservation(Of(t, stackId), stackId, e.1);
      } else {
        OtherStack(t, e.0, e.1, stackId);
      }
    } else {
      assert FindOpen([], stackId).None?;
    }
  }

  /** What one observation writes, if anything: a bad status appends an open incident with its cause and time, when none
      is open; a good one gives the open incident its end. */
  lemma EpisodeIsRecorded(w: World, stackId: string, o: Observation)
    requires Inv(w, stackId)
    ensures var incidents := Observed(w, stackId, o).incidents;
      && (incidents[..] == w.incidents
          || (incidents == w.incidents + [Incident(stackId, o.status, o.now, None)] &&
              o.status in {Unhealthy, Error} && !HasOpen(w, stackId))
          || exists id: nat :: IsOpenAt(w.incidents, stackId, id) && o.status in {Running, Healthy, Stopped} &&
               incidents == w.incidents[id := w.incidents[id].(resolvedAt := Some(o.now))])
  {
    hide FindOpen;
    var open := FindOpen(w.incidents, stackId);
    if open.Some? {
      assert IsOpenAt(w.incidents, stackId, open.value.id);
    }
  }

  /** The rows of other stacks, and every closed row, stay as they are; an open one keeps its cause. */
  lemma OthersAreUntouched(w: World, stackId: string, o: Observation, id: nat)
    requires Inv(w, stackId) && id < |w.incidents|
    ensures var incidents := Observed(w, stackId, o).incidents;
      && id < |incidents| && incidents[id].triggerType == w.incidents[id].triggerType
      && (!IsOpenAt(w.incidents, stackId, id) ==> incidents[id] == w.incidents[id])
  {
  }
}
