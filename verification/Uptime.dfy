/** Uptime over status intervals (server/src/domain/uptime.ts), against a millisecond-by-millisecond count. */
module Uptime {
  import opened Text
  import opened StackStatus

  datatype StatusClass = Up | Down | Neutral

  function ClassifyStatus(status: Status): StatusClass {
    match status
    case Running | Healthy => Up
    case Unhealthy | Error => Down
    case _ => Neutral
  }

  datatype StatusTransition = StatusTransition(toStatus: Status, at: int)

  datatype UptimeResult = UptimeResult(percent: Option<real>, upMs: nat, downMs: nat, observedFrom: Option<int>)

  function Max(a: int, b: int): int {
    if a >= b then a else b
  }

  function Min(a: int, b: int): int {
    if a <= b then a else b
  }

  predicate IsAscending(transitions: seq<StatusTransition>) {
    forall i, j :: 0 <= i < j < |transitions| ==> transitions[i].at <= transitions[j].at
  }

  // ----- The meaning: one millisecond at a time -----

  /** The status class in force at instant `t`: that of the latest transition at or before it. */
  function ClassAt(transitions: seq<StatusTransition>, t: int): StatusClass {
    if transitions == [] then Neutral
    else if transitions[|transitions| - 1].at <= t then ClassifyStatus(transitions[|transitions| - 1].toStatus)
    else ClassAt(transitions[..|transitions| - 1], t)
  }

  /** Transition `i` is the last one at or before an instant. */
  predicate IsLatest(transitions: seq<StatusTransition>, t: int, i: int) {
    0 <= i < |transitions| && transitions[i].at <= t && forall j :: i < j < |transitions| ==> t < transitions[j].at
  }

  /** The status in force at an instant: the one that the last transition at or before it set. */
  ghost predicate InForce(transitions: seq<StatusTransition>, t: int, status: Status) {
    exists i :: IsLatest(transitions, t, i) && transitions[i].toStatus == status
  }

  lemma {:induction false} ClassOfLatest(transitions: seq<StatusTransition>, t: int, i: int)
    requires IsLatest(transitions, t, i)
    ensures 0 <= i < |transitions| && ClassAt(transitions, t) == ClassifyStatus(transitions[i].toStatus)
  {
    var last := |transitions| - 1;
    if i < last {
      ClassOfLatest(transitions[..last], t, i);
    }
  }

  lemma {:induction false} LatestExists(transitions: seq<StatusTransition>, t: int)
    requires ClassAt(transitions, t) != Neutral
    ensures exists i :: IsLatest(transitions, t, i)
  {
    var last := |transitions| - 1;
    if transitions[last].at <= t {
      assert IsLatest(transitions, t, last);
    } else {
      LatestExists(transitions[..last], t);
      var i :| IsLatest(transitions[..last], t, i);
      assert IsLatest(transitions, t, i);
    }
  }

  /** A stack is up while it is running or healthy, down while it is unhealthy or in error, and neither otherwise. */
  lemma ClassAtIff(transitions: seq<StatusTransition>, t: int)
    ensures ClassAt(transitions, t) == Up <==> InForce(transitions, t, Running) || InForce(transitions, t, Healthy)
    ensures ClassAt(transitions, t) == Down <==> InForce(transitions, t, Unhealthy) || InForce(transitions, t, Error)
  {
    hide ClassAt;
    if ClassAt(transitions, t) != Neutral {
      LatestExists(transitions, t);
    }
    forall i | IsLatest(transitions, t, i)
      ensures 0 <= i < |transitions| && ClassAt(transitions, t) == ClassifyStatus(transitions[i].toStatus)
    {
      ClassOfLatest(transitions, t, i);
    }
  }

  /** How many milliseconds of `[from, to)` have class `c`. */
  function CountMs(transitions: seq<StatusTransition>, c: StatusClass, from: int, to: int): nat
    decreases Max(0, to - from)
  {
    if to <= from then 0
    else CountMs(transitions, c, from + 1, to) + if ClassAt(transitions, from) == c then 1 else 0
  }

  /** The figures of two adjacent windows add up to those of the whole. */
  lemma {:induction false} CountMsSplits(transitions: seq<StatusTransition>, c: StatusClass, from: int, mid: int, to: int)
    requires from <= mid <= to
    ensures CountMs(transitions, c, from, to) == CountMs(transitions, c, from, mid) + CountMs(transitions, c, mid, to)
    decreases mid - from
  {
    if from < mid {
      CountMsSplits(transitions, c, from + 1, mid, to);
    }
  }

  /** A span in which the class does not change. */
  lemma {:induction false} CountMsConstant(transitions: seq<StatusTransition>, c: StatusClass, k: StatusClass,
                                           from: int, to: int)
    requires forall t :: from <= t < to ==> ClassAt(transitions, t) == k
    ensures CountMs(transitions, c, from, to) == (if k == c then Max(0, to - from) else 0)
    decreases Max(0, to - from)
  {
    if from < to {
      CountMsConstant(transitions, c, k, from + 1, to);
    }
  }

  /** Later transitions do not change what happened before them. */
  lemma {:induction false} ClassBeforeLater(transitions: seq<StatusTransition>, n: nat, t: int)
    requires n <= |transitions| && forall i :: n <= i < |transitions| ==> t < transitions[i].at
    ensures ClassAt(transitions, t) == ClassAt(transitions[..n], t)
    decreases |transitions|
  {
    if n < |transitions| {
      var init := transitions[..|transitions| - 1];
      ClassBeforeLater(init, n, t);
      assert init[..n] == transitions[..n];
    } else {
      assert transitions[..n] == transitions;
    }
  }

  /** From one transition to the next the class is the former's. */
  lemma ClassInInterval(transitions: seq<StatusTransition>, i: nat, t: int)
    requires IsAscending(transitions) && i < |transitions| && transitions[i].at <= t
    requires i + 1 < |transitions| ==> t < transitions[i + 1].at
    ensures ClassAt(transitions, t) == ClassifyStatus(transitions[i].toStatus)
  {
    ClassBeforeLater(transitions, i + 1, t);
  }

  lemma {:induction false} NothingBeforeFirst(transitions: seq<StatusTransition>, t: int)
    requires forall i :: 0 <= i < |transitions| ==> t < transitions[i].at
    ensures ClassAt(transitions, t) == Neutral
  {
    ClassBeforeLater(transitions, 0, t);
  }

  // ----- The computation -----

  /** Where the interval of transition `i` starts and ends inside the window. */
  function From(transitions: seq<StatusTransition>, i: nat, windowStart: int): int
    requires i < |transitions|
  {
    Max(transitions[i].at, windowStart)
  }

  function To(transitions: seq<StatusTransition>, i: nat, now: int): int
    requires i < |transitions|
  {
    Min(if i + 1 < |transitions| then transitions[i + 1].at else now, now)
  }

  /** The part of the window that the first `i` transitions cover ends here. */
  function CoveredTo(transitions: seq<StatusTransition>, i: nat, windowStart: int, now: int): int
    requires i <= |transitions|
  {
    Max(windowStart, if i < |transitions| then Min(transitions[i].at, now) else now)
  }

  lemma StepCounts(transitions: seq<StatusTransition>, i: nat, windowStart: int, now: int, c: StatusClass)
    requires IsAscending(transitions) && i < |transitions|
    ensures var gained := if ClassifyStatus(transitions[i].toStatus) == c
                          then Max(0, To(transitions, i, now) - From(transitions, i, windowStart)) else 0;
      CountMs(transitions, c, windowStart, CoveredTo(transitions, i + 1, windowStart, now)) ==
        CountMs(transitions, c, windowStart, CoveredTo(transitions, i, windowStart, now)) + gained
  {
    var a, b := CoveredTo(transitions, i, windowStart, now), CoveredTo(transitions, i + 1, windowStart, now);
    CountMsSplits(transitions, c, windowStart, a, b);
    forall t | a <= t < b
      ensures ClassAt(transitions, t) == ClassifyStatus(transitions[i].toStatus)
    {
      ClassInInterval(transitions, i, t);
    }
    CountMsConstant(transitions, c, ClassifyStatus(transitions[i].toStatus), a, b);
  }

  method ComputeUptime(transitions: seq<StatusTransition>, windowStart: int, now: int) returns (result: UptimeResult)
    requires IsAscending(transitions)
    ensures result.upMs == CountMs(transitions, Up, windowStart, now)
    ensures result.downMs == CountMs(transitions, Down, windowStart, now)
    ensures result.observedFrom ==
      if transitions == [] then None else Some(Max(transitions[0].at, windowStart))
    ensures result.percent.None? <==> result.upMs + result.downMs == 0
    ensures result.percent.Some? ==>
      && result.percent.value * (result.upMs + result.downMs) as real == result.upMs as real * 100.0
      && 0.0 <= result.percent.value <= 100.0
  {
    if transitions == [] {
      CountMsConstant(transitions, Up, Neutral, windowStart, now);
      CountMsConstant(transitions, Down, Neutral, windowStart, now);
      return UptimeResult(None, 0, 0, None);
    }
    var upMs, downMs: nat := 0, 0;
    StartsUncounted(transitions, windowStart, now, Up);
    StartsUncounted(transitions, windowStart, now, Down);
    for i := 0 to |transitions|
      invariant upMs == CountMs(transitions, Up, windowStart, CoveredTo(transitions, i, windowStart, now))
      invariant downMs == CountMs(transitions, Down, windowStart, CoveredTo(transitions, i, windowStart, now))
    {
      StepCounts(transitions, i, windowStart, now, Up);
      StepCounts(transitions, i, windowStart, now, Down);
      hide CountMs;
      var from := From(transitions, i, windowStart);
      var to := To(transitions, i, now);
      if to > from {
        var statusClass := ClassifyStatus(transitions[i].toStatus);
        if statusClass == Up {
          upMs := upMs + (to - from);
        } else if statusClass == Down {
          downMs := downMs + (to - from);
        }
      }
    }
    assert CoveredTo(transitions, |transitions|, windowStart, now) == Max(windowStart, now);
    var observed := upMs + downMs;
    var percent := None;
    if observed != 0 {
      percent := Some(upMs as real / observed as real * 100.0);
      PercentIsInRange(upMs as real, observed as real);
    }
    result := UptimeResult(percent, upMs, downMs, Some(Max(transitions[0].at, windowStart)));
  }

  lemma PercentIsInRange(up: real, observed: real)
    requires 0.0 <= up <= observed && observed > 0.0
    ensures 0.0 <= up / observed * 100.0 <= 100.0
    ensures up / observed * 100.0 * observed == up * 100.0
  {
    var ratio := up / observed;
    assert ratio * observed == up;
    assert ratio <= 1.0;
    assert ratio >= 0.0;
  }

  lemma StartsUncounted(transitions: seq<StatusTransition>, windowStart: int, now: int, c: StatusClass)
    requires IsAscending(transitions) && transitions != [] && c != Neutral
    ensures CountMs(transitions, c, windowStart, CoveredTo(transitions, 0, windowStart, now)) == 0
  {
    var to := CoveredTo(transitions, 0, windowStart, now);
    forall t | windowStart <= t < to
      ensures ClassAt(transitions, t) == Neutral
    {
      NothingBeforeFirst(transitions, t);
    }
    CountMsConstant(transitions, c, Neutral, windowStart, to);
  }

  // ----- Conservation -----

  lemma {:induction false} EveryMsHasAClass(transitions: seq<StatusTransition>, from: int, to: int)
    ensures CountMs(transitions, Up, from, to) + CountMs(transitions, Down, from, to)
      + CountMs(transitions, Neutral, from, to) == Max(0, to - from)
    decreases Max(0, to - from)
  {
    if from < to {
      EveryMsHasAClass(transitions, from + 1, to);
    }
  }

  /** Up, down and neutral time after the first transition add up to the observed span. */
  lemma ObservedTimeIsConserved(transitions: seq<StatusTransition>, windowStart: int, now: int)
    requires IsAscending(transitions) && transitions != []
    ensures var start := Max(transitions[0].at, windowStart);
      CountMs(transitions, Up, windowStart, now) + CountMs(transitions, Down, windowStart, now)
        + CountMs(transitions, Neutral, start, now) == Max(0, now - start)
  {
    var start := Max(transitions[0].at, windowStart);
    EveryMsHasAClass(transitions, start, now);
    var mid := Max(windowStart, Min(start, now));
    forall t | windowStart <= t < mid
      ensures ClassAt(transitions, t) == Neutral
    {
      NothingBeforeFirst(transitions, t);
    }
    CountMsConstant(transitions, Up, Neutral, windowStart, mid);
    CountMsConstant(transitions, Down, Neutral, windowStart, mid);
    if windowStart <= now {
      CountMsSplits(transitions, Up, windowStart, mid, now);
      CountMsSplits(transitions, Down, windowStart, mid, now);
    }
  }
}
