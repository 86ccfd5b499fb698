/** Health probes sharing Docktor's attachment to a network
    (server/src/infrastructure/probe-transport.ts). Everything between two awaits is one atomic step; a
    Docker call takes effect before it settles or not at all. */
module NetworkAttachments {
  import opened Text

  /** `AwaitingDetach(on)` waits for the disconnect `on`, if one was in flight; `Failing` is a rejected connect whose
      handler has not run yet. */
  datatype Phase = AwaitingDetach(on: Option<nat>) | Connecting | Ready | Failing | Failed

  datatype Attachment = Attachment(net: string, count: int, phase: Phase)

  datatype Disconnect = Disconnect(net: string, owner: nat, settled: bool)

  datatype ProbePhase = Waiting(attachment: nat) | Running(attachment: nat) | Releasing(disconnect: nat) | Ended

  datatype Probe = Probe(net: string, phase: ProbePhase)

  datatype State = State(
    active: map<string, nat>,
    detaching: map<string, nat>,
    attachments: seq<Attachment>,
    disconnects: seq<Disconnect>,
    probes: map<nat, Probe>,
    connected: set<string>)

  const INITIAL := State(map[], map[], [], [], map[], {})

  datatype Step =
    | Acquire(probe: nat, net: string)
    | BeginConnect(attachment: nat)
    | ConnectTakesEffect(attachment: nat)
    | ConnectSettles(attachment: nat, ok: bool)
    | CatchRuns(attachment: nat)
    | ProbeResumes(probe: nat)
    | Release(probe: nat)
    | DisconnectTakesEffect(disconnect: nat)
    | DisconnectSettles(disconnect: nat)
    | ReleaseFinishes(probe: nat)

  predicate DetachDone(s: State, on: Option<nat>) {
    on.Some? && on.value < |s.disconnects| ==> s.disconnects[on.value].settled
  }

  /** When a step can happen. A connect succeeds, or is refused as already connected, only while connected. */
  predicate Enabled(s: State, step: Step) {
    match step
    case Acquire(p, _) => p !in s.probes
    case BeginConnect(a) =>
      a < |s.attachments| && s.attachments[a].phase.AwaitingDetach? && DetachDone(s, s.attachments[a].phase.on)
    case ConnectTakesEffect(a) => a < |s.attachments| && s.attachments[a].phase.Connecting?
    case ConnectSettles(a, ok) =>
      a < |s.attachments| && s.attachments[a].phase.Connecting? && (ok ==> s.attachments[a].net in s.connected)
    case CatchRuns(a) => a < |s.attachments| && s.attachments[a].phase.Failing?
    case ProbeResumes(p) =>
      p in s.probes && s.probes[p].phase.Waiting? && s.probes[p].phase.attachment < |s.attachments| &&
      var phase := s.attachments[s.probes[p].phase.attachment].phase;
      phase.Ready? || phase.Failed?
    case Release(p) => p in s.probes && s.probes[p].phase.Running?
    case DisconnectTakesEffect(d) => d < |s.disconnects| && !s.disconnects[d].settled
    case DisconnectSettles(d) => d < |s.disconnects| && !s.disconnects[d].settled
    case ReleaseFinishes(p) =>
      p in s.probes && s.probes[p].phase.Releasing? && s.probes[p].phase.disconnect < |s.disconnects| &&
      s.disconnects[s.probes[p].phase.disconnect].settled
  }

  function WithPhase(s: State, a: nat, phase: Phase): State
    requires a < |s.attachments|
  {
    s.(attachments := s.attachments[a := s.attachments[a].(phase := phase)])
  }

  function WithCount(s: State, a: nat, count: int): State
    requires a < |s.attachments|
  {
    s.(attachments := s.attachments[a := s.attachments[a].(count := count)])
  }

  function WithProbe(s: State, p: nat, net: string, phase: ProbePhase): State {
    s.(probes := s.probes[p := Probe(net, phase)])
  }

  function AfterAcquire(s: State, p: nat, net: string): State {
    if net in s.active && s.active[net] < |s.attachments| then
      var a := s.active[net];
      WithProbe(WithCount(s, a, s.attachments[a].count + 1), p, net, Waiting(a))
    else
      var a := |s.attachments|;
      WithProbe(s.(attachments := s.attachments + [Attachment(net, 1, AwaitingDetach(Lookup(s.detaching, net)))],
                   active := s.active[net := a]), p, net, Waiting(a))
  }

  function AfterCatch(s: State, a: nat): State
    requires a < |s.attachments|
  {
    var net := s.attachments[a].net;
    var t := WithPhase(s, a, Failed);
    if Lookup(s.active, net) == Some(a) then t.(active := s.active - {net}) else t
  }

  function AfterRelease(s: State, p: nat): State
    requires p in s.probes
  {
    var net := s.probes[p].net;
    if !(net in s.active && s.active[net] < |s.attachments|) then WithProbe(s, p, net, Ended)
    else
      var a := s.active[net];
      var t := WithCount(s, a, s.attachments[a].count - 1);
      if t.attachments[a].count > 0 then WithProbe(t, p, net, Ended)
      else
        var d := |s.disconnects|;
        WithProbe(t.(active := s.active - {net},
                     disconnects := s.disconnects + [Disconnect(net, p, false)],
                     detaching := s.detaching[net := d]), p, net, Releasing(d))
  }

  function AfterReleaseFinishes(s: State, p: nat): State
    requires p in s.probes && s.probes[p].phase.Releasing?
  {
    var net := s.probes[p].net;
    var t := WithProbe(s, p, net, Ended);
    if Lookup(s.detaching, net) == Some(s.probes[p].phase.disconnect) then t.(detaching := s.detaching - {net}) else t
  }

  function Next(s: State, step: Step): State
    requires Enabled(s, step)
  {
    match step
    case Acquire(p, net) => AfterAcquire(s, p, net)
    case BeginConnect(a) => WithPhase(s, a, Connecting)
    case ConnectTakesEffect(a) => s.(connected := s.connected + {s.attachments[a].net})
    case ConnectSettles(a, ok) => WithPhase(s, a, if ok then Ready else Failing)
    case CatchRuns(a) => AfterCatch(s, a)
    case ProbeResumes(p) =>
      var a := s.probes[p].phase.attachment;
      WithProbe(s, p, s.probes[p].net, if s.attachments[a].phase.Ready? then Running(a) else Ended)
    case Release(p) => AfterRelease(s, p)
    case DisconnectTakesEffect(d) => s.(connected := s.connected - {s.disconnects[d].net})
    case DisconnectSettles(d) => s.(disconnects := s.disconnects[d := s.disconnects[d].(settled := true)])
    case ReleaseFinishes(p) => AfterReleaseFinishes(s, p)
  }

  /** A run: steps that can happen one after the other. */
  predicate IsRun(s: State, steps: seq<Step>)
    decreases |steps|
  {
    steps == [] || (Enabled(s, steps[0]) && IsRun(Next(s, steps[0]), steps[1..]))
  }

  function Reached(s: State, steps: seq<Step>): State
    requires IsRun(s, steps)
    decreases |steps|
  {
    if steps == [] then s else Reached(Next(s, steps[0]), steps[1..])
  }

  // ----- The invariant -----

  predicate IsActive(s: State, a: nat)
    requires a < |s.attachments|
  {
    Lookup(s.active, s.attachments[a].net) == Some(a)
  }

  predicate HasJoined(phase: ProbePhase, a: nat) {
    phase == Waiting(a) || phase == Running(a)
  }

  /** The probes that hold, or wait for, attachment `a`. */
  function Joined(probes: map<nat, Probe>, a: nat): set<nat> {
    set p | p in probes && HasJoined(probes[p].phase, a)
  }

  predicate InFlight(s: State, d: nat) {
    d < |s.disconnects| && !s.disconnects[d].settled
  }

  predicate ActiveOk(s: State, net: string)
    requires net in s.active
  {
    s.active[net] < |s.attachments| && s.attachments[s.active[net]].net == net
  }

  predicate AttachmentOk(s: State, a: nat)
    requires a < |s.attachments|
  {
    var attachment := s.attachments[a];
    if IsActive(s, a) then
      && attachment.count == |Joined(s.probes, a)| && attachment.count > 0
      && !attachment.phase.Failed?
      && (attachment.phase.Ready? ==> attachment.net in s.connected)
    else
      attachment.phase.Failed? || (attachment.phase.Ready? && Joined(s.probes, a) == {})
  }

  predicate ProbeOk(s: State, p: nat)
    requires p in s.probes
  {
    var probe := s.probes[p];
    match probe.phase
    case Waiting(a) =>
      a < |s.attachments| && s.attachments[a].net == probe.net && (IsActive(s, a) || s.attachments[a].phase.Failed?)
    case Running(a) =>
      a < |s.attachments| && s.attachments[a].net == probe.net && IsActive(s, a) && s.attachments[a].phase.Ready?
    case Releasing(d) =>
      d < |s.disconnects| && s.disconnects[d].net == probe.net && s.disconnects[d].owner == p
    case Ended => true
  }

  /** While a disconnect is in flight, an attachment of its network can only be waiting for it. */
  predicate DisconnectOk(s: State, d: nat)
    requires d < |s.disconnects|
  {
    var disconnect := s.disconnects[d];
    !disconnect.settled ==>
      && Lookup(s.detaching, disconnect.net) == Some(d)
      && (disconnect.net in s.active && s.active[disconnect.net] < |s.attachments| ==>
            s.attachments[s.active[disconnect.net]].phase == AwaitingDetach(Some(d)))
  }

  predicate DetachingOk(s: State, net: string)
    requires net in s.detaching
  {
    var d := s.detaching[net];
    d < |s.disconnects| && s.disconnects[d].net == net &&
    s.disconnects[d].owner in s.probes && s.probes[s.disconnects[d].owner].phase == Releasing(d)
  }

  ghost predicate Inv(s: State) {
    && (forall net :: net in s.active ==> ActiveOk(s, net))
    && (forall a :: 0 <= a < |s.attachments| ==> AttachmentOk(s, a))
    && (forall p :: p in s.probes ==> ProbeOk(s, p))
    && (forall d :: 0 <= d < |s.disconnects| ==> DisconnectOk(s, d))
    && (forall net :: net in s.detaching ==> DetachingOk(s, net))
  }

  // ----- Every step keeps it -----

  lemma AcquireAttachment(s: State, p: nat, net: string, a: nat)
    requires Inv(s) && p !in s.probes && a < |AfterAcquire(s, p, net).attachments|
    ensures AttachmentOk(AfterAcquire(s, p, net), a)
  {
    hide Joined, AttachmentOk, IsActive;
    var t := AfterAcquire(s, p, net);
    if a == t.probes[p].phase.attachment {
      AcquireOwn(s, p, net);
    } else {
      AttachmentsKnown(s, net, a);
      AcquireOthers(s, p, net, a);
      SameAttachment(s, t, a);
    }
  }

  lemma AcquireOthers(s: State, p: nat, net: string, a: nat)
    requires p !in s.probes && a < |s.attachments| && (net in s.active ==> ActiveOk(s, net))
    requires a != AfterAcquire(s, p, net).probes[p].phase.attachment
    ensures var t := AfterAcquire(s, p, net);
      && a < |t.attachments| && t.attachments[a] == s.attachments[a] && IsActive(t, a) == IsActive(s, a)
      && Joined(t.probes, a) == Joined(s.probes, a) && t.connected == s.connected
  {
    NewProbe(s.probes, p, a);
    JoinedUpdate(s.probes, p, AfterAcquire(s, p, net).probes[p], a);
    hide Joined;
  }

  lemma SameAttachment(s: State, t: State, a: nat)
    requires a < |s.attachments| && a < |t.attachments| && AttachmentOk(s, a)
    requires t.attachments[a] == s.attachments[a] && IsActive(t, a) == IsActive(s, a)
    requires Joined(t.probes, a) == Joined(s.probes, a) && t.connected == s.connected
    ensures AttachmentOk(t, a)
  {
  }

  /** The attachment the new probe joins, or starts. */
  lemma AcquireOwn(s: State, p: nat, net: string)
    requires Inv(s) && p !in s.probes
    ensures var t := AfterAcquire(s, p, net);
      AttachmentOk(t, t.probes[p].phase.attachment)
  {
    if net in s.active {
      AcquireJoins(s, p, net);
    } else {
      AcquireStarts(s, p, net);
    }
  }

  lemma OneMore(probes: map<nat, Probe>, p: nat, net: string, a: nat)
    requires p !in probes
    ensures |Joined(probes[p := Probe(net, Waiting(a))], a)| == |Joined(probes, a)| + 1
  {
    NewProbe(probes, p, a);
    JoinedUpdate(probes, p, Probe(net, Waiting(a)), a);
  }

  lemma AcquireJoins(s: State, p: nat, net: string)
    requires Inv(s) && p !in s.probes && net in s.active
    ensures AttachmentOk(AfterAcquire(s, p, net), s.active[net])
  {
    var a := s.active[net];
    AttachmentsKnown(s, net, a);
    hide Inv, Joined;
    OneMore(s.probes, p, net, a);
    var t := AfterAcquire(s, p, net);
    assert t.attachments[a] == s.attachments[a].(count := s.attachments[a].count + 1);
    assert t.probes == s.probes[p := Probe(net, Waiting(a))] && t.active == s.active;
  }

  lemma AcquireStarts(s: State, p: nat, net: string)
    requires Inv(s) && p !in s.probes && net !in s.active
    ensures AttachmentOk(AfterAcquire(s, p, net), |s.attachments|)
  {
    var a := |s.attachments|;
    AttachmentsKnown(s, net, a);
    hide Inv, Joined;
    OneMore(s.probes, p, net, a);
    var t := AfterAcquire(s, p, net);
    assert t.attachments[a] == Attachment(net, 1, AwaitingDetach(Lookup(s.detaching, net)));
    assert t.probes == s.probes[p := Probe(net, Waiting(a))] && t.active == s.active[net := a];
  }

  lemma AttachmentsKnown(s: State, net: string, a: nat)
    requires Inv(s)
    ensures net in s.active ==> ActiveOk(s, net)
    ensures a < |s.attachments| ==> AttachmentOk(s, a)
    ensures a >= |s.attachments| ==> Joined(s.probes, a) == {}
  {
    if a >= |s.attachments| {
      NobodyJoined(s, a);
    }
  }

  lemma NewProbe(probes: map<nat, Probe>, p: nat, a: nat)
    requires p !in probes
    ensures p !in Joined(probes, a) && Joined(probes, a) - {p} == Joined(probes, a)
  {
  }

  lemma NobodyJoined(s: State, a: nat)
    requires Inv(s) && a >= |s.attachments|
    ensures Joined(s.probes, a) == {}
  {
    forall p | p in s.probes
      ensures !HasJoined(s.probes[p].phase, a)
    {
      assert ProbeOk(s, p);
    }
  }

  lemma AcquireProbe(s: State, p: nat, net: string, q: nat)
    requires Inv(s) && p !in s.probes && q in AfterAcquire(s, p, net).probes
    ensures ProbeOk(AfterAcquire(s, p, net), q)
  {
    if net in s.active {
      assert ActiveOk(s, net);
    }
    if q != p {
      assert ProbeOk(s, q);
    }
  }

  lemma AcquireDisconnect(s: State, p: nat, net: string, d: nat)
    requires Inv(s) && p !in s.probes && d < |s.disconnects|
    ensures DisconnectOk(AfterAcquire(s, p, net), d)
  {
    assert DisconnectOk(s, d);
    assert s.disconnects[d].net in s.active ==> ActiveOk(s, s.disconnects[d].net);
  }

  lemma InvAcquire(s: State, p: nat, net: string)
    requires Inv(s) && p !in s.probes
    ensures Inv(AfterAcquire(s, p, net))
  {
    var t := AfterAcquire(s, p, net);
    forall n | n in t.active
      ensures ActiveOk(t, n)
    {
      assert n in s.active ==> ActiveOk(s, n);
    }
    forall n | n in t.detaching
      ensures DetachingOk(t, n)
    {
      assert DetachingOk(s, n);
    }
    hide AttachmentOk, ProbeOk, DisconnectOk, DetachingOk, ActiveOk;
    assert t.disconnects == s.disconnects;
    forall a | 0 <= a < |t.attachments|
      ensures AttachmentOk(t, a)
    {
      AcquireAttachment(s, p, net, a);
    }
    forall q | q in t.probes
      ensures ProbeOk(t, q)
    {
      AcquireProbe(s, p, net, q);
    }
    forall d | 0 <= d < |t.disconnects|
      ensures DisconnectOk(t, d)
    {
      AcquireDisconnect(s, p, net, d);
    }
  }

  /** Changing one probe's phase changes who has joined by that probe only. */
  lemma JoinedUpdate(probes: map<nat, Probe>, p: nat, probe: Probe, a: nat)
    ensures var updated := probes[p := probe];
      Joined(updated, a) == if HasJoined(probe.phase, a) then Joined(probes, a) + {p} else Joined(probes, a) - {p}
    ensures |Joined(probes[p := probe], a)| ==
      |Joined(probes, a)| + (if HasJoined(probe.phase, a) then 1 else 0) - (if p in Joined(probes, a) then 1 else 0)
  {
    var updated := probes[p := probe];
    if HasJoined(probe.phase, a) {
      assert Joined(updated, a) == Joined(probes, a) + {p};
    } else {
      assert Joined(updated, a) == Joined(probes, a) - {p};
    }
  }

  /** An attachment that is not ready and has not failed is its network's active one. */
  lemma UnsettledIsActive(s: State, a: nat)
    requires Inv(s) && a < |s.attachments| && !s.attachments[a].phase.Ready? && !s.attachments[a].phase.Failed?
    ensures IsActive(s, a)
  {
    assert AttachmentOk(s, a);
  }

  /** No disconnect of its network is in flight, except one that the attachment waits for. */
  lemma NoDisconnectInFlight(s: State, a: nat, d: nat)
    requires Inv(s) && a < |s.attachments| && IsActive(s, a)
    requires InFlight(s, d) && s.disconnects[d].net == s.attachments[a].net
    ensures s.attachments[a].phase == AwaitingDetach(Some(d))
  {
    assert DisconnectOk(s, d);
  }

  lemma InvWithPhase(s: State, a: nat, phase: Phase)
    requires Inv(s) && a < |s.attachments| && IsActive(s, a) && !s.attachments[a].phase.Ready?
    requires phase.Connecting? || phase.Failing? || (phase.Ready? && s.attachments[a].net in s.connected)
    requires forall d: nat :: InFlight(s, d) ==> s.disconnects[d].net != s.attachments[a].net
    ensures Inv(WithPhase(s, a, phase))
  {
    var t := WithPhase(s, a, phase);
    hide Joined;
    forall n | n in t.active
      ensures ActiveOk(t, n)
    {
      assert ActiveOk(s, n);
    }
    forall b | 0 <= b < |t.attachments|
      ensures AttachmentOk(t, b)
    {
      assert AttachmentOk(s, b);
    }
    forall p | p in t.probes
      ensures ProbeOk(t, p)
    {
      assert ProbeOk(s, p);
    }
    forall d | 0 <= d < |t.disconnects|
      ensures DisconnectOk(t, d)
    {
      assert DisconnectOk(s, d);
      assert InFlight(s, d) || s.disconnects[d].settled;
    }
    forall n | n in t.detaching
      ensures DetachingOk(t, n)
    {
      assert DetachingOk(s, n);
    }
  }

  lemma InvCatch(s: State, a: nat)
    requires Inv(s) && a < |s.attachments| && s.attachments[a].phase.Failing?
    ensures Inv(AfterCatch(s, a))
  {
    var t := AfterCatch(s, a);
    UnsettledIsActive(s, a);
    hide Joined;
    forall n | n in t.active
      ensures ActiveOk(t, n)
    {
      assert ActiveOk(s, n);
    }
    forall b | 0 <= b < |t.attachments|
      ensures AttachmentOk(t, b)
    {
      assert AttachmentOk(s, b);
    }
    forall p | p in t.probes
      ensures ProbeOk(t, p)
    {
      assert ProbeOk(s, p);
    }
    forall d | 0 <= d < |t.disconnects|
      ensures DisconnectOk(t, d)
    {
      assert DisconnectOk(s, d);
    }
    forall n | n in t.detaching
      ensures DetachingOk(t, n)
    {
      assert DetachingOk(s, n);
    }
  }

  lemma InvConnected(s: State, connected: set<string>)
    requires Inv(s)
    requires forall a ::
      0 <= a < |s.attachments| && IsActive(s, a) && s.attachments[a].phase.Ready? ==> s.attachments[a].net in connected
    ensures Inv(s.(connected := connected))
  {
    var t := s.(connected := connected);
    hide Joined;
    assert forall n :: n in t.active ==> ActiveOk(s, n) ==> ActiveOk(t, n);
    forall b | 0 <= b < |t.attachments|
      ensures AttachmentOk(t, b)
    {
      assert AttachmentOk(s, b);
      assert IsActive(t, b) == IsActive(s, b);
    }
    forall p | p in t.probes
      ensures ProbeOk(t, p)
    {
      assert ProbeOk(s, p);
    }
    forall d | 0 <= d < |t.disconnects|
      ensures DisconnectOk(t, d)
    {
      assert DisconnectOk(s, d);
    }
    forall n | n in t.detaching
      ensures DetachingOk(t, n)
    {
      assert DetachingOk(s, n);
    }
  }

  lemma InvDisconnectSettles(s: State, d: nat)
    requires Inv(s) && InFlight(s, d)
    ensures Inv(Next(s, DisconnectSettles(d)))
  {
    var t := Next(s, DisconnectSettles(d));
    hide Joined;
    forall n | n in t.active
      ensures ActiveOk(t, n)
    {
      assert ActiveOk(s, n);
    }
    forall b | 0 <= b < |t.attachments|
      ensures AttachmentOk(t, b)
    {
      assert AttachmentOk(s, b);
    }
    forall p | p in t.probes
      ensures ProbeOk(t, p)
    {
      assert ProbeOk(s, p);
    }
    forall e | 0 <= e < |t.disconnects|
      ensures DisconnectOk(t, e)
    {
      assert DisconnectOk(s, e);
    }
    forall n | n in t.detaching
      ensures DetachingOk(t, n)
    {
      assert DetachingOk(s, n);
    }
  }

  lemma ResumeAttachment(s: State, p: nat, b: nat)
    requires Inv(s) && Enabled(s, ProbeResumes(p)) && b < |s.attachments|
    ensures AttachmentOk(Next(s, ProbeResumes(p)), b)
  {
    assert AttachmentOk(s, b) && ProbeOk(s, p);
    var t := Next(s, ProbeResumes(p));
    JoinedUpdate(s.probes, p, t.probes[p], b);
    var a := s.probes[p].phase.attachment;
    assert p in Joined(s.probes, a);
    assert Joined(s.probes, b) + {p} == Joined(s.probes, b) || p !in Joined(s.probes, b);
    assert b != a ==> p !in Joined(s.probes, b);
    assert b != a ==> Joined(s.probes, b) - {p} == Joined(s.probes, b);
  }

  lemma InvResume(s: State, p: nat)
    requires Inv(s) && Enabled(s, ProbeResumes(p))
    ensures Inv(Next(s, ProbeResumes(p)))
  {
    var t := Next(s, ProbeResumes(p));
    hide Joined;
    assert ProbeOk(s, p);
    forall n | n in t.active
      ensures ActiveOk(t, n)
    {
      assert ActiveOk(s, n);
    }
    forall b | 0 <= b < |t.attachments|
      ensures AttachmentOk(t, b)
    {
      ResumeAttachment(s, p, b);
    }
    forall q | q in t.probes
      ensures ProbeOk(t, q)
    {
      assert ProbeOk(s, q);
    }
    forall d | 0 <= d < |t.disconnects|
      ensures DisconnectOk(t, d)
    {
      assert DisconnectOk(s, d);
    }
    forall n | n in t.detaching
      ensures DetachingOk(t, n)
    {
      assert DetachingOk(s, n);
    }
  }

  /** The attachment a running probe releases is its own. */
  lemma ReleasesItsOwn(s: State, p: nat)
    requires Inv(s) && p in s.probes && s.probes[p].phase.Running?
    ensures var a := s.probes[p].phase.attachment;
      && a < |s.attachments| && s.attachments[a].net == s.probes[p].net
      && Lookup(s.active, s.probes[p].net) == Some(a) && s.attachments[a].phase.Ready?
      && s.attachments[a].count == |Joined(s.probes, a)| > 0 && s.probes[p].net in s.connected
  {
    assert ProbeOk(s, p);
    assert AttachmentOk(s, s.probes[p].phase.attachment);
  }

  lemma ReleaseAttachment(s: State, p: nat, b: nat)
    requires Inv(s) && Enabled(s, Release(p)) && b < |s.attachments|
    ensures AttachmentOk(AfterRelease(s, p), b)
  {
    ReleasesItsOwn(s, p);
    var a := s.probes[p].phase.attachment;
    var t := AfterRelease(s, p);
    assert AttachmentOk(s, b);
    hide Inv;
    JoinedUpdate(s.probes, p, t.probes[p], b);
    assert p in Joined(s.probes, a);
    if b != a {
      assert Joined(s.probes, b) - {p} == Joined(s.probes, b);
      hide Joined;
      assert IsActive(t, b) == IsActive(s, b);
    }
  }

  lemma ReleaseProbe(s: State, p: nat, q: nat)
    requires Inv(s) && Enabled(s, Release(p)) && q in s.probes
    ensures ProbeOk(AfterRelease(s, p), q)
  {
    ReleasesItsOwn(s, p);
    assert ProbeOk(s, q);
    var a := s.probes[p].phase.attachment;
    if q != p && s.attachments[a].count == 1 {
      assert Joined(s.probes, a) == {p} by {
        OnlyOneJoined(s.probes, a, p);
      }
      assert !HasJoined(s.probes[q].phase, a) by {
        assert q !in Joined(s.probes, a);
      }
    }
  }

  lemma OnlyOneJoined(probes: map<nat, Probe>, a: nat, p: nat)
    requires p in Joined(probes, a) && |Joined(probes, a)| == 1
    ensures Joined(probes, a) == {p}
  {
    assert |Joined(probes, a) - {p}| == 0;
  }

  lemma ReleaseDisconnect(s: State, p: nat, d: nat)
    requires Inv(s) && Enabled(s, Release(p)) && d < |AfterRelease(s, p).disconnects|
    ensures DisconnectOk(AfterRelease(s, p), d)
  {
    ReleasesItsOwn(s, p);
    if d < |s.disconnects| {
      assert DisconnectOk(s, d);
      var a := s.probes[p].phase.attachment;
      if InFlight(s, d) && s.disconnects[d].net == s.attachments[a].net {
        NoDisconnectInFlight(s, a, d);
      }
    }
  }

  lemma ReleaseDetaching(s: State, p: nat, n: string)
    requires Inv(s) && Enabled(s, Release(p)) && n in AfterRelease(s, p).detaching
    ensures DetachingOk(AfterRelease(s, p), n)
  {
    ReleasesItsOwn(s, p);
    if n in s.detaching {
      assert DetachingOk(s, n);
    }
  }

  lemma InvRelease(s: State, p: nat)
    requires Inv(s) && Enabled(s, Release(p))
    ensures Inv(AfterRelease(s, p))
  {
    var t := AfterRelease(s, p);
    forall n | n in t.active
      ensures ActiveOk(t, n)
    {
      assert ActiveOk(s, n);
    }
    ReleasesItsOwn(s, p);
    assert |t.attachments| == |s.attachments| && t.probes.Keys == s.probes.Keys;
    hide AttachmentOk, ProbeOk, DisconnectOk, DetachingOk, ActiveOk, Joined, AfterRelease;
    forall b | 0 <= b < |t.attachments|
      ensures AttachmentOk(t, b)
    {
      ReleaseAttachment(s, p, b);
    }
    forall q | q in t.probes
      ensures ProbeOk(t, q)
    {
      ReleaseProbe(s, p, q);
    }
    forall d | 0 <= d < |t.disconnects|
      ensures DisconnectOk(t, d)
    {
      ReleaseDisconnect(s, p, d);
    }
    forall n | n in t.detaching
      ensures DetachingOk(t, n)
    {
      ReleaseDetaching(s, p, n);
    }
  }

  lemma InvReleaseFinishes(s: State, p: nat)
    requires Inv(s) && Enabled(s, ReleaseFinishes(p))
    ensures Inv(AfterReleaseFinishes(s, p))
  {
    var t := AfterReleaseFinishes(s, p);
    assert ProbeOk(s, p);
    forall n | n in t.active
      ensures ActiveOk(t, n)
    {
      assert ActiveOk(s, n);
    }
    forall b | 0 <= b < |t.attachments|
      ensures AttachmentOk(t, b)
    {
      assert AttachmentOk(s, b);
      assert Joined(t.probes, b) == Joined(s.probes, b);
    }
    hide Joined;
    forall q | q in t.probes
      ensures ProbeOk(t, q)
    {
      assert ProbeOk(s, q);
    }
    forall d | 0 <= d < |t.disconnects|
      ensures DisconnectOk(t, d)
    {
      assert DisconnectOk(s, d);
    }
    forall n | n in t.detaching
      ensures DetachingOk(t, n)
    {
      assert DetachingOk(s, n);
    }
  }

  /** Whatever happens next, the invariant survives. */
  lemma InvStep(s: State, step: Step)
    requires Inv(s) && Enabled(s, step)
    ensures Inv(Next(s, step))
  {
    hide Inv, AttachmentOk, AfterAcquire, AfterCatch, AfterRelease, AfterReleaseFinishes;
    match step
    case Acquire(p, net) => InvAcquire(s, p, net);
    case BeginConnect(a) =>
      UnsettledIsActive(s, a);
      NoneInFlight(s, a);
      InvWithPhase(s, a, Connecting);
    case ConnectTakesEffect(a) =>
      ConnectedIfReady(s);
      InvConnected(s, s.connected + {s.attachments[a].net});
    case ConnectSettles(a, ok) =>
      UnsettledIsActive(s, a);
      NoneInFlight(s, a);
      InvWithPhase(s, a, if ok then Ready else Failing);
    case CatchRuns(a) => InvCatch(s, a);
    case ProbeResumes(p) => InvResume(s, p);
    case Release(p) => InvRelease(s, p);
    case DisconnectTakesEffect(d) =>
      ConnectedIfReady(s);
      forall a | 0 <= a < |s.attachments| && IsActive(s, a) && s.attachments[a].phase.Ready?
        ensures s.attachments[a].net != s.disconnects[d].net
      {
        if s.attachments[a].net == s.disconnects[d].net {
          NoDisconnectInFlight(s, a, d);
        }
      }
      InvConnected(s, s.connected - {s.disconnects[d].net});
    case DisconnectSettles(d) => InvDisconnectSettles(s, d);
    case ReleaseFinishes(p) => InvReleaseFinishes(s, p);
  }

  lemma ConnectedIfReady(s: State)
    requires Inv(s)
    ensures forall a ::
      0 <= a < |s.attachments| && IsActive(s, a) && s.attachments[a].phase.Ready? ==> s.attachments[a].net in s.connected
  {
    forall a | 0 <= a < |s.attachments| && IsActive(s, a) && s.attachments[a].phase.Ready?
      ensures s.attachments[a].net in s.connected
    {
      assert AttachmentOk(s, a);
    }
  }

  lemma NoneInFlight(s: State, a: nat)
    requires Inv(s) && a < |s.attachments| && IsActive(s, a)
    requires s.attachments[a].phase.AwaitingDetach? ==> DetachDone(s, s.attachments[a].phase.on)
    ensures forall d: nat :: InFlight(s, d) ==> s.disconnects[d].net != s.attachments[a].net
  {
    forall d: nat | InFlight(s, d)
      ensures s.disconnects[d].net != s.attachments[a].net
    {
      if s.disconnects[d].net == s.attachments[a].net {
        NoDisconnectInFlight(s, a, d);
      }
    }
  }

  // ----- What the invariant means, in every reachable state -----

  /** Every reachable state satisfies the invariant. */
  lemma {:induction false} RunKeepsInv(s: State, steps: seq<Step>)
    requires Inv(s) && IsRun(s, steps)
    ensures Inv(Reached(s, steps))
    decreases |steps|
  {
    hide Inv, Next;
    if steps != [] {
      InvStep(s, steps[0]);
      RunKeepsInv(Next(s, steps[0]), steps[1..]);
    }
  }

  /** In every interleaving the count is the number of probes that joined the current attachment. */
  lemma CountIsJoined(steps: seq<Step>, net: string)
    requires IsRun(INITIAL, steps) && net in Reached(INITIAL, steps).active
    ensures var s := Reached(INITIAL, steps);
      && s.active[net] < |s.attachments|
      && s.attachments[s.active[net]].count == |Joined(s.probes, s.active[net])| > 0
  {
    RunKeepsInv(INITIAL, steps);
    var s := Reached(INITIAL, steps);
    assert ActiveOk(s, net) && AttachmentOk(s, s.active[net]);
  }

  datatype DockerCall = ConnectCall(attachment: nat) | DisconnectCall(disconnect: nat)

  /** The Docker call is in flight on `net`. */
  predicate CallInFlight(s: State, call: DockerCall, net: string) {
    match call
    case ConnectCall(a) => a < |s.attachments| && s.attachments[a].net == net && s.attachments[a].phase.Connecting?
    case DisconnectCall(d) => InFlight(s, d) && s.disconnects[d].net == net
  }

  /** Never are two connect or disconnect calls on one network in flight together. */
  lemma AtMostOneCall(steps: seq<Step>, net: string, one: DockerCall, other: DockerCall)
    requires IsRun(INITIAL, steps)
    requires CallInFlight(Reached(INITIAL, steps), one, net) && CallInFlight(Reached(INITIAL, steps), other, net)
    ensures one == other
  {
    RunKeepsInv(INITIAL, steps);
    var s := Reached(INITIAL, steps);
    if one.ConnectCall? {
      UnsettledIsActive(s, one.attachment);
    }
    if other.ConnectCall? {
      UnsettledIsActive(s, other.attachment);
    }
    if one.DisconnectCall? {
      assert DisconnectOk(s, one.disconnect);
    }
    if other.DisconnectCall? {
      assert DisconnectOk(s, other.disconnect);
    }
  }

  /** While a probe's request runs, Docktor is connected and nothing disconnects it. */
  lemma RunningIsUndisturbed(steps: seq<Step>, p: nat)
    requires IsRun(INITIAL, steps)
    requires p in Reached(INITIAL, steps).probes && Reached(INITIAL, steps).probes[p].phase.Running?
    ensures var s := Reached(INITIAL, steps);
      && s.probes[p].net in s.connected
      && forall d: nat :: InFlight(s, d) ==> s.disconnects[d].net != s.probes[p].net
  {
    RunKeepsInv(INITIAL, steps);
    var s := Reached(INITIAL, steps);
    ReleasesItsOwn(s, p);
    NoneInFlight(s, s.probes[p].phase.attachment);
  }

  /** When every probe has ended nothing is left behind. */
  lemma AllEndedLeavesNothing(steps: seq<Step>)
    requires IsRun(INITIAL, steps)
    requires var s := Reached(INITIAL, steps); forall p :: p in s.probes ==> s.probes[p].phase.Ended?
    ensures Reached(INITIAL, steps).active == map[] && Reached(INITIAL, steps).detaching == map[]
  {
    RunKeepsInv(INITIAL, steps);
    var s := Reached(INITIAL, steps);
    forall net | net in s.active
      ensures false
    {
      ActiveHasProbe(s, net);
    }
    forall net | net in s.detaching
      ensures false
    {
      DetachingHasProbe(s, net);
    }
  }

  lemma ActiveHasProbe(s: State, net: string)
    requires Inv(s) && net in s.active
    ensures exists p :: p in s.probes && HasJoined(s.probes[p].phase, s.active[net])
  {
    assert ActiveOk(s, net) && AttachmentOk(s, s.active[net]);
    var p :| p in Joined(s.probes, s.active[net]);
  }

  lemma DetachingHasProbe(s: State, net: string)
    requires Inv(s) && net in s.detaching
    ensures exists p :: p in s.probes && s.probes[p].phase.Releasing?
  {
    assert DetachingOk(s, net);
  }

  // ----- Docktor leaves every network again -----

  /** A step as Docker should answer it, given the effects seen so far: a disconnect settles once it took effect, and a
      connect that took effect is not rejected. */
  predicate AnsweredRightly(step: Step, effects: set<Step>) {
    (step.DisconnectSettles? ==> DisconnectTakesEffect(step.disconnect) in effects) &&
    (step.ConnectSettles? && !step.ok ==> ConnectTakesEffect(step.attachment) !in effects)
  }

  function WithEffect(effects: set<Step>, step: Step): set<Step> {
    if TakesEffect(step) then effects + {step} else effects
  }

  predicate AllAnsweredRightly(steps: seq<Step>, effects: set<Step>)
    decreases |steps|
  {
    steps == [] || (AnsweredRightly(steps[0], effects) && AllAnsweredRightly(steps[1..], WithEffect(effects, steps[0])))
  }

  /** The network's active attachment accounts for its being connected. */
  predicate IsHeld(s: State, effects: set<Step>, net: string) {
    net in s.active && s.active[net] < |s.attachments| &&
    var phase := s.attachments[s.active[net]].phase;
    phase.Ready? || (phase.Connecting? && ConnectTakesEffect(s.active[net]) in effects)
  }

  /** A disconnect that is still to take effect. */
  predicate IsLeaving(s: State, effects: set<Step>, net: string, d: nat) {
    InFlight(s, d) && s.disconnects[d].net == net && DisconnectTakesEffect(d) !in effects
  }

  /** Every connected network is accounted for. */
  ghost predicate Accounted(s: State, effects: set<Step>) {
    && (forall step :: step in effects && step.DisconnectTakesEffect? ==> step.disconnect < |s.disconnects|)
    && (forall net :: net in s.connected ==> IsHeld(s, effects, net) || exists d :: IsLeaving(s, effects, net, d))
  }

  /** Nobody holds a network whose connect has not begun or was rejected; if it is connected, it is being left. */
  lemma NotHeldIsLeaving(s: State, effects: set<Step>, a: nat) returns (d: nat)
    requires Inv(s) && Accounted(s, effects) && a < |s.attachments| && s.attachments[a].net in s.connected
    requires s.attachments[a].phase.AwaitingDetach? || s.attachments[a].phase.Failing? ||
      (s.attachments[a].phase.Connecting? && ConnectTakesEffect(a) !in effects)
    ensures IsLeaving(s, effects, s.attachments[a].net, d)
    ensures s.attachments[a].phase == AwaitingDetach(Some(d))
  {
    UnsettledIsActive(s, a);
    d :| IsLeaving(s, effects, s.attachments[a].net, d);
    assert DisconnectOk(s, d);
  }

  lemma StepIsAccounted(s: State, step: Step, effects: set<Step>)
    requires Inv(s) && Enabled(s, step) && Accounted(s, effects) && AnsweredRightly(step, effects)
    ensures Accounted(Next(s, step), WithEffect(effects, step))
  {
    var t, effects' := Next(s, step), WithEffect(effects, step);
    hide Inv, Joined, Accounted;
    forall net | net in t.connected
      ensures IsHeld(t, effects', net) || exists d :: IsLeaving(t, effects', net, d)
    {
      NetIsAccounted(s, step, effects, net);
    }
    EffectsAreKnown(s, step, effects);
    assert Accounted(t, effects') by {
      hide IsHeld, IsLeaving;
      assert forall x :: x in effects' && x.DisconnectTakesEffect? ==> x.disconnect < |t.disconnects|;
    }
  }

  lemma EffectsAreKnown(s: State, step: Step, effects: set<Step>)
    requires Enabled(s, step) && Accounted(s, effects)
    ensures forall x :: x in WithEffect(effects, step) && x.DisconnectTakesEffect? ==>
      x.disconnect < |Next(s, step).disconnects|
  {
  }

  lemma NetIsAccounted(s: State, step: Step, effects: set<Step>, net: string)
    requires Inv(s) && Enabled(s, step) && Accounted(s, effects) && AnsweredRightly(step, effects)
    requires net in Next(s, step).connected
    ensures var t, effects' := Next(s, step), WithEffect(effects, step);
      IsHeld(t, effects', net) || exists d :: IsLeaving(t, effects', net, d)
  {
    hide Inv, IsHeld, IsLeaving;
    match step
    case BeginConnect(a) => AttachmentIsAccounted(s, step, effects, net, a);
    case ConnectSettles(a, _) => AttachmentIsAccounted(s, step, effects, net, a);
    case CatchRuns(a) => AttachmentIsAccounted(s, step, effects, net, a);
    case ConnectTakesEffect(a) => EffectIsAccounted(s, a, effects, net);
    case Acquire(_, _) => ProbeIsAccounted(s, step, effects, net);
    case ProbeResumes(_) => ProbeIsAccounted(s, step, effects, net);
    case ReleaseFinishes(_) => ProbeIsAccounted(s, step, effects, net);
    case Release(p) => ReleaseIsAccounted(s, p, effects, net);
    case DisconnectTakesEffect(_) => DisconnectIsAccounted(s, step, effects, net);
    case DisconnectSettles(_) => DisconnectIsAccounted(s, step, effects, net);
  }

  /** An attachment moves on: another network's bookkeeping is untouched, and its own is not connected unless held. */
  lemma AttachmentIsAccounted(s: State, step: Step, effects: set<Step>, net: string, a: nat)
    requires step == BeginConnect(a) || step == CatchRuns(a) || (step.ConnectSettles? && step.attachment == a)
    requires Inv(s) && Enabled(s, step) && Accounted(s, effects) && AnsweredRightly(step, effects) && net in s.connected
    ensures var t := Next(s, step);
      IsHeld(t, effects, net) || exists d :: IsLeaving(t, effects, net, d)
  {
    var t := Next(s, step);
    if d :| IsLeaving(s, effects, net, d) {
      assert IsLeaving(t, effects, net, d);
    } else {
      assert IsHeld(s, effects, net);
      InvActive(s, net);
      hide Inv, Joined;
      if s.active[net] == a && !(step.ConnectSettles? && step.ok) {
        var d := NotHeldIsLeaving(s, effects, a);
      }
    }
  }

  lemma EffectIsAccounted(s: State, a: nat, effects: set<Step>, net: string)
    requires Inv(s) && Enabled(s, ConnectTakesEffect(a)) && Accounted(s, effects)
    requires net in Next(s, ConnectTakesEffect(a)).connected
    ensures var t, effects' := Next(s, ConnectTakesEffect(a)), WithEffect(effects, ConnectTakesEffect(a));
      IsHeld(t, effects', net) || exists d :: IsLeaving(t, effects', net, d)
  {
    var t, effects' := Next(s, ConnectTakesEffect(a)), WithEffect(effects, ConnectTakesEffect(a));
    if net == s.attachments[a].net {
      UnsettledIsActive(s, a);
      assert IsHeld(t, effects', net);
    } else if d :| IsLeaving(s, effects, net, d) {
      assert IsLeaving(t, effects', net, d);
    }
  }

  lemma ProbeIsAccounted(s: State, step: Step, effects: set<Step>, net: string)
    requires step.Acquire? || step.ProbeResumes? || step.ReleaseFinishes?
    requires Inv(s) && Enabled(s, step) && Accounted(s, effects) && net in s.connected
    ensures var t := Next(s, step);
      IsHeld(t, effects, net) || exists d :: IsLeaving(t, effects, net, d)
  {
    var t := Next(s, step);
    if d :| IsLeaving(s, effects, net, d) {
      assert IsLeaving(t, effects, net, d);
    } else {
      assert IsHeld(s, effects, net) && IsHeld(t, effects, net);
    }
  }

  /** The last probe out of a network leaves a disconnect of it that is still to take effect. */
  lemma ReleaseIsAccounted(s: State, p: nat, effects: set<Step>, net: string)
    requires Inv(s) && Enabled(s, Release(p)) && Accounted(s, effects) && net in s.connected
    ensures var t := Next(s, Release(p));
      IsHeld(t, effects, net) || exists d :: IsLeaving(t, effects, net, d)
  {
    var t := Next(s, Release(p));
    if d :| IsLeaving(s, effects, net, d) {
      assert IsLeaving(t, effects, net, d);
    } else if net in t.active {
      assert IsHeld(t, effects, net);
    } else {
      assert IsLeaving(t, effects, net, |s.disconnects|);
    }
  }

  lemma DisconnectIsAccounted(s: State, step: Step, effects: set<Step>, net: string)
    requires step.DisconnectTakesEffect? || step.DisconnectSettles?
    requires Inv(s) && Enabled(s, step) && Accounted(s, effects) && AnsweredRightly(step, effects)
    requires net in Next(s, step).connected
    ensures var t, effects' := Next(s, step), WithEffect(effects, step);
      IsHeld(t, effects', net) || exists d :: IsLeaving(t, effects', net, d)
  {
    var t, effects' := Next(s, step), WithEffect(effects, step);
    if d :| IsLeaving(s, effects, net, d) {
      assert IsLeaving(t, effects', net, d);
    } else {
      assert IsHeld(t, effects', net);
    }
  }

  lemma {:induction false} RunIsAccounted(s: State, steps: seq<Step>, effects: set<Step>) returns (effects': set<Step>)
    requires Inv(s) && Accounted(s, effects) && IsRun(s, steps) && AllAnsweredRightly(steps, effects)
    ensures Inv(Reached(s, steps)) && Accounted(Reached(s, steps), effects')
    decreases |steps|
  {
    if steps == [] {
      effects' := effects;
    } else {
      hide Inv, Accounted, Next, Enabled;
      StepIsAccounted(s, steps[0], effects);
      InvStep(s, steps[0]);
      effects' := RunIsAccounted(Next(s, steps[0]), steps[1..], WithEffect(effects, steps[0]));
    }
  }

  /** When every probe has ended, Docktor has left every network it joined. */
  lemma AllEndedIsDisconnected(steps: seq<Step>)
    requires IsRun(INITIAL, steps) && AllAnsweredRightly(steps, {})
    requires var s := Reached(INITIAL, steps); forall p :: p in s.probes ==> s.probes[p].phase.Ended?
    ensures Reached(INITIAL, steps).connected == {}
  {
    var s := Reached(INITIAL, steps);
    AllEndedLeavesNothing(steps);
    var effects := RunIsAccounted(INITIAL, steps, {});
    ConnectedIsKnown(s, effects);
  }

  lemma ConnectedIsKnown(s: State, effects: set<Step>)
    requires Inv(s) && Accounted(s, effects)
    ensures s.connected <= s.active.Keys + s.detaching.Keys
  {
    forall net | net in s.connected && net !in s.active
      ensures net in s.detaching
    {
      var d :| IsLeaving(s, effects, net, d);
      assert DisconnectOk(s, d);
    }
  }

  /** A probe that ended after its request either left the network to others or waited for a disconnect to settle. */
  lemma LastOneOutDisconnects(s: State, p: nat)
    requires Inv(s) && Enabled(s, Release(p))
    ensures var t := Next(s, Release(p));
      if Joined(s.probes, s.active[s.probes[p].net]) == {p} then
        && t.probes[p].phase == Releasing(|s.disconnects|) && InFlight(t, |s.disconnects|)
        && t.disconnects[|s.disconnects|].net == s.probes[p].net && !Enabled(t, ReleaseFinishes(p))
      else t.probes[p].phase.Ended? && t.disconnects == s.disconnects && s.probes[p].net in t.active
  {
    ReleasesItsOwn(s, p);
    var a := s.active[s.probes[p].net];
    assert AttachmentOk(s, a);
    if Joined(s.probes, a) != {p} {
      var others := Joined(s.probes, a) - {p};
      assert others != {} && |Joined(s.probes, a)| == |others| + 1;
    }
  }

  /** No probe is ever stuck: as long as one has not ended, something other than a new probe can happen. */
  lemma NoDeadlock(steps: seq<Step>, p: nat) returns (step: Step)
    requires IsRun(INITIAL, steps)
    requires p in Reached(INITIAL, steps).probes && !Reached(INITIAL, steps).probes[p].phase.Ended?
    ensures !step.Acquire? && !step.ConnectTakesEffect? && !step.DisconnectTakesEffect?
    ensures Enabled(Reached(INITIAL, steps), step)
  {
    RunKeepsInv(INITIAL, steps);
    var s := Reached(INITIAL, steps);
    assert ProbeOk(s, p);
    match s.probes[p].phase
    case Waiting(a) =>
      assert AttachmentOk(s, a);
      match s.attachments[a].phase {
        case AwaitingDetach(on) =>
          step := if DetachDone(s, on) then BeginConnect(a) else DisconnectSettles(on.value);
        case Connecting => step := ConnectSettles(a, false);
        case Failing => step := CatchRuns(a);
        case Ready => step := ProbeResumes(p);
        case Failed => step := ProbeResumes(p);
      }
    case Running(_) => step := Release(p);
    case Releasing(d) => step := if s.disconnects[d].settled then ReleaseFinishes(p) else DisconnectSettles(d);
  }

  // ----- Every run without new probes comes to an end -----

  /** How much a probe still has ahead of it. */
  function ProbeRank(phase: ProbePhase): nat {
    match phase
    case Waiting(_) => 4
    case Running(_) => 3
    case Releasing(_) => 1
    case Ended => 0
  }

  function OfRank(probes: map<nat, Probe>, rank: nat): set<nat> {
    set p | p in probes && ProbeRank(probes[p].phase) == rank
  }

  function ProbesAhead(probes: map<nat, Probe>): nat {
    4 * |OfRank(probes, 4)| + 3 * |OfRank(probes, 3)| + |OfRank(probes, 1)|
  }

  function PhaseRank(phase: Phase): nat {
    match phase
    case AwaitingDetach(_) => 3
    case Connecting => 2
    case Failing => 1
    case _ => 0
  }

  function AttachmentsAhead(attachments: seq<Attachment>): nat {
    if attachments == [] then 0
    else AttachmentsAhead(attachments[..|attachments| - 1]) + PhaseRank(attachments[|attachments| - 1].phase)
  }

  function DisconnectsAhead(disconnects: seq<Disconnect>): nat {
    if disconnects == [] then 0
    else DisconnectsAhead(disconnects[..|disconnects| - 1]) + if disconnects[|disconnects| - 1].settled then 0 else 1
  }

  function Ahead(s: State): nat {
    ProbesAhead(s.probes) + AttachmentsAhead(s.attachments) + DisconnectsAhead(s.disconnects)
  }

  lemma OfRankUpdate(probes: map<nat, Probe>, p: nat, probe: Probe, rank: nat)
    requires p in probes
    ensures |OfRank(probes[p := probe], rank)| == |OfRank(probes, rank)|
      + (if ProbeRank(probe.phase) == rank then 1 else 0) - (if ProbeRank(probes[p].phase) == rank then 1 else 0)
  {
    hide ProbeRank;
    var before := OfRank(probes, rank);
    if ProbeRank(probe.phase) == rank {
      assert OfRank(probes[p := probe], rank) == before + {p};
    } else {
      assert OfRank(probes[p := probe], rank) == before - {p};
    }
  }

  lemma ProbesAheadUpdate(probes: map<nat, Probe>, p: nat, probe: Probe)
    requires p in probes
    ensures ProbesAhead(probes[p := probe]) == ProbesAhead(probes) + ProbeRank(probe.phase) - ProbeRank(probes[p].phase)
  {
    hide OfRank;
    OfRankUpdate(probes, p, probe, 4);
    OfRankUpdate(probes, p, probe, 3);
    OfRankUpdate(probes, p, probe, 1);
  }

  lemma {:induction false} AttachmentsAheadUpdate(attachments: seq<Attachment>, a: nat, attachment: Attachment)
    requires a < |attachments|
    ensures AttachmentsAhead(attachments[a := attachment]) ==
      AttachmentsAhead(attachments) + PhaseRank(attachment.phase) - PhaseRank(attachments[a].phase)
  {
    hide PhaseRank;
    var last := |attachments| - 1;
    var updated := attachments[a := attachment];
    if a < last {
      assert updated[..last] == attachments[..last][a := attachment];
      AttachmentsAheadUpdate(attachments[..last], a, attachment);
    } else {
      assert updated[..last] == attachments[..last];
    }
  }

  lemma {:induction false} DisconnectsAheadUpdate(disconnects: seq<Disconnect>, d: nat, disconnect: Disconnect)
    requires d < |disconnects| && !disconnects[d].settled && disconnect.settled
    ensures DisconnectsAhead(disconnects[d := disconnect]) == DisconnectsAhead(disconnects) - 1
  {
    var last := |disconnects| - 1;
    var updated := disconnects[d := disconnect];
    if d < last {
      assert updated[..last] == disconnects[..last][d := disconnect];
      DisconnectsAheadUpdate(disconnects[..last], d, disconnect);
    } else {
      assert updated[..last] == disconnects[..last];
    }
  }

  predicate TakesEffect(step: Step) {
    step.ConnectTakesEffect? || step.DisconnectTakesEffect?
  }

  lemma ReleaseGoesAhead(s: State, p: nat)
    requires Inv(s) && Enabled(s, Release(p))
    ensures Ahead(AfterRelease(s, p)) < Ahead(s)
  {
    ReleasesItsOwn(s, p);
    var t := AfterRelease(s, p);
    var a := s.active[s.probes[p].net];
    hide Inv, Joined, ProbesAhead;
    ProbesAheadUpdate(s.probes, p, t.probes[p]);
    AttachmentsAheadUpdate(s.attachments, a, t.attachments[a]);
    if t.probes[p].phase.Releasing? {
      assert t.disconnects[..|s.disconnects|] == s.disconnects;
    }
  }

  /** An attachment moves on. */
  lemma PhaseGoesAhead(s: State, step: Step)
    requires Enabled(s, step) && (step.BeginConnect? || step.ConnectSettles? || step.CatchRuns?)
    ensures Ahead(Next(s, step)) < Ahead(s)
  {
    var a :=
      match step
      case BeginConnect(a) => a
      case ConnectSettles(a, _) => a
      case CatchRuns(a) => a
      case _ => 0;
    hide AttachmentsAhead, ProbesAhead, DisconnectsAhead;
    AttachmentsAheadUpdate(s.attachments, a, Next(s, step).attachments[a]);
  }

  /** Every step but a new probe goes ahead, except that a call may take effect. */
  lemma StepGoesAhead(s: State, step: Step)
    requires Inv(s) && Enabled(s, step) && !step.Acquire?
    ensures if TakesEffect(step) then Ahead(Next(s, step)) == Ahead(s) else Ahead(Next(s, step)) < Ahead(s)
  {
    var t := Next(s, step);
    hide Inv, ProbesAhead, AttachmentsAhead, DisconnectsAhead, PhaseRank;
    match step {
      case ProbeResumes(p) => ProbesAheadUpdate(s.probes, p, t.probes[p]);
      case Release(p) => ReleaseGoesAhead(s, p);
      case DisconnectSettles(d) => DisconnectsAheadUpdate(s.disconnects, d, t.disconnects[d]);
      case ReleaseFinishes(p) => ProbesAheadUpdate(s.probes, p, t.probes[p]);
      case ConnectTakesEffect(_) =>
      case DisconnectTakesEffect(_) =>
      case _ => PhaseGoesAhead(s, step);
    }
  }

  /** The steps of a run that are more than a call taking effect. */
  function Settling(steps: seq<Step>): nat {
    if steps == [] then 0 else Settling(steps[1..]) + if TakesEffect(steps[0]) then 0 else 1
  }

  /** From any reachable state only so many more steps can happen without a new probe; as none gets stuck before it
      has ended (`NoDeadlock`), all probes end. */
  lemma {:induction false} RunsEnd(s: State, steps: seq<Step>)
    requires Inv(s) && IsRun(s, steps) && forall step :: step in steps ==> !step.Acquire?
    ensures Settling(steps) + Ahead(Reached(s, steps)) <= Ahead(s)
    decreases |steps|
  {
    if steps != [] {
      hide Inv, Next, Ahead;
      assert steps[0] in steps;
      StepGoesAhead(s, steps[0]);
      InvStep(s, steps[0]);
      RunsEnd(Next(s, steps[0]), steps[1..]);
    }
  }

  // ----- The object that keeps the books -----

  class NetworkAttachments {
    var active: map<string, nat>
    var detaching: map<string, nat>
    var attachments: seq<Attachment>
    var disconnects: seq<Disconnect>
    /** The callers and the daemon, as far as they matter here. */
    ghost var probes: map<nat, Probe>
    ghost var connected: set<string>

    ghost function View(): State
      reads this
    {
      State(active, detaching, attachments, disconnects, probes, connected)
    }

    constructor ()
      ensures View() == INITIAL
    {
      active, detaching, attachments, disconnects := map[], map[], [], [];
      probes, connected := map[], {};
    }

    /** Joins the active attachment, or starts one behind a disconnect in flight. */
    method Acquire(net: string, probe: nat) returns (attachment: nat)
      requires Inv(View()) && probe !in probes
      modifies this
      ensures View() == AfterAcquire(old(View()), probe, net) && Inv(View())
      ensures probes[probe].phase == Waiting(attachment)
    {
      InvAcquire(View(), probe, net);
      hide Inv;
      if net in active {
        attachment := active[net];
        assert ActiveOk(View(), net) by {
          InvActive(View(), net);
        }
        attachments := attachments[attachment := attachments[attachment].(count := attachments[attachment].count + 1)];
      } else {
        attachment := |attachments|;
        var detached := if net in detaching then Some(detaching[net]) else None;
        attachments := attachments + [Attachment(net, 1, AwaitingDetach(detached))];
        active := active[net := attachment];
      }
      probes := probes[probe := Probe(net, Waiting(attachment))];
    }

    /** A rejected connect is forgotten, if it is still the network's attachment. */
    method ForgetFailed(attachment: nat)
      requires Inv(View()) && Enabled(View(), CatchRuns(attachment))
      modifies this
      ensures View() == AfterCatch(old(View()), attachment) && Inv(View())
    {
      InvCatch(View(), attachment);
      hide Inv;
      var net := attachments[attachment].net;
      attachments := attachments[attachment := attachments[attachment].(phase := Failed)];
      if net in active && active[net] == attachment {
        active := active - {net};
      }
    }

    /** Leaves the attachment; the last one out starts the disconnect, which it then waits for. */
    method Release(net: string, probe: nat) returns (disconnect: Option<nat>)
      requires Inv(View()) && Enabled(View(), Step.Release(probe)) && probes[probe].net == net
      modifies this
      ensures View() == AfterRelease(old(View()), probe) && Inv(View())
      ensures disconnect.Some? <==> net !in active
      ensures disconnect.Some? ==> InFlight(View(), disconnect.value) && disconnects[disconnect.value].net == net
      ensures probes[probe].phase == if disconnect.Some? then Releasing(disconnect.value) else Ended
    {
      InvRelease(View(), probe);
      ReleasesItsOwn(View(), probe);
      hide Inv, Joined;
      disconnect := None;
      var attachment := active[net];
      var count := attachments[attachment].count - 1;
      attachments := attachments[attachment := attachments[attachment].(count := count)];
      if count > 0 {
        probes := probes[probe := Probe(net, Ended)];
        return;
      }
      active := active - {net};
      disconnect := Some(|disconnects|);
      detaching := detaching[net := |disconnects|];
      probes := probes[probe := Probe(net, Releasing(|disconnects|))];
      disconnects := disconnects + [Disconnect(net, probe, false)];
    }

    /** After its disconnect settled, a probe clears it away unless a later one took its place. */
    method FinishRelease(net: string, disconnect: nat, ghost probe: nat)
      requires Inv(View()) && Enabled(View(), ReleaseFinishes(probe))
      requires probes[probe] == Probe(net, Releasing(disconnect))
      modifies this
      ensures View() == AfterReleaseFinishes(old(View()), probe) && Inv(View())
    {
      InvReleaseFinishes(View(), probe);
      hide Inv;
      if net in detaching && detaching[net] == disconnect {
        detaching := detaching - {net};
      }
      probes := probes[probe := Probe(net, Ended)];
    }
  }

  lemma InvActive(s: State, net: string)
    requires Inv(s) && net in s.active
    ensures ActiveOk(s, net)
  {
  }
}
