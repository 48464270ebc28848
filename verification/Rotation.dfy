/**
 Rotating a leaf's Ethereum anchor: the client resends one signed frame over a
 lossy network to a parent that marks a frame's nonce before dispatching it, and
 takes a replay refusal of that nonce as proof that an earlier send was applied.
 */
module Rotation {
  import opened Common
  import opened Join

  const CONTROL_COMMIT_ATTEMPTS: nat := 3
  const CONTROL_TIMEOUT_SECS: nat := 15
  const CONTROL_REQUEST_TTL_SECS: nat := 120
  const CONTROL_REQUEST_MAX_TTL_SECS: nat := 300

  datatype EthAddr = EthAddr(bytes: string)
  datatype Secret = Secret(scalar: nat)
  datatype Digest = Digest(bytes: string)
  datatype Signature = Signature(bytes: string)

  /** The Ethereum primitives, left uninterpreted. */
  datatype Scheme = Scheme(
    addressOf: Secret -> EthAddr,
    sign: (Secret, Digest) -> Signature,
    recover: (Digest, Signature) -> Option<EthAddr>,
    registrationDigest: (NodeId, EthAddr) -> Digest,
    rotationDigest: (NodeId, EthAddr, EthAddr) -> Digest)

  /** A signature recovers to the address of the key that made it. */
  ghost predicate Recovers(sc: Scheme) {
    forall k: Secret, d: Digest :: sc.recover(d, sc.sign(k, d)) == Some(sc.addressOf(k))
  }

  datatype EthProof = EthProof(signature: Signature, oldAddress: Option<EthAddr>)

  predicate VerifyRegistration(sc: Scheme, proof: EthProof, node: NodeId, new_: EthAddr) {
    proof.oldAddress.None? && sc.recover(sc.registrationDigest(node, new_), proof.signature) == Some(new_)
  }

  predicate VerifyRotation(sc: Scheme, proof: EthProof, node: NodeId, incumbent: EthAddr, new_: EthAddr) {
    && proof.oldAddress == Some(incumbent)
    && sc.recover(sc.rotationDigest(node, incumbent, new_), proof.signature) == Some(incumbent)
  }

  // ---- The identity slot ----

  /** The client's slot for the key it signs with. */
  class UserIdentitySlot {
    const sc: Scheme
    var key: Option<Secret>

    constructor (scheme: Scheme)
      ensures sc == scheme && key == None
    {
      sc, key := scheme, None;
    }

    method SetFromKey(k: Secret)
      modifies this
      ensures key == Some(k)
    {
      key := Some(k);
    }

    method Clear()
      modifies this
      ensures key == None
    {
      key := None;
    }

    /** The fresh-registration proof of the held key; it verifies against that key's address and never as a rotation. */
    method Registration(node: NodeId) returns (r: Option<(EthAddr, EthProof)>)
      requires Recovers(sc)
      ensures r.Some? <==> key.Some?
      ensures r.Some? ==>
                && r.value.0 == sc.addressOf(key.value)
                && VerifyRegistration(sc, r.value.1, node, r.value.0)
                && forall old_ :: !VerifyRotation(sc, r.value.1, node, old_, r.value.0)
    {
      if key.None? { return None; }
      var addr := sc.addressOf(key.value);
      r := Some((addr, EthProof(sc.sign(key.value, sc.registrationDigest(node, addr)), None)));
    }

    /** The rotation proof of the held key; it verifies against exactly one incumbent, the held key's own address. */
    method Rotation(node: NodeId, new_: EthAddr) returns (r: Option<(EthAddr, EthProof)>)
      requires Recovers(sc)
      ensures r.Some? <==> key.Some?
      ensures r.Some? ==>
                && r.value.1 == RotationProof(sc, key.value, node, new_)
                && r.value.0 == sc.addressOf(key.value)
                && !VerifyRegistration(sc, r.value.1, node, new_)
                && forall old_ :: VerifyRotation(sc, r.value.1, node, old_, new_) <==> old_ == sc.addressOf(key.value)
    {
      if key.None? { return None; }
      r := Some((sc.addressOf(key.value), RotationProof(sc, key.value, node, new_)));
    }

    /**
     The rotation call: one frame signed by the incumbent, resent unchanged until a
     reply decides; the slot takes the new key on an applied outcome and on no other.
     `send(f)(i)` is the outcome of the `i`-th exchange of frame `f`.
     */
    method RotateWithKey(node: NodeId, newKey: Secret, nonce: nat, now: nat,
                         send: RotationFrame -> nat -> Option<ControlReply>) returns (r: RotateResult)
      requires Recovers(sc)
      modifies this
      ensures old(key).None? ==> r == NoIdentity && key == None
      ensures old(key).Some? ==>
                key.Some? && (r, key.value) == RotateOutcome(Plan(sc, node, old(key).value, newKey, nonce, now), send)
      ensures old(key).Some? ==> key == Some(if r == Decided(CommitApplied) then newKey else old(key).value)
    {
      var new_ := sc.addressOf(newKey);
      var proof := Rotation(node, new_);
      if proof.None? { return NoIdentity; }
      var frame := RotationFrame(nonce, now + CONTROL_REQUEST_TTL_SECS, new_, proof.value.1);
      var result, _ := CommitControlIdempotent(send(frame), CONTROL_COMMIT_ATTEMPTS);
      if result.None? { return Unreachable; }
      if result.value == CommitApplied { SetFromKey(newKey); }
      r := Decided(result.value);
    }
  }

  /** What a rotation call reports. */
  datatype RotateResult = NoIdentity | Unreachable | Decided(outcome: CommitOutcome)

  /** The incumbent key signs the move of its own address to `new_`. */
  function RotationProof(sc: Scheme, incumbent: Secret, node: NodeId, new_: EthAddr): EthProof {
    var old_ := sc.addressOf(incumbent);
    EthProof(sc.sign(incumbent, sc.rotationDigest(node, old_, new_)), Some(old_))
  }

  // ---- The commit loop ----

  datatype ControlReply = ReplyAccepted | ReplyRejected(code: RejectCode) | ReplyOther

  datatype CommitOutcome = CommitApplied | CommitRejected(code: RejectCode) | CommitUnexpected

  function Classify(r: ControlReply): CommitOutcome {
    match r
    case ReplyAccepted => CommitApplied
    case ReplyRejected(code) => if code == ReplayCode then CommitApplied else CommitRejected(code)
    case ReplyOther => CommitUnexpected
  }

  /**
   What a reply means to the caller: accepted, or refused as a replay of this nonce, is
   applied; any other refusal keeps its code; any other reply is unexpected.
   */
  predicate Means(reply: ControlReply, outcome: CommitOutcome) {
    && (outcome == CommitApplied <==> reply == ReplyAccepted || reply == ReplyRejected(ReplayCode))
    && (outcome == CommitUnexpected <==> reply == ReplyOther)
    && (outcome.CommitRejected? <==> reply.ReplyRejected? && reply.code != ReplayCode)
    && (outcome.CommitRejected? && reply.ReplyRejected? ==> outcome.code == reply.code)
  }

  /** The commit loop from attempt `i` on: its outcome, if any, and the number of sends in all. */
  function CommitFrom(send: nat -> Option<ControlReply>, limit: nat, i: nat): (Option<CommitOutcome>, nat)
    requires i < limit
    decreases limit - i
  {
    if send(i).Some? then (Some(Classify(send(i).value)), i + 1)
    else if i + 1 == limit then (None, i + 1)
    else CommitFrom(send, limit, i + 1)
  }

  /** The result of a rotation call with an incumbent, and the key its slot ends with. */
  function RotateOutcome(pl: Plan, send: RotationFrame -> nat -> Option<ControlReply>): (RotateResult, Secret) {
    var (result, _) := CommitFrom(send(FrameOf(pl)), CONTROL_COMMIT_ATTEMPTS, 0);
    if result.None? then (Unreachable, pl.incumbent)
    else (Decided(result.value), if result.value == CommitApplied then pl.newKey else pl.incumbent)
  }

  /**
   Resend until an exchange yields a reply or the attempts run out. `send(i)` is the
   outcome of the `i`-th exchange, `None` for a transport failure. The first reply
   decides; without one every attempt is spent.
   */
  method CommitControlIdempotent(send: nat -> Option<ControlReply>, maxAttempts: nat)
    returns (result: Option<CommitOutcome>, sends: nat)
    ensures (result, sends) == CommitFrom(send, if maxAttempts == 0 then 1 else maxAttempts, 0)
    ensures 1 <= sends <= (if maxAttempts == 0 then 1 else maxAttempts)
    ensures forall i: nat :: i < sends - 1 ==> send(i).None?
    ensures result.Some? ==> send(sends - 1).Some? && Means(send(sends - 1).value, result.value)
    ensures result.None? ==> send(sends - 1).None? && sends == (if maxAttempts == 0 then 1 else maxAttempts)
  {
    var limit := if maxAttempts == 0 then 1 else maxAttempts;
    sends := 0;
    while true
      invariant 0 <= sends < limit
      invariant forall i: nat :: i < sends ==> send(i).None?
      invariant CommitFrom(send, limit, sends) == CommitFrom(send, limit, 0)
      decreases limit - sends
    {
      var reply := send(sends);
      sends := sends + 1;
      if reply.Some? { return Some(Classify(reply.value)), sends; }
      if sends >= limit { return None, sends; }
    }
  }

  // ---- The parent ----

  /** The parent's record of this leaf, and the nonces its replay guard has seen. */
  datatype Parent = Parent(anchor: Option<EthAddr>, marked: set<nat>)

  datatype RotationFrame = RotationFrame(nonce: nat, expiry: nat, address: EthAddr, proof: EthProof)

  /** The parent takes the proof: a registration against the new address, or a rotation against the incumbent. */
  predicate ProofTaken(sc: Scheme, node: NodeId, anchor: Option<EthAddr>, f: RotationFrame) {
    match anchor
    case None => VerifyRegistration(sc, f.proof, node, f.address)
    case Some(incumbent) => VerifyRotation(sc, f.proof, node, incumbent, f.address)
  }

  /** The frame is inside the validity window the parent enforces before its replay guard. */
  predicate InWindow(f: RotationFrame, now: nat) {
    now <= f.expiry <= now + CONTROL_REQUEST_MAX_TTL_SECS
  }

  /**
   The parent processes one copy of the frame. The nonce is marked before anything
   else, and stays marked when the mark cannot be saved, the leaf is no longer a
   user child, or the proof is refused.
   */
  function ParentReceive(sc: Scheme, node: NodeId, p: Parent, f: RotationFrame, now: nat, saved: bool, linked: bool):
    (Parent, ControlReply)
  {
    if now > f.expiry then (p, ReplyRejected(ExpiredCode))
    else if f.expiry > now + CONTROL_REQUEST_MAX_TTL_SECS then (p, ReplyRejected(BadRequestCode))
    else if f.nonce in p.marked then (p, ReplyRejected(ReplayCode))
    else
      var p1 := p.(marked := p.marked + {f.nonce});
      if !saved then (p1, ReplyRejected(InternalCode))
      else if !linked then (p1, ReplyRejected(NotFoundCode))
      else if !ProofTaken(sc, node, p.anchor, f) then (p1, ReplyRejected(UnauthorizedCode))
      else (p1.(anchor := Some(f.address)), ReplyAccepted)
  }

  /** The proof a frame carries, for the anchor the parent holds: whose signature it must be, over what. */
  predicate ProofIsSigned(sc: Scheme, node: NodeId, anchor: Option<EthAddr>, f: RotationFrame) {
    if anchor.None? then
      && f.proof.oldAddress.None?
      && sc.recover(sc.registrationDigest(node, f.address), f.proof.signature) == Some(f.address)
    else
      && f.proof.oldAddress == anchor
      && sc.recover(sc.rotationDigest(node, anchor.value, f.address), f.proof.signature) == anchor
  }

  /**
   The parent accepts a frame exactly when it is in its window, its nonce is new, the
   mark was saved, the leaf is linked and the proof is signed; only then does the
   anchor move, to the frame's address. Every frame in its window is marked, and a
   marked one in its window is refused as a replay.
   */
  lemma ParentExact(sc: Scheme, node: NodeId, p: Parent, f: RotationFrame, now: nat, saved: bool, linked: bool)
    ensures var (p1, reply) := ParentReceive(sc, node, p, f, now, saved, linked);
            var inTime := now <= f.expiry <= now + 300;
            && (reply == ReplyAccepted <==>
                  inTime && f.nonce !in p.marked && saved && linked && ProofIsSigned(sc, node, p.anchor, f))
            && p1.anchor == (if reply == ReplyAccepted then Some(f.address) else p.anchor)
            && p1.marked == (if inTime then p.marked + {f.nonce} else p.marked)
            && (reply == ReplyRejected(ReplayCode) <==> inTime && f.nonce in p.marked)
            && !reply.ReplyOther?
  {
    if f.nonce in p.marked { assert p.marked + {f.nonce} == p.marked; }
  }

  // ---- Runs ----

  /**
   `Arrive`: a copy reaches the parent, at any time and any number of times; `answers`
   says whether its reply reaches the client as the outcome of the current attempt.
   `Lost`: the current attempt ends in a transport failure.
   */
  datatype NetEvent = Arrive(now: nat, saved: bool, linked: bool, answers: bool) | Lost

  datatype Ending = Waiting | Committed(outcome: CommitOutcome) | GaveUp

  /** `attempts` counts the sends so far; the first has been made when a run starts. */
  datatype Net = Net(parent: Parent, slot: Secret, attempts: nat, ending: Ending, applied: nat)

  /** The fixed parts of one rotation. */
  datatype Plan = Plan(sc: Scheme, node: NodeId, incumbent: Secret, newKey: Secret, nonce: nat, start: nat)

  function FrameOf(pl: Plan): RotationFrame {
    var new_ := pl.sc.addressOf(pl.newKey);
    RotationFrame(pl.nonce, pl.start + CONTROL_REQUEST_TTL_SECS, new_,
                  RotationProof(pl.sc, pl.incumbent, pl.node, new_))
  }

  function Begin(pl: Plan, parent: Parent): Net {
    Net(parent, pl.incumbent, 1, Waiting, 0)
  }

  function NetStep(pl: Plan, n: Net, ev: NetEvent): Net {
    match ev
    case Lost =>
      if !n.ending.Waiting? then n
      else if n.attempts >= CONTROL_COMMIT_ATTEMPTS then n.(ending := GaveUp)
      else n.(attempts := n.attempts + 1)
    case Arrive(now, saved, linked, answers) =>
      var (p, reply) := ParentReceive(pl.sc, pl.node, n.parent, FrameOf(pl), now, saved, linked);
      var n1 := n.(parent := p, applied := n.applied + if reply == ReplyAccepted then 1 else 0);
      if !answers || !n.ending.Waiting? then n1
      else
        var slot := if Classify(reply) == CommitApplied then pl.newKey else n.slot;
        n1.(ending := Committed(Classify(reply)), slot := slot)
  }

  function NetRun(pl: Plan, n: Net, evs: seq<NetEvent>): Net {
    if evs == [] then n else NetStep(pl, NetRun(pl, n, evs[..|evs| - 1]), evs[|evs| - 1])
  }

  /** What the client's exchanges come to, attempt by attempt, as the events decide them. */
  function Exchanges(pl: Plan, n: Net, evs: seq<NetEvent>): seq<Option<ControlReply>> {
    if evs == [] then []
    else
      var before, ev := NetRun(pl, n, evs[..|evs| - 1]), evs[|evs| - 1];
      Exchanges(pl, n, evs[..|evs| - 1])
      + if !before.ending.Waiting? then []
        else if ev.Lost? then [None]
        else if ev.answers
          then [Some(ParentReceive(pl.sc, pl.node, before.parent, FrameOf(pl), ev.now, ev.saved, ev.linked).1)]
        else []
  }

  /** The client's call, and how a run says it ended. */
  function ResultOf(e: Ending): RotateResult
    requires !e.Waiting?
  {
    if e.GaveUp? then Unreachable else Decided(e.outcome)
  }

  /** Before it ends, a run has seen one transport failure for each attempt but the current one. */
  lemma {:induction false} StillWaiting(pl: Plan, parent: Parent, evs: seq<NetEvent>)
    ensures var n, xs := NetRun(pl, Begin(pl, parent), evs), Exchanges(pl, Begin(pl, parent), evs);
            n.ending.Waiting? ==>
              |xs| == n.attempts - 1 < CONTROL_COMMIT_ATTEMPTS && forall i :: 0 <= i < |xs| ==> xs[i].None?
  {
    if evs != [] { StillWaiting(pl, parent, evs[..|evs| - 1]); }
  }

  /** Transport failures are skipped. */
  lemma {:induction false} FailuresSkipped(send: nat -> Option<ControlReply>, limit: nat, k: nat)
    requires k < limit && forall i: nat :: i < k ==> send(i).None?
    ensures CommitFrom(send, limit, 0) == CommitFrom(send, limit, k)
  {
    if k > 0 { FailuresSkipped(send, limit, k - 1); }
  }

  ghost predicate Yields(pl: Plan, n: Net, evs: seq<NetEvent>, send: RotationFrame -> nat -> Option<ControlReply>) {
    forall i: nat :: i < |Exchanges(pl, n, evs)| ==> send(FrameOf(pl))(i) == Exchanges(pl, n, evs)[i]
  }

  /**
   A run that has ended is the rotation call: on the exchanges its events come to,
   the call reports the run's ending and leaves the run's slot.
   */
  lemma {:induction false} RunIsRotation(pl: Plan, parent: Parent, evs: seq<NetEvent>,
                                         send: RotationFrame -> nat -> Option<ControlReply>)
    requires Yields(pl, Begin(pl, parent), evs, send)
    ensures var n := NetRun(pl, Begin(pl, parent), evs);
            !n.ending.Waiting? ==>
              && RotateOutcome(pl, send) == (ResultOf(n.ending), n.slot)
              && CommitFrom(send(FrameOf(pl)), CONTROL_COMMIT_ATTEMPTS, 0).1 == n.attempts
  {
    if evs != [] {
      var n0, init := Begin(pl, parent), evs[..|evs| - 1];
      var xs := Exchanges(pl, n0, evs);
      assert forall i :: 0 <= i < |Exchanges(pl, n0, init)| ==> xs[i] == Exchanges(pl, n0, init)[i];
      RunIsRotation(pl, parent, init, send);
      var before := NetRun(pl, n0, init);
      if before.ending.Waiting? {
        StillWaiting(pl, parent, init);
        FailuresSkipped(send(FrameOf(pl)), CONTROL_COMMIT_ATTEMPTS, before.attempts - 1);
        SlotWhileWaiting(pl, parent, init);
      }
    }
  }

  lemma {:induction false} SlotWhileWaiting(pl: Plan, parent: Parent, evs: seq<NetEvent>)
    ensures var n := NetRun(pl, Begin(pl, parent), evs); n.ending.Waiting? ==> n.slot == pl.incumbent
  {
    if evs != [] { SlotWhileWaiting(pl, parent, evs[..|evs| - 1]); }
  }

  /** The first arrival inside the frame's window, if any: the one that marks it. */
  function FirstArrival(pl: Plan, evs: seq<NetEvent>): Option<NetEvent> {
    if evs == [] then None
    else
      var earlier := FirstArrival(pl, evs[..|evs| - 1]);
      var ev := evs[|evs| - 1];
      if earlier.Some? then earlier
      else if ev.Arrive? && InWindow(FrameOf(pl), ev.now) then Some(ev)
      else None
  }

  /** The marking arrival is applied: its mark was saved, the leaf is linked, and anchor and slot agreed. */
  ghost predicate Lands(pl: Plan, anchor: Option<EthAddr>, first: Option<NetEvent>) {
    first.Some? && first.value.Arrive? && first.value.saved && first.value.linked
    && anchor == Some(pl.sc.addressOf(pl.incumbent))
  }

  /** The rotation proof is taken by a parent exactly when its anchor is the incumbent's address. */
  lemma ProofTakenExactly(pl: Plan, anchor: Option<EthAddr>)
    requires Recovers(pl.sc)
    ensures ProofTaken(pl.sc, pl.node, anchor, FrameOf(pl)) <==> anchor == Some(pl.sc.addressOf(pl.incumbent))
  {
    var old_ := pl.sc.addressOf(pl.incumbent);
    var d := pl.sc.rotationDigest(pl.node, old_, pl.sc.addressOf(pl.newKey));
    assert pl.sc.recover(d, pl.sc.sign(pl.incumbent, d)) == Some(old_);
  }

  /** What every run keeps: the anchor and the mark are decided by the first arrival, the slot by the ending. */
  lemma {:induction false} RotationRun(pl: Plan, parent: Parent, evs: seq<NetEvent>)
    requires Recovers(pl.sc) && pl.nonce !in parent.marked
    ensures var n := NetRun(pl, Begin(pl, parent), evs);
            var first := FirstArrival(pl, evs);
            && n.parent.marked == (if first.Some? then parent.marked + {pl.nonce} else parent.marked)
            && n.parent.anchor == (if Lands(pl, parent.anchor, first) then Some(pl.sc.addressOf(pl.newKey))
                                   else parent.anchor)
            && n.applied == (if Lands(pl, parent.anchor, first) then 1 else 0)
            && n.slot == (if n.ending == Committed(CommitApplied) then pl.newKey else pl.incumbent)
            && (n.ending == Committed(CommitApplied) ==> first.Some?)
            && 1 <= n.attempts <= CONTROL_COMMIT_ATTEMPTS
  {
    if evs != [] {
      RotationRun(pl, parent, evs[..|evs| - 1]);
      ProofTakenExactly(pl, parent.anchor);
    }
  }

  /** The parent applies the frame at most once, over any losses and late deliveries. */
  lemma AppliedAtMostOnce(pl: Plan, parent: Parent, evs: seq<NetEvent>)
    requires Recovers(pl.sc) && pl.nonce !in parent.marked
    ensures NetRun(pl, Begin(pl, parent), evs).applied <= 1
  {
    RotationRun(pl, parent, evs);
  }

  /**
   An applied outcome leaves slot and anchor agreeing on the new address exactly when
   the anchor already was the new address, or slot and anchor agreed at the start and
   the marking arrival was saved and linked. Any other ending leaves the slot alone.
   */
  lemma RotationAgreement(pl: Plan, parent: Parent, evs: seq<NetEvent>)
    requires Recovers(pl.sc) && pl.nonce !in parent.marked
    ensures var n := NetRun(pl, Begin(pl, parent), evs);
            var new_ := pl.sc.addressOf(pl.newKey);
            && (n.ending == Committed(CommitApplied) ==>
                  && n.slot == pl.newKey
                  && (n.parent.anchor == Some(new_)
                      <==> parent.anchor == Some(new_) || Lands(pl, parent.anchor, FirstArrival(pl, evs))))
            && (n.ending != Committed(CommitApplied) ==> n.slot == pl.incumbent)
  {
    RotationRun(pl, parent, evs);
  }

  /** With a parent that saves its marks and keeps the link, agreement at the start gives agreement at the end. */
  lemma AgreementIsKept(pl: Plan, parent: Parent, evs: seq<NetEvent>)
    requires Recovers(pl.sc) && pl.nonce !in parent.marked
    requires parent.anchor == Some(pl.sc.addressOf(pl.incumbent))
    requires forall i :: 0 <= i < |evs| && evs[i].Arrive? ==> evs[i].saved && evs[i].linked
    ensures var n := NetRun(pl, Begin(pl, parent), evs);
            n.ending == Committed(CommitApplied) ==>
              n.slot == pl.newKey && n.parent.anchor == Some(pl.sc.addressOf(n.slot))
  {
    RotationRun(pl, parent, evs);
    FirstArrivalIn(pl, evs);
  }

  lemma {:induction false} FirstArrivalIn(pl: Plan, evs: seq<NetEvent>)
    ensures FirstArrival(pl, evs).Some? ==>
              exists i :: 0 <= i < |evs| && evs[i] == FirstArrival(pl, evs).value && evs[i].Arrive?
  {
    if evs != [] {
      var init := evs[..|evs| - 1];
      FirstArrivalIn(pl, init);
      if FirstArrival(pl, init).Some? {
        var i :| 0 <= i < |init| && init[i] == FirstArrival(pl, init).value && init[i].Arrive?;
        assert evs[i] == init[i];
      } else {
        assert evs[|evs| - 1] == evs[|evs| - 1];
      }
    }
  }

  /**
   A replay refusal alone does not prove that the frame was applied: when slot and
   anchor disagree at the start, a lost refusal followed by a resend ends as applied
   with the slot moved and the anchor not.
   */
  lemma ReplayIsNotProof(pl: Plan, parent: Parent)
    requires Recovers(pl.sc) && pl.nonce !in parent.marked
    requires parent.anchor != Some(pl.sc.addressOf(pl.incumbent))
    ensures var evs := [Arrive(pl.start, true, true, false), Lost, Arrive(pl.start + 20, true, true, true)];
            var n := NetRun(pl, Begin(pl, parent), evs);
            n.ending == Committed(CommitApplied) && n.slot == pl.newKey && n.applied == 0
                && n.parent.anchor == parent.anchor
  {
    ProofTakenExactly(pl, parent.anchor);
    var a, c := Arrive(pl.start, true, true, false), Arrive(pl.start + 20, true, true, true);
    var evs := [a, Lost, c];
    assert evs[..2] == [a, Lost] && [a, Lost][..1] == [a] && [a][..0] == [];
    var n0 := Begin(pl, parent);
    var n1 := NetStep(pl, n0, a);
    assert NetRun(pl, n0, [a]) == n1;
    var n2 := NetStep(pl, n1, Lost);
    assert NetRun(pl, n0, [a, Lost]) == n2;
    assert NetRun(pl, n0, evs) == NetStep(pl, n2, c);
  }

  // ---- What an accepted reply does ----

  /** Once a run has ended, its ending and slot stay. */
  lemma {:induction false} EndingStays(pl: Plan, n: Net, evs: seq<NetEvent>, i: nat)
    requires i <= |evs| && !NetRun(pl, n, evs[..i]).ending.Waiting?
    ensures NetRun(pl, n, evs).ending == NetRun(pl, n, evs[..i]).ending
    ensures NetRun(pl, n, evs).slot == NetRun(pl, n, evs[..i]).slot
  {
    if i < |evs| {
      assert evs[..|evs| - 1][..i] == evs[..i];
      EndingStays(pl, n, evs[..|evs| - 1], i);
    } else {
      assert evs[..i] == evs;
    }
  }

  /** Event `i` brings the waiting client the reply `reply`. */
  ghost predicate Answers(pl: Plan, n: Net, evs: seq<NetEvent>, i: nat, reply: ControlReply) {
    && i < |evs| && evs[i].Arrive? && evs[i].answers
    && var before := NetRun(pl, n, evs[..i]);
       && before.ending.Waiting?
       && ParentReceive(pl.sc, pl.node, before.parent, FrameOf(pl), evs[i].now, evs[i].saved, evs[i].linked).1 == reply
  }

  /** An accepted reply that reaches the waiting client ends the run as applied, with the new key in the slot. */
  lemma AcceptedReplyAdopts(pl: Plan, parent: Parent, evs: seq<NetEvent>, i: nat)
    requires Answers(pl, Begin(pl, parent), evs, i, ReplyAccepted)
    ensures var n := NetRun(pl, Begin(pl, parent), evs);
            n.ending == Committed(CommitApplied) && n.slot == pl.newKey
  {
    assert evs[..i + 1][..i] == evs[..i];
    EndingStays(pl, Begin(pl, parent), evs, i + 1);
  }

  /** A refusal that reaches the waiting client, other than as a replay, ends the run with its code and the old slot. */
  lemma RefusedReplyKeeps(pl: Plan, parent: Parent, evs: seq<NetEvent>, i: nat, code: RejectCode)
    requires Answers(pl, Begin(pl, parent), evs, i, ReplyRejected(code)) && code != ReplayCode
    ensures var n := NetRun(pl, Begin(pl, parent), evs);
            n.ending == Committed(CommitRejected(code)) && n.slot == pl.incumbent
  {
    assert evs[..i + 1][..i] == evs[..i];
    EndingStays(pl, Begin(pl, parent), evs, i + 1);
    SlotWhileWaiting(pl, parent, evs[..i]);
  }

  /**
   Agreement at the start and no lost reply give agreement at the end: where the first
   copy to arrive in time finds a parent that saves its mark and keeps the link, and
   its reply reaches the waiting client, the run ends as applied with slot and anchor
   both at the new address.
   */
  lemma AnsweredRotationAgrees(pl: Plan, parent: Parent, evs: seq<NetEvent>, i: nat)
    requires Recovers(pl.sc) && pl.nonce !in parent.marked
    requires parent.anchor == Some(pl.sc.addressOf(pl.incumbent))
    requires i < |evs| && FirstArrival(pl, evs[..i]).None?
    requires evs[i].Arrive? && evs[i].answers && evs[i].saved && evs[i].linked
    requires evs[i].now <= FrameOf(pl).expiry <= evs[i].now + 300
    requires NetRun(pl, Begin(pl, parent), evs[..i]).ending.Waiting?
    ensures var n := NetRun(pl, Begin(pl, parent), evs);
            && n.ending == Committed(CommitApplied) && n.applied == 1
            && n.slot == pl.newKey && n.parent.anchor == Some(pl.sc.addressOf(pl.newKey))
  {
    var before := NetRun(pl, Begin(pl, parent), evs[..i]);
    RotationRun(pl, parent, evs[..i]);
    ProofTakenExactly(pl, before.parent.anchor);
    AcceptedReplyAdopts(pl, parent, evs, i);
    assert evs[..i + 1][..i] == evs[..i];
    assert FirstArrival(pl, evs[..i + 1]) == Some(evs[i]);
    FirstStays(pl, evs, i + 1);
    RotationRun(pl, parent, evs);
  }

  lemma {:induction false} FirstStays(pl: Plan, evs: seq<NetEvent>, i: nat)
    requires i <= |evs| && FirstArrival(pl, evs[..i]).Some?
    ensures FirstArrival(pl, evs) == FirstArrival(pl, evs[..i])
  {
    if i < |evs| {
      assert evs[..|evs| - 1][..i] == evs[..i];
      FirstStays(pl, evs[..|evs| - 1], i);
    } else {
      assert evs[..i] == evs;
    }
  }

  // ---- Time ----

  /**
   Attempt `k` is bounded by its 15 s, so a reply that decides it left the parent by
   `start + 15 k` on the client's clock. The parent's clock may be off by `skew`.
   */
  ghost predicate Timed(pl: Plan, n: Net, evs: seq<NetEvent>, skew: nat) {
    forall i :: 0 <= i < |evs| && evs[i].Arrive? && evs[i].answers && NetRun(pl, n, evs[..i]).ending.Waiting? ==>
      pl.start <= evs[i].now + skew
      && evs[i].now <= pl.start + CONTROL_TIMEOUT_SECS * NetRun(pl, n, evs[..i]).attempts + skew
  }

  /** The slack between the last send's end and the frame's expiry. */
  const MAX_SKEW: nat := CONTROL_REQUEST_TTL_SECS - CONTROL_COMMIT_ATTEMPTS * CONTROL_TIMEOUT_SECS

  predicate RefusedForTime(e: Ending) {
    e == Committed(CommitRejected(ExpiredCode)) || e == Committed(CommitRejected(BadRequestCode))
  }

  /**
   Three sends of 15 s never outlive the 120 s expiry: with clocks at most 75 s apart
   no timed run ends refused as expired or as too long-lived.
   */
  lemma {:induction false} SendsOutpaceExpiry(pl: Plan, parent: Parent, evs: seq<NetEvent>, skew: nat)
    requires skew <= MAX_SKEW && Timed(pl, Begin(pl, parent), evs, skew)
    ensures var n := NetRun(pl, Begin(pl, parent), evs);
            && !RefusedForTime(n.ending)
            && 1 <= n.attempts <= CONTROL_COMMIT_ATTEMPTS
            && pl.start + CONTROL_TIMEOUT_SECS * n.attempts < FrameOf(pl).expiry
  {
    if evs != [] {
      var init := evs[..|evs| - 1];
      forall i | 0 <= i < |init| ensures init[..i] == evs[..i] && init[i] == evs[i] {}
      SendsOutpaceExpiry(pl, parent, init, skew);
    }
  }

  /** With clocks further apart a rotation can be refused as expired though its last send is in time. */
  lemma SkewOutpacesExpiry(pl: Plan, parent: Parent, skew: nat)
    requires skew > MAX_SKEW
    ensures var last := pl.start + CONTROL_COMMIT_ATTEMPTS * CONTROL_TIMEOUT_SECS + skew;
            var evs := [Lost, Lost, Arrive(last, true, true, true)];
            && Timed(pl, Begin(pl, parent), evs, skew)
            && NetRun(pl, Begin(pl, parent), evs).ending == Committed(CommitRejected(ExpiredCode))
  {
    var last := Arrive(pl.start + CONTROL_COMMIT_ATTEMPTS * CONTROL_TIMEOUT_SECS + skew, true, true, true);
    var evs := [Lost, Lost, last];
    var n0 := Begin(pl, parent);
    assert evs[..2] == [Lost, Lost] && [Lost, Lost][..1] == [Lost] && [Lost][..0] == [];
    assert NetRun(pl, n0, [Lost]) == n0.(attempts := 2);
    assert NetRun(pl, n0, [Lost, Lost]) == n0.(attempts := 3);
    assert NetRun(pl, n0, evs) == NetStep(pl, n0.(attempts := 3), last);
  }
}
