/**
 Inbound delivery at a browser leaf: check an envelope, mark it seen, queue it,
 and roll the mark back when the queue refuses it. The seen set is idealised to
 one that forgets nothing.
 */
module Delivery {
  import opened Common

  const MSG_CONTROL_V1: nat := 2
  const QUEUE_CAPACITY: nat := 32

  datatype MsgId = MsgId(bytes: string)

  datatype Hop = Hop(node: NodeId, addr: OctAddr)

  datatype Envelope = Envelope(
    srcNode: NodeId, srcAddr: OctAddr, dst: OctAddr, id: MsgId, msgType: nat, hops: seq<Hop>, payload: string)

  datatype RejectReason =
    | BadVersion | BadPayload | BadHopChain | TtlExpired | NoRoute | NoAddress | NotNeighbor | Busy | InternalFault

  datatype Ack = Delivered | DuplicateAck | RejectedAck(reason: RejectReason)

  /** Which origins may deliver: anyone, or only the recorded parent (nobody while there is none). */
  datatype ParentRule = Unrestricted | Required(parent: Option<NodeId>)

  datatype Channel = Channel(items: seq<Envelope>, open: bool)

  /** The handler's own state. `control` exists only for a client with a control identity. */
  datatype Mailbox = Mailbox(seen: set<(NodeId, MsgId)>, sink: Channel, control: Option<Channel>)

  /** The environment of one delivery: identity, live address and rule, and the shape checks left uninterpreted. */
  datatype Site = Site(
    self: NodeId, address: Option<OctAddr>, rule: ParentRule,
    structureFault: Envelope -> Option<RejectReason>, plausiblePath: Envelope -> bool)

  function Key(e: Envelope): (NodeId, MsgId) { (e.srcNode, e.id) }

  /** Why an envelope is refused before it is marked, in the order of the checks. */
  function Refusal(site: Site, remote: NodeId, e: Envelope): Option<RejectReason> {
    if site.structureFault(e).Some? then site.structureFault(e)
    else if site.address.None? then Some(NoAddress)
    else if e.dst != site.address.value then Some(NoRoute)
    else if !site.plausiblePath(e) then Some(BadHopChain)
    else if InPath(site, e) then Some(BadHopChain)
    else if e.hops == [] || e.hops[|e.hops| - 1].node != remote then Some(NotNeighbor)
    else if e.msgType != MSG_CONTROL_V1 && !OriginAllowed(site.rule, e.srcNode) then Some(NotNeighbor)
    else None
  }

  predicate InPath(site: Site, e: Envelope) {
    exists i :: 0 <= i < |e.hops| && (Some(e.hops[i].addr) == site.address || e.hops[i].node == site.self)
  }

  predicate OriginAllowed(rule: ParentRule, origin: NodeId) {
    rule.Unrestricted? || rule.parent == Some(origin)
  }

  /** Control envelopes go to the control queue when there is one; everything else to the sink. */
  predicate ToControl(m: Mailbox, e: Envelope) {
    e.msgType == MSG_CONTROL_V1 && m.control.Some?
  }

  function TargetOf(m: Mailbox, e: Envelope): Channel {
    if ToControl(m, e) then m.control.value else m.sink
  }

  function Queue(m: Mailbox, e: Envelope): Mailbox {
    if ToControl(m, e)
    then m.(control := Some(m.control.value.(items := m.control.value.items + [e])))
    else m.(sink := m.sink.(items := m.sink.items + [e]))
  }

  /** What one received envelope does, without the mark-and-roll-back in between. */
  function Receive(site: Site, m: Mailbox, remote: NodeId, e: Envelope): (Mailbox, Ack) {
    var refusal := Refusal(site, remote, e);
    if refusal.Some? then (m, RejectedAck(refusal.value))
    else if Key(e) in m.seen then (m, DuplicateAck)
    else
      var ch := TargetOf(m, e);
      if !ch.open then (m, RejectedAck(InternalFault))
      else if |ch.items| >= QUEUE_CAPACITY then (m, RejectedAck(Busy))
      else (Queue(m.(seen := m.seen + {Key(e)}), e), Delivered)
  }

  /**
   What the handler accepts: a well-formed envelope addressed here, whose path is
   plausible and does not pass here, whose last hop is the neighbor that hands it
   over, and which is a control reply or comes from an origin the rule allows.
   */
  predicate Acceptable(site: Site, remote: NodeId, e: Envelope) {
    && site.structureFault(e).None?
    && site.address == Some(e.dst)
    && site.plausiblePath(e)
    && (forall i :: 0 <= i < |e.hops| ==> e.hops[i].addr != e.dst && e.hops[i].node != site.self)
    && e.hops != [] && e.hops[|e.hops| - 1].node == remote
    && (e.msgType == 2 || site.rule.Unrestricted? || site.rule.parent == Some(e.srcNode))
  }

  /** A control reply goes to the control queue, if the client has one; everything else to the general queue. */
  predicate ForControl(m: Mailbox, e: Envelope) {
    e.msgType == 2 && m.control.Some?
  }

  /** Whether the queue an envelope is for takes one more. */
  predicate HasRoom(m: Mailbox, e: Envelope) {
    var q := if ForControl(m, e) then m.control.value else m.sink;
    q.open && |q.items| < 32
  }

  /**
   An envelope is delivered exactly when it is acceptable, its (origin, id) is new and
   its queue has room; it is then at the back of that queue and marked. One already
   marked is a duplicate, and nothing but a delivery changes the mailbox.
   */
  lemma DeliveredExactly(site: Site, m: Mailbox, remote: NodeId, e: Envelope)
    ensures var (m1, ack) := Receive(site, m, remote, e);
            && (ack == Delivered <==>
                  Acceptable(site, remote, e) && (e.srcNode, e.id) !in m.seen && HasRoom(m, e))
            && (ack == DuplicateAck <==> Acceptable(site, remote, e) && (e.srcNode, e.id) in m.seen)
            && (ack != Delivered ==> m1 == m)
            && (ack == Delivered ==>
                  && m1.seen == m.seen + {(e.srcNode, e.id)}
                  && (ForControl(m, e) ==>
                        m1.sink == m.sink && m1.control == Some(Channel(m.control.value.items + [e], true)))
                  && (!ForControl(m, e) ==>
                        m1.control == m.control && m1.sink == Channel(m.sink.items + [e], true)))
  {
    RefusedExactly(site, remote, e);
  }

  /** The ordered checks pass exactly the acceptable envelopes. */
  lemma RefusedExactly(site: Site, remote: NodeId, e: Envelope)
    ensures Refusal(site, remote, e).None? <==> Acceptable(site, remote, e)
  {
    if site.address.Some? && e.dst == site.address.value {
      assert InPath(site, e) <==>
             !(forall i :: 0 <= i < |e.hops| ==> e.hops[i].addr != e.dst && e.hops[i].node != site.self);
    }
  }

  // ---- The handler ----

  datatype DeliveryOutcome = WasDelivered | WasFull | WasClosed

  class MsgHandler {
    var seen: set<(NodeId, MsgId)>
    var sink: Channel
    var control: Option<Channel>

    function View(): Mailbox
      reads this
    {
      Mailbox(seen, sink, control)
    }

    constructor (hasControl: bool)
      ensures View() == NewMailbox(hasControl)
    {
      seen, sink := {}, Channel([], true);
      control := if hasControl then Some(Channel([], true)) else None;
    }

    /** `try_send` on the channel of `e`. */
    method Deliver(e: Envelope) returns (outcome: DeliveryOutcome)
      modifies this`sink, this`control
      ensures outcome == (var ch := TargetOf(old(View()), e);
                          if !ch.open then WasClosed else if |ch.items| >= QUEUE_CAPACITY then WasFull
                              else WasDelivered)
      ensures View() == if outcome == WasDelivered then Queue(old(View()), e) else old(View())
    {
      var ch := sink;
      var split := e.msgType == MSG_CONTROL_V1 && control.Some?;
      if split { ch := control.value; }
      if !ch.open { return WasClosed; }
      if |ch.items| >= QUEUE_CAPACITY { return WasFull; }
      ch := ch.(items := ch.items + [e]);
      if split { control := Some(ch); } else { sink := ch; }
      outcome := WasDelivered;
    }

    method Observe(key: (NodeId, MsgId)) returns (isFresh: bool)
      modifies this`seen
      ensures isFresh == (key !in old(seen))
      ensures seen == old(seen) + {key}
    {
      isFresh := key !in seen;
      seen := seen + {key};
    }

    method Unobserve(key: (NodeId, MsgId))
      modifies this`seen
      ensures seen == old(seen) - {key}
    {
      seen := seen - {key};
    }

    /** Check, mark, deliver, and unmark on failure: no trace of the mark is left behind. */
    method Handle(site: Site, remote: NodeId, e: Envelope) returns (ack: Ack)
      modifies this
      ensures (View(), ack) == Receive(site, old(View()), remote, e)
    {
      var refusal := Refusal(site, remote, e);
      if refusal.Some? { return RejectedAck(refusal.value); }
      ghost var before := seen;
      var isFresh := Observe(Key(e));
      if !isFresh {
        assert seen == before;
        return DuplicateAck;
      }
      var outcome := Deliver(e);
      match outcome {
        case WasDelivered => ack := Delivered;
        case WasFull =>
          Unobserve(Key(e));
          assert seen == before;
          ack := RejectedAck(Busy);
        case WasClosed =>
          Unobserve(Key(e));
          assert seen == before;
          ack := RejectedAck(InternalFault);
      }
    }
  }

  // ---- Runs ----

  function NewMailbox(hasControl: bool): Mailbox {
    Mailbox({}, Channel([], true), if hasControl then Some(Channel([], true)) else None)
  }

  datatype Event =
    | Arrive(site: Site, remote: NodeId, env: Envelope)
    | DrainSink
    | DrainControl
    | CloseSink
    | CloseControl

  function Drained(ch: Channel): Channel {
    if ch.items == [] then ch else ch.(items := ch.items[1..])
  }

  function Apply(m: Mailbox, ev: Event): Mailbox {
    match ev
    case Arrive(site, remote, e) => Receive(site, m, remote, e).0
    case DrainSink => m.(sink := Drained(m.sink))
    case DrainControl => if m.control.Some? then m.(control := Some(Drained(m.control.value))) else m
    case CloseSink => m.(sink := m.sink.(open := false))
    case CloseControl => if m.control.Some? then m.(control := Some(m.control.value.(open := false))) else m
  }

  function RunMail(hasControl: bool, evs: seq<Event>): Mailbox {
    if evs == [] then NewMailbox(hasControl) else Apply(RunMail(hasControl, evs[..|evs| - 1]), evs[|evs| - 1])
  }

  /** The envelopes ever queued over a run, in order: those acknowledged as delivered. */
  function Queued(hasControl: bool, evs: seq<Event>): seq<Envelope> {
    if evs == [] then []
    else
      var init := evs[..|evs| - 1];
      var ev := evs[|evs| - 1];
      Queued(hasControl, init)
      + if ev.Arrive? && Receive(ev.site, RunMail(hasControl, init), ev.remote, ev.env).1 == Delivered then [ev.env]
          else []
  }

  ghost predicate NoControlIn(items: seq<Envelope>) {
    forall i :: 0 <= i < |items| ==> items[i].msgType != MSG_CONTROL_V1
  }

  ghost predicate OnlyControlIn(items: seq<Envelope>) {
    forall i :: 0 <= i < |items| ==> items[i].msgType == MSG_CONTROL_V1
  }

  ghost predicate MailInvariant(hasControl: bool, m: Mailbox, queued: seq<Envelope>) {
    && (forall k :: k in m.seen <==> exists i :: 0 <= i < |queued| && Key(queued[i]) == k)
    && (forall i, j :: 0 <= i < j < |queued| ==> Key(queued[i]) != Key(queued[j]))
    && |m.sink.items| <= QUEUE_CAPACITY
    && m.control.Some? == hasControl
    && (hasControl ==> NoControlIn(m.sink.items) && OnlyControlIn(m.control.value.items)
                       && |m.control.value.items| <= QUEUE_CAPACITY)
  }

  lemma ArriveKeeps(hasControl: bool, m: Mailbox, queued: seq<Envelope>, ev: Event)
    requires MailInvariant(hasControl, m, queued) && ev.Arrive?
    ensures var (m1, ack) := Receive(ev.site, m, ev.remote, ev.env);
            MailInvariant(hasControl, m1, queued + if ack == Delivered then [ev.env] else [])
  {
    var (m1, ack) := Receive(ev.site, m, ev.remote, ev.env);
    if ack == Delivered {
      var all := queued + [ev.env];
      forall k | k in m1.seen ensures exists i :: 0 <= i < |all| && Key(all[i]) == k {
        if k in m.seen {
          var i :| 0 <= i < |queued| && Key(queued[i]) == k;
          assert Key(all[i]) == k;
        } else {
          assert Key(all[|queued|]) == k;
        }
      }
      forall i | 0 <= i < |all| ensures Key(all[i]) in m1.seen {
        if i < |queued| { assert Key(queued[i]) in m.seen; }
      }
    } else {
      assert queued + [] == queued;
    }
  }

  /**
   In every run an (origin, id) is marked exactly when it has been queued, nothing
   is queued twice, queues respect their bound, and with a control queue no control
   reply is ever in the general queue.
   */
  lemma {:induction false} DeliveryInvariant(hasControl: bool, evs: seq<Event>)
    ensures MailInvariant(hasControl, RunMail(hasControl, evs), Queued(hasControl, evs))
  {
    if evs != [] {
      var init := evs[..|evs| - 1];
      var ev := evs[|evs| - 1];
      DeliveryInvariant(hasControl, init);
      var m, queued := RunMail(hasControl, init), Queued(hasControl, init);
      if ev.Arrive? {
        ArriveKeeps(hasControl, m, queued, ev);
      } else {
        assert queued + [] == queued;
        assert Apply(m, ev).seen == m.seen;
      }
    }
  }

  function ApplyAll(m: Mailbox, evs: seq<Event>): Mailbox {
    if evs == [] then m else Apply(ApplyAll(m, evs[..|evs| - 1]), evs[|evs| - 1])
  }

  /** No event of `evs` queues an envelope under `k`. */
  ghost predicate NeverQueues(m: Mailbox, evs: seq<Event>, k: (NodeId, MsgId)) {
    forall i :: 0 <= i < |evs| && evs[i].Arrive? && Key(evs[i].env) == k ==>
      Receive(evs[i].site, ApplyAll(m, evs[..i]), evs[i].remote, evs[i].env).1 != Delivered
  }

  lemma {:induction false} UnqueuedIsUnmarked(m: Mailbox, evs: seq<Event>, k: (NodeId, MsgId))
    requires k !in m.seen && NeverQueues(m, evs, k)
    ensures k !in ApplyAll(m, evs).seen
  {
    if evs != [] {
      var init := evs[..|evs| - 1];
      assert forall i :: 0 <= i < |init| ==> init[i] == evs[i] && init[..i] == evs[..i];
      UnqueuedIsUnmarked(m, init, k);
    }
  }

  /**
   A busy refusal leaves the mailbox as it was, and as long as nothing queues the
   same (origin, id) the retry is never reported as a duplicate, whatever else
   arrives, drains or closes in between: an acceptable envelope is delivered as soon
   as its queue has room, busy while it is full, and an internal fault once closed.
   */
  lemma BusyThenRetry(site: Site, m: Mailbox, remote: NodeId, e: Envelope, evs: seq<Event>, again: Site,
                      neighbor: NodeId)
    requires Receive(site, m, remote, e).1 == RejectedAck(Busy) && Refusal(site, remote, e).None?
    requires NeverQueues(m, evs, Key(e))
    ensures Receive(site, m, remote, e).0 == m
    ensures var m1 := ApplyAll(m, evs);
            Receive(again, m1, neighbor, e).1
            == if Refusal(again, neighbor, e).Some? then RejectedAck(Refusal(again, neighbor, e).value)
               else if !TargetOf(m1, e).open then RejectedAck(InternalFault)
               else if |TargetOf(m1, e).items| < QUEUE_CAPACITY then Delivered
               else RejectedAck(Busy)
  {
    UnqueuedIsUnmarked(m, evs, Key(e));
  }
}
