/**
 Who may make and end the parent link, and what each control frame and local call
 is answered: every case both ways, in terms of the frame and the state alone.
 */
module Links {
  import opened Common
  import Ancestors
  import opened Join
  import opened Ledger
  import opened Client
  import RebaseOrder

  /** A frame the client looks into: supported, unexpired and signed. */
  predicate Live(env: Env, f: Frame, now: nat) {
    env.supported(f.version) && now <= f.expiry && env.signed(f)
  }

  /** The frame speaks for the node `from`: it is its origin, under the operator key that node id names. */
  predicate SpeaksFor(env: Env, f: Frame, from: NodeId) {
    f.origin == from && env.operatorOf(f.origin) == Some(f.controller)
  }

  // ---- Approvals ----

  /** A live approval that answers the outstanding join: its parent, this client, its nonce, any pinned signer. */
  predicate Approves(env: Env, c: ClientState, f: Frame, now: nat) {
    && f.request.JoinApproved? && Live(env, f, now)
    && c.local.outbound.Some?
    && var join, a := c.local.outbound.value, f.request.approval;
       && f.origin == join.parent
       && a.child == env.self
       && a.nonce == join.request.nonce
       && (join.pinnedOperator.Some? ==> f.controller == join.pinnedOperator.value)
  }

  /** The client an approval leaves: linked and addressed as it says, and nothing left of the edge before. */
  function Linked(c: ClientState, f: Frame): ClientState
    requires f.request.JoinApproved?
  {
    var a := f.request.approval;
    ClientState(
      LocalState(None, Some(a.address), Some(Ancestors.ParentLink(f.origin, a.slot)), None),
      Guard(None, 0), None,
      LedgerState(Some(a.parentLedger), Confirmed, None, c.ledger.activity, [], c.ledger.settlements,
                  c.ledger.pins, c.ledger.changes))
  }

  /**
   An approval is accepted exactly when it answers the outstanding join; it then links the client, and else
   changes nothing.
  */
  lemma ApprovalExact(env: Env, c: ClientState, f: Frame, now: nat)
    requires f.request.JoinApproved?
    ensures var (c1, reply) := HandleFrame(env, c, f, now);
            && (reply == Accepted <==> Approves(env, c, f, now))
            && c1 == (if Approves(env, c, f, now) then Linked(c, f) else c)
  {
  }

  // ---- Rejections ----

  /** A live rejection of the outstanding join: its parent, any pinned signer, and nonces equal unless one is zero. */
  predicate Declines(env: Env, c: ClientState, f: Frame, now: nat) {
    && f.request.JoinRejected? && Live(env, f, now)
    && |f.request.rejection.child.text| <= MAX_NODE_ID_LEN && |f.request.rejection.reason| <= MAX_REASON_LEN
    && c.local.outbound.Some?
    && var join, r := c.local.outbound.value, f.request.rejection;
       && f.origin == join.parent
       && (join.pinnedOperator.Some? ==> f.controller == join.pinnedOperator.value)
       && (r.nonce == join.request.nonce || r.nonce == 0 || join.request.nonce == 0)
  }

  /** A rejection of the outstanding join drops it and is remembered with its reason; any other changes nothing. */
  lemma RejectionExact(env: Env, c: ClientState, f: Frame, now: nat)
    requires f.request.JoinRejected?
    ensures var (c1, reply) := HandleFrame(env, c, f, now);
            && (c.local.outbound.Some? ==> (reply == Accepted <==> Declines(env, c, f, now)))
            && c1 == if Declines(env, c, f, now)
                     then c.(local := LocalState(None, c.local.address, c.local.parent,
                                                 Some(Rejection("rejected", Some(f.request.rejection.reason)))))
                     else c
  {
  }

  // ---- Detaching ----

  /** A live detach notice for this client that speaks for its parent. */
  predicate Detaches(env: Env, c: ClientState, f: Frame, now: nat) {
    && f.request.DetachNotice? && Live(env, f, now)
    && |f.request.node.text| <= MAX_NODE_ID_LEN && f.request.node == env.self
    && c.local.parent.Some? && SpeaksFor(env, f, c.local.parent.value.node)
  }

  /** The client without its link: no address, no outstanding join, no routing pin, balance, orders or cache. */
  function Unlinked(c: ClientState, guard: Guard): ClientState {
    ClientState(
      LocalState(None, None, None, c.local.lastRejection), guard, None,
      LedgerState(None, Unconfirmed, None, c.ledger.activity, [], c.ledger.settlements,
                  c.ledger.pins, c.ledger.changes))
  }

  /**
   A detach notice ends the link of a joined client exactly when it is live, for this
   client, and speaks for the parent; it is then accepted, and otherwise refused
   without a change. An unjoined client accepts any live notice for it and stays as it is.
   */
  lemma DetachExact(env: Env, c: ClientState, f: Frame, now: nat)
    requires f.request.DetachNotice?
    ensures var (c1, reply) := HandleFrame(env, c, f, now);
            && c1 == (if Detaches(env, c, f, now) then Unlinked(c, Guard(None, 0)) else c)
            && (c.local.parent.Some? ==> (reply == Accepted <==> Detaches(env, c, f, now)))
            && (c.local.parent.None? ==>
                  (reply == Accepted <==> Live(env, f, now) && |f.request.node.text| <= MAX_NODE_ID_LEN
                                          && f.request.node == env.self))
  {
  }

  /**
   Leaving ends the link of an attached client and keeps the rebase guard; without a link or address it
   does nothing.
  */
  lemma LeaveExact(env: Env, c: ClientState)
    ensures ApplyStep(env, c, LeaveDone)
         == if c.local.parent.Some? || c.local.address.Some? then Unlinked(c, c.guard) else c
  {
  }

  // ---- Rebases and queries ----

  /**
   A rebase notice is accepted exactly when it is admissible and either not newer than
   the mark and harmless, being stale or naming the current address, or newer.
   */
  lemma RebaseAnswer(env: Env, c: ClientState, f: Frame, now: nat)
    requires f.request.Rebase?
    ensures HandleFrame(env, c, f, now).1 == Accepted <==>
            && c.local.parent.Some?
            && RebaseOrder.Admissible(env, c.local.parent.value, RebaseOrder.Arrival(f, now))
            && (f.request.notice.generation == RebaseOrder.Mark(c) ==> c.local.address == Some(f.request.notice.addr))
  {
  }

  /**
   What makes a rebase notice admissible: live, for this client, speaking for the parent, at its address
   with the own slot.
  */
  lemma AdmissibleIs(env: Env, link: Ancestors.ParentLink, f: Frame, now: nat)
    requires f.request.Rebase?
    ensures var n := f.request.notice;
            RebaseOrder.Admissible(env, link, RebaseOrder.Arrival(f, now)) <==>
            && Live(env, f, now)
            && |n.node.text| <= MAX_NODE_ID_LEN && n.generation >= 1 && n.node == env.self
            && SpeaksFor(env, f, link.node)
            && n.addr == n.parentAddr + [link.slot]
  {
  }

  /**
   A query changes nothing, and is answered with the snapshot exactly when the client's own operator asks
   as this client.
  */
  lemma QueryExact(env: Env, c: ClientState, f: Frame, now: nat)
    requires f.request.Query?
    ensures var (c1, reply) := HandleFrame(env, c, f, now);
            && c1 == c
            && (reply.SnapshotOf? <==> Live(env, f, now) && f.origin == env.self && env.operator == Some(f.controller))
            && (reply.SnapshotOf? ==> reply.local == c.local)
            && reply != Accepted
  {
  }

  /** A frame that is not live is refused and changes nothing, whatever it asks. */
  lemma DeadFramesDoNothing(env: Env, c: ClientState, f: Frame, now: nat)
    requires !Live(env, f, now)
    ensures HandleFrame(env, c, f, now).0 == c && HandleFrame(env, c, f, now).1.Rejects?
    ensures !env.supported(f.version) ==> HandleFrame(env, c, f, now).1 == Rejects(BadVersionCode)
    ensures env.supported(f.version) && f.expiry < now ==> HandleFrame(env, c, f, now).1 == Rejects(ExpiredCode)
  {
  }

  // ---- The link over a step ----

  /**
   Nothing else ends a link: a step after which the client has another parent link,
   or none, is its own leaving, an approval that answers an outstanding join, or a
   detach notice that speaks for the parent.
   */
  lemma LinkEnds(env: Env, c: ClientState, s: Step, link: Ancestors.ParentLink)
    requires c.local.parent == Some(link) && ApplyStep(env, c, s).local.parent != Some(link)
    ensures || s == LeaveDone
            || (s.Control? && Approves(env, c, s.frame, s.now))
            || (s.Control? && Detaches(env, c, s.frame, s.now) && SpeaksFor(env, s.frame, link.node))
  {
    if s.Control? { ControlLink(env, c, s.frame, s.now); }
  }

  lemma ControlLink(env: Env, c: ClientState, f: Frame, now: nat)
    ensures var c1 := HandleFrame(env, c, f, now).0;
            c1.local.parent != c.local.parent ==> Approves(env, c, f, now) || Detaches(env, c, f, now)
  {
    if f.request.JoinApproved? { ApprovalExact(env, c, f, now); }
    else if f.request.DetachNotice? { DetachExact(env, c, f, now); }
    else if f.request.JoinRejected? { RejectionExact(env, c, f, now); }
  }

  // ---- Local calls ----

  /** Beginning a join replaces whatever join was outstanding and forgets the last rejection. */
  lemma JoinBegins(env: Env, c: ClientState, request: JoinRequest, target: NodeId, pinned: Option<OpKey>, now: nat)
    ensures ApplyStep(env, c, BeginJoin(request, target, pinned, now))
         == c.(local := LocalState(Some(OutboundJoin(request, target, pinned, now)), c.local.address, c.local.parent,
                                   None))
  {
  }

  /** Both addresses hang off one leaf, or both are the root. */
  predicate ShareLeaf(a: OctAddr, b: OctAddr) {
    (|a| <= 1 && |b| <= 1) || (|a| > 1 && |b| > 1 && a[..|a| - 1] == b[..|b| - 1])
  }

  /**
   A payment is pushed exactly when the client is joined and does not pay itself: as
   an order from it to the payee, valid for an hour, with what the terminal proof is
   later checked against: the payee's address and whether payer and payee share a leaf.
   */
  lemma PaymentExact(env: Env, c: ClientState, s: Step)
    requires s.SendPayment?
    ensures var c1 := ApplyStep(env, c, s);
            if c.local.address.Some? && c.local.parent.Some? && s.to != env.self then
              && c1.ledger.pending != []
              && c1.ledger.pending[|c1.ledger.pending| - 1]
                 == Pending(Order(env.self, s.to, s.amount, s.nonce, s.now + 3600), s.auth, s.now, Some(s.payee),
                            ShareLeaf(c.local.address.value, s.payee), None)
              && c1 == c.(ledger := c.ledger.(pending := c1.ledger.pending))
              && IsSuffix(c1.ledger.pending[..|c1.ledger.pending| - 1], c.ledger.pending)
            else c1 == c
  {
    if c.local.address.Some? && c.local.parent.Some? && s.to != env.self {
      var p := PaymentOrder(env, c.local.address.value, s.to, s.amount, s.nonce, s.now, s.auth, s.payee);
      PushedBehind(c.ledger.pending, p);
    }
  }

  lemma PushedBehind(pending: seq<Pending>, p: Pending)
    ensures var r := PushPending(NEW_LEDGER.(pending := pending), p).pending;
            r != [] && r[|r| - 1] == p && IsSuffix(r[..|r| - 1], pending)
  {
  }
}
