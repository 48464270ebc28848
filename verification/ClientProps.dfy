/** What holds in every state a client can reach, over every run from a fresh client. */
module ClientProps {
  import opened Common
  import opened Ledger
  import opened LedgerProps
  import opened LedgerRings
  import opened Client

  // ---- The binding invariant ----

  /** Address and parent come and go together; parent-scoped ledger state exists only while attached. */
  ghost predicate Bound(c: ClientState) {
    && (c.local.address.Some? <==> c.local.parent.Some?)
    && (c.local.parent.None? ==> c.ledger.pinned.None? && c.ledger.balance.None? && c.ledger.pending == [])
    && (c.ledger.balance.Some? ==> c.ledger.pinned.Some?)
    && PinFlagOk(c.ledger)
    && RingsOk(c.ledger)
  }

  /** What every inbound message keeps of the ledger. */
  ghost predicate LedgerBound(st: LedgerState) {
    PinFlagOk(st) && RingsOk(st) && (st.balance.Some? ==> st.pinned.Some?)
  }

  lemma LedgerInBound(env: Env, st: LedgerState, s: Step, parent: NodeId)
    requires LedgerBound(st)
    ensures LedgerBound(LedgerIn(env, st, s, parent).0)
  {
    if s.ReceiptIn? { ReceiptKeeps(env, st, s.receipt, parent); }
    else if s.OrderResultIn? { OrderKeeps(env, st, s.order, parent, s.now); }
    else if s.SettlementV2In? { SettlementKeeps(env, st, WithoutProof(s.settlement), parent); }
    else if s.SettlementV3In? { SettlementKeeps(env, st, s.settlement, parent); }
  }

  lemma ReceiptKeeps(env: Env, st: LedgerState, r: Receipt, parent: NodeId)
    requires LedgerBound(st)
    ensures LedgerBound(ApplyReceipt(env.checks, st, r, env.self, parent).0)
  {
    ApplyReceiptRings(env.checks, st, r, env.self, parent);
  }

  lemma OrderKeeps(env: Env, st: LedgerState, o: OrderResult, parent: NodeId, now: nat)
    requires LedgerBound(st)
    ensures LedgerBound(ApplyOrderResult(env.checks, st, o, env.self, parent, now).0)
  {
    OrderResultRings(env.checks, st, o, env.self, parent, now);
    OfferedBinding(env, st, o.balance, parent);
  }

  lemma SettlementKeeps(env: Env, st: LedgerState, r: SettlementResult, parent: NodeId)
    requires LedgerBound(st)
    ensures LedgerBound(ApplySettlement(env.checks, st, r, env.self, parent).0)
  {
    SettlementRings(env.checks, st, r, env.self, parent);
    SettlementBinding(env, st, r, parent);
  }

  lemma SettlementBinding(env: Env, st: LedgerState, r: SettlementResult, parent: NodeId)
    requires PinFlagOk(st) && (st.balance.Some? ==> st.pinned.Some?)
    ensures var st1 := ApplySettlement(env.checks, st, r, env.self, parent).0;
            PinFlagOk(st1) && (st1.balance.Some? ==> st1.pinned.Some?)
  {
    var i := PendingIndex(env.checks, st, r.orderHash);
    OfferedBinding(env, st, r.balance, parent);
    if i < |st.pending| {
      var st1 := VerifyOffered(env.checks, st, r.balance, env.self, parent).0;
      OutcomeFrame(env.checks, st1, st.pending[i], r);
    }
  }

  /** A verified offer leaves the routing pin in place, or puts one there. */
  lemma OfferedBinding(env: Env, st: LedgerState, offered: Option<Receipt>, parent: NodeId)
    requires PinFlagOk(st)
    ensures var (st1, v) := VerifyOffered(env.checks, st, offered, env.self, parent);
            && PinFlagOk(st1) && st1.balance == st.balance
            && (st.pinned.Some? ==> st1.pinned.Some?)
            && (v.Ok? && v.value.Some? ==> st1.pinned.Some?)
  {
    OfferedFrame(env.checks, st, offered, env.self, parent);
  }

  lemma ControlKeepsBound(env: Env, c: ClientState, f: Frame, now: nat)
    requires Bound(c)
    ensures Bound(HandleFrame(env, c, f, now).0)
  {
  }

  lemma PinCallsKeepBound(c: ClientState, node: NodeId, key: LedgerKey)
    requires Bound(c)
    ensures Bound(c.(ledger := PinFromReceive(c.ledger, node, key).0))
    ensures Bound(c.(ledger := ConfirmPin(c, node).0))
    ensures Bound(c.(ledger := AcceptPinChange(c, node).0))
  {
    PinCallRings(c.ledger, node, key);
    ConfirmKeepsBound(c, node, key);
    AcceptKeepsBound(c, node, key);
  }

  lemma ConfirmKeepsBound(c: ClientState, node: NodeId, key: LedgerKey)
    requires Bound(c)
    ensures Bound(c.(ledger := ConfirmPin(c, node).0))
  {
    PinCallRings(c.ledger, node, key);
    PinCallRings(ConfirmRouting(c.ledger, node).0, node, key);
  }

  lemma AcceptKeepsBound(c: ClientState, node: NodeId, key: LedgerKey)
    requires Bound(c)
    ensures Bound(c.(ledger := AcceptPinChange(c, node).0))
  {
    PinCallRings(c.ledger, node, key);
    PinCallRings(AcceptRoutingChange(c.ledger, node).0, node, key);
  }

  lemma StepKeepsBound(env: Env, c: ClientState, s: Step)
    requires Bound(c)
    ensures Bound(ApplyStep(env, c, s))
  {
    if s.Control? {
      ControlKeepsBound(env, c, s.frame, s.now);
    } else if s.PinPayeeLeaf? {
      PinCallsKeepBound(c, s.node, s.key);
    } else if s.ConfirmPinFor? || s.AcceptPinFor? {
      PinCallsKeepBound(c, s.node, LedgerKey(""));
    } else if ReceiptlessStep(s) {
      LocalKeepsBound(env, c, s);
    } else {
      MessageStep(env, c, s);
      if c.local.parent.Some? { LedgerInBound(env, c.ledger, s, c.local.parent.value.node); }
    }
  }

  lemma LocalKeepsBound(env: Env, c: ClientState, s: Step)
    requires Bound(c)
    requires s.BeginJoin? || s.JoinRefusedAtOnce? || s.LeaveDone? || s.WalkDone? || s.SendPayment?
        || s.DiscardLedger? || s.Reload?
    ensures Bound(ApplyStep(env, c, s))
  {
  }

  /** Every reachable client is bound. */
  lemma {:induction false} ReachableIsBound(env: Env, steps: seq<Step>)
    ensures Bound(Run(env, steps))
  {
    if steps != [] {
      ReachableIsBound(env, steps[..|steps| - 1]);
      StepKeepsBound(env, Run(env, steps[..|steps| - 1]), steps[|steps| - 1]);
    }
  }
}
