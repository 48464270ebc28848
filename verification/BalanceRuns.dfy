/** The balance over whole runs: the one the last accepted receipt attested, since the current link was made. */
module BalanceRuns {
  import opened Common
  import opened Ledger
  import opened Client
  import Links
  import LedgerProps
  import Provenance
  import SettlementLaws

  /** The result or receipt of the step is about something known: a receipt of its own, or a pending order. */
  predicate Known(env: Env, c: ClientState, s: Step) {
    if s.ReceiptIn? then |s.receipt.history| <= MAX_RECEIPT_HISTORY
    else if s.OrderResultIn? then PendingIndex(env.checks, c.ledger, s.order.orderHash) < |c.ledger.pending|
    else if s.SettlementV2In? || s.SettlementV3In? then
      PendingIndex(env.checks, c.ledger, s.settlement.orderHash) < |c.ledger.pending|
    else false
  }

  /** The receipt a step brings and the client accepts, for the edge from its parent. */
  function AcceptedReceipt(env: Env, c: ClientState, s: Step): Option<Receipt> {
    var r := Provenance.ReceiptOf(s);
    if c.local.parent.Some? && Known(env, c, s) && r.Some?
       && ReceiptAccepted(env.checks, c.ledger, r.value, env.self, c.local.parent.value.node)
    then r else None
  }

  /** The step makes or ends a link, or discards the ledger. */
  predicate Resets(env: Env, c: ClientState, s: Step) {
    || s.DiscardLedger?
    || (s == LeaveDone && (c.local.parent.Some? || c.local.address.Some?))
    || (s.Control? && (Links.Approves(env, c, s.frame, s.now) || Links.Detaches(env, c, s.frame, s.now)))
  }

  /** The balance of the last accepted receipt of the run, if nothing reset the ledger since. */
  function LastBalance(env: Env, steps: seq<Step>): Option<Balance> {
    if steps == [] then None
    else
      var init, s := steps[..|steps| - 1], steps[|steps| - 1];
      var c := Run(env, init);
      if Resets(env, c, s) then None
      else if AcceptedReceipt(env, c, s).Some? then SettlementLaws.OfferedBalance(AcceptedReceipt(env, c, s))
      else LastBalance(env, init)
  }

  lemma MessageBalance(env: Env, c: ClientState, s: Step)
    requires !ReceiptlessStep(s)
    ensures ApplyStep(env, c, s).ledger.balance
         == if AcceptedReceipt(env, c, s).Some? then SettlementLaws.OfferedBalance(AcceptedReceipt(env, c, s))
            else c.ledger.balance
  {
    MessageStep(env, c, s);
    if c.local.parent.Some? {
      var st, parent := c.ledger, c.local.parent.value.node;
      if s.ReceiptIn? { ReceiptBalance(env, st, s.receipt, parent); }
      else if s.OrderResultIn? { OrderBalance(env, st, s.order, parent, s.now); }
      else if s.SettlementV2In? { SettlementBalance(env, st, WithoutProof(s.settlement), parent); }
      else { SettlementBalance(env, st, s.settlement, parent); }
    }
  }

  lemma ReceiptBalance(env: Env, st: LedgerState, r: Receipt, parent: NodeId)
    ensures ApplyReceipt(env.checks, st, r, env.self, parent).0.balance
         == if |r.history| <= MAX_RECEIPT_HISTORY && ReceiptAccepted(env.checks, st, r, env.self, parent)
            then SettlementLaws.OfferedBalance(Some(r)) else st.balance
  {
    SettlementLaws.ReceiptExact(env.checks, st, r, env.self, parent);
  }

  lemma OrderBalance(env: Env, st: LedgerState, o: OrderResult, parent: NodeId, now: nat)
    ensures ApplyOrderResult(env.checks, st, o, env.self, parent, now).0.balance
         == if PendingIndex(env.checks, st, o.orderHash) < |st.pending| && o.balance.Some?
               && ReceiptAccepted(env.checks, st, o.balance.value, env.self, parent)
            then SettlementLaws.OfferedBalance(o.balance) else st.balance
  {
    SettlementLaws.OrderResultExact(env.checks, st, o, env.self, parent, now);
    LedgerProps.OfferedFrame(env.checks, st, o.balance, env.self, parent);
  }

  lemma SettlementBalance(env: Env, st: LedgerState, r: SettlementResult, parent: NodeId)
    ensures ApplySettlement(env.checks, st, r, env.self, parent).0.balance
         == if PendingIndex(env.checks, st, r.orderHash) < |st.pending| && r.balance.Some?
               && ReceiptAccepted(env.checks, st, r.balance.value, env.self, parent)
            then SettlementLaws.OfferedBalance(r.balance) else st.balance
  {
    SettlementLaws.SettlementExact(env.checks, st, r, env.self, parent);
    LedgerProps.OfferedFrame(env.checks, st, r.balance, env.self, parent);
  }

  lemma ControlBalance(env: Env, c: ClientState, f: Frame, now: nat)
    ensures HandleFrame(env, c, f, now).0.ledger.balance
         == if Links.Approves(env, c, f, now) || Links.Detaches(env, c, f, now) then None else c.ledger.balance
  {
    if f.request.JoinApproved? { Links.ApprovalExact(env, c, f, now); }
    else if f.request.DetachNotice? { Links.DetachExact(env, c, f, now); }
    else if f.request.JoinRejected? { Links.RejectionExact(env, c, f, now); }
  }

  lemma LocalBalance(env: Env, c: ClientState, s: Step)
    requires ReceiptlessStep(s) && !s.Control?
    ensures ApplyStep(env, c, s).ledger.balance == if Resets(env, c, s) then None else c.ledger.balance
  {
    if s.LeaveDone? { Links.LeaveExact(env, c); }
  }

  /** Over every run the balance is that of the last accepted receipt since the ledger was last reset. */
  lemma {:induction false} BalanceIsLastAccepted(env: Env, steps: seq<Step>)
    ensures Run(env, steps).ledger.balance == LastBalance(env, steps)
  {
    if steps != [] {
      var init, s := steps[..|steps| - 1], steps[|steps| - 1];
      BalanceIsLastAccepted(env, init);
      StepBalance(env, Run(env, init), s);
    }
  }

  lemma StepBalance(env: Env, c: ClientState, s: Step)
    ensures ApplyStep(env, c, s).ledger.balance
         == if Resets(env, c, s) then None
            else if AcceptedReceipt(env, c, s).Some? then SettlementLaws.OfferedBalance(AcceptedReceipt(env, c, s))
            else c.ledger.balance
  {
    if s.Control? { ControlBalance(env, c, s.frame, s.now); }
    else if ReceiptlessStep(s) { LocalBalance(env, c, s); }
    else { MessageBalance(env, c, s); }
  }
}
