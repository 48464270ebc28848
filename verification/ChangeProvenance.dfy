/** Where a recorded key change comes from: what was held and what was presented, over every run. */
module ChangeProvenance {
  import opened Common
  import Rings
  import opened Ledger
  import LedgerProps
  import opened Client
  import Provenance

  /** The step presents `change.presented` for its node while the client holds `change.pinned` for it. */
  ghost predicate Presents(env: Env, c: ClientState, s: Step, change: KeyChange) {
    && change.pinned != change.presented
    && (|| (s == PinPayeeLeaf(change.node, change.presented) && LeafKey(c.ledger, change.node) == Some(change.pinned))
        || ReceiptPresents(env, c, s, change)
        || ProofPresents(c, s, change))
  }

  /** A receipt from the parent, for this edge, under a key other than the pinned one. */
  ghost predicate ReceiptPresents(env: Env, c: ClientState, s: Step, change: KeyChange) {
    && Provenance.ReceiptOf(s).Some? && IsParent(c, change.node)
    && ReceiptBound(Provenance.ReceiptOf(s).value, env.self, change.node)
    && Provenance.ReceiptOf(s).value.ledger == change.presented
    && c.ledger.pinned == Some(change.pinned)
  }

  /** A settlement proof signed for the node under a key other than its leaf pin. */
  ghost predicate ProofPresents(c: ClientState, s: Step, change: KeyChange) {
    && s.SettlementV3In? && s.settlement.proof.Some?
    && s.settlement.proof.value.signer == change.node
    && s.settlement.proof.value.signerLedger == Some(change.presented)
    && LeafKey(c.ledger, change.node) == Some(change.pinned)
  }

  lemma RecordedIsNew(st: LedgerState, node: NodeId, held: LedgerKey, presented: LedgerKey, change: KeyChange)
    requires change in RecordChange(st, node, held, presented).changes && change !in st.changes
    ensures change == KeyChange(node, held, presented)
  {
    LedgerProps.UpsertMembers(st.changes, ChangeNode, KeyChange(node, held, presented), MAX_LEAF_KEY_CHANGES, change);
  }

  lemma ReceiptChange(env: Env, st: LedgerState, r: Receipt, parent: NodeId, change: KeyChange)
    requires change in VerifyReceipt(env.checks, st, r, env.self, parent).0.changes && change !in st.changes
    ensures change.node == parent && change.pinned != change.presented
    ensures ReceiptBound(r, env.self, parent) && r.ledger == change.presented && st.pinned == Some(change.pinned)
  {
    RecordedIsNew(st, parent, st.pinned.value, r.ledger, change);
  }

  lemma OutcomeChange(env: Env, st: LedgerState, p: Pending, res: SettlementResult, change: KeyChange)
    requires change in Outcome(env.checks, st, p, res).0.changes && change !in st.changes
    ensures res.proof.Some? && res.proof.value.signer == change.node
    ensures res.proof.value.signerLedger == Some(change.presented)
    ensures LeafKey(st, change.node) == Some(change.pinned) && change.pinned != change.presented
  {
    var pf := res.proof.value;
    RecordedIsNew(st, pf.signer, LeafKey(st, pf.signer).value, pf.signerLedger.value, change);
  }

  lemma SettlementChange(env: Env, c: ClientState, s: Step, res: SettlementResult, change: KeyChange)
    requires c.local.parent.Some?
    requires (s.SettlementV2In? && res == WithoutProof(s.settlement)) || (s.SettlementV3In? && res == s.settlement)
    requires change !in c.ledger.changes
    requires change in ApplySettlement(env.checks, c.ledger, res, env.self, c.local.parent.value.node).0.changes
    ensures Presents(env, c, s, change)
  {
    var parent := c.local.parent.value.node;
    var st1 := VerifyOffered(env.checks, c.ledger, res.balance, env.self, parent).0;
    LedgerProps.OfferedFrame(env.checks, c.ledger, res.balance, env.self, parent);
    if change in st1.changes {
      ReceiptChange(env, c.ledger, res.balance.value, parent, change);
    } else {
      OutcomeChange(env, st1, c.ledger.pending[PendingIndex(env.checks, c.ledger, res.orderHash)], res, change);
    }
  }

  lemma MessageChange(env: Env, c: ClientState, s: Step, change: KeyChange)
    requires c.local.parent.Some? && change !in c.ledger.changes && !ReceiptlessStep(s)
    requires change in LedgerIn(env, c.ledger, s, c.local.parent.value.node).0.changes
    ensures Presents(env, c, s, change)
  {
    var parent := c.local.parent.value.node;
    if s.ReceiptIn? { ReceiptChange(env, c.ledger, s.receipt, parent, change); }
    else if s.SettlementV2In? { SettlementChange(env, c, s, WithoutProof(s.settlement), change); }
    else if s.SettlementV3In? { SettlementChange(env, c, s, s.settlement, change); }
    else {
      LedgerProps.OfferedFrame(env.checks, c.ledger, s.order.balance, env.self, parent);
      ReceiptChange(env, c.ledger, s.order.balance.value, parent, change);
    }
  }

  lemma CallsOnlyClear(c: ClientState, node: NodeId, change: KeyChange)
    ensures change in ConfirmPin(c, node).0.changes ==> change in c.ledger.changes
    ensures change in AcceptPinChange(c, node).0.changes ==> change in c.ledger.changes
  {
    var once := Rings.Without(c.ledger.changes, ChangeNode, node);
    Rings.WithoutElements(c.ledger.changes, ChangeNode, node);
    Rings.WithoutElements(once, ChangeNode, node);
  }

  lemma QuietChange(env: Env, c: ClientState, s: Step)
    requires ReceiptlessStep(s) && !s.PinPayeeLeaf? && !s.ConfirmPinFor? && !s.AcceptPinFor?
    ensures var st1 := ApplyStep(env, c, s).ledger; st1.changes == c.ledger.changes || st1.changes == []
  {
  }

  lemma ChangeStep(env: Env, c: ClientState, s: Step, change: KeyChange)
    requires change !in c.ledger.changes && change in ApplyStep(env, c, s).ledger.changes
    ensures Presents(env, c, s, change)
  {
    if s.PinPayeeLeaf? {
      var held := LeafKey(c.ledger, s.node);
      RecordedIsNew(c.ledger, s.node, held.value, s.key, change);
    } else if s.ConfirmPinFor? || s.AcceptPinFor? {
      CallsOnlyClear(c, s.node, change);
    } else if ReceiptlessStep(s) {
      QuietChange(env, c, s);
    } else {
      MessageStep(env, c, s);
      MessageChange(env, c, s, change);
    }
  }

  /**
   Over every run, a recorded change was recorded by a step that presented its new
   key for its node while its old key was the one held, by a receive URI, by the
   parent's receipt, or by a settlement proof; it has been recorded since.
   */
  lemma ChangesWerePresented(env: Env, steps: seq<Step>, change: KeyChange) returns (i: nat)
    requires change in Run(env, steps).ledger.changes
    ensures i < |steps|
    ensures Presents(env, Run(env, steps[..i]), steps[i], change)
    ensures forall j :: i < j <= |steps| ==> change in Run(env, steps[..j]).ledger.changes
  {
    i := Since(env, steps, (c: ClientState) => change in c.ledger.changes);
    assert change in Run(env, steps[..i + 1]).ledger.changes;
    ChangeStep(env, Run(env, steps[..i]), steps[i], change);
  }
}
