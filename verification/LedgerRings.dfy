/** The shape every reachable ledger state keeps: bounded rings, unique keys, real key changes. */
module LedgerRings {
  import opened Common
  import opened Rings
  import opened Ledger

  /** The length gates an exported state passes when it is imported again. */
  predicate ImportAccepted(st: LedgerState) {
    && |st.pending| <= MAX_PENDING_ORDERS
    && |st.activity| <= MAX_ACTIVITY_ENTRIES
    && |st.settlements| <= MAX_SETTLEMENT_RECORDS
    && |st.pins| <= MAX_PINNED_LEAF_KEYS
    && |st.changes| <= MAX_LEAF_KEY_CHANGES
  }

  ghost predicate RealChanges(cs: seq<KeyChange>) {
    forall i :: 0 <= i < |cs| ==> cs[i].pinned != cs[i].presented
  }

  ghost predicate RingsOk(st: LedgerState) {
    && ImportAccepted(st)
    && Unique(st.pins, PinNode)
    && Unique(st.changes, ChangeNode)
    && Unique(st.settlements, SettlementHash)
    && Unique(st.activity, ActivityHash)
    && RealChanges(st.changes)
  }

  lemma UpsertBounded<T, K>(s: seq<T>, key: T -> K, x: T, cap: nat)
    requires |s| <= cap
    ensures |Upsert(s, key, x, cap)| <= cap
  {
  }

  lemma SetLeafKeyRings(st: LedgerState, node: NodeId, key: LedgerKey, trust: Trust)
    requires RingsOk(st)
    ensures RingsOk(SetLeafKey(st, node, key, trust))
  {
    UpsertUnique(st.pins, PinNode, Pin(node, key, trust), MAX_PINNED_LEAF_KEYS);
    UpsertBounded(st.pins, PinNode, Pin(node, key, trust), MAX_PINNED_LEAF_KEYS);
  }

  lemma RecordChangeRings(st: LedgerState, node: NodeId, held: LedgerKey, presented: LedgerKey)
    requires RingsOk(st) && held != presented
    ensures RingsOk(RecordChange(st, node, held, presented))
  {
    UpsertUnique(st.changes, ChangeNode, KeyChange(node, held, presented), MAX_LEAF_KEY_CHANGES);
    UpsertBounded(st.changes, ChangeNode, KeyChange(node, held, presented), MAX_LEAF_KEY_CHANGES);
  }

  lemma ClearChangesRings(st: LedgerState, node: NodeId)
    requires RingsOk(st)
    ensures RingsOk(ClearChanges(st, node))
  {
    WithoutUnique(st.changes, ChangeNode, node);
    WithoutElements(st.changes, ChangeNode, node);
    var cs := Without(st.changes, ChangeNode, node);
    forall i | 0 <= i < |cs| ensures cs[i].pinned != cs[i].presented {
      var x := cs[i];
      assert x in st.changes;
    }
  }

  lemma PinCallRings(st: LedgerState, node: NodeId, key: LedgerKey)
    requires RingsOk(st)
    ensures RingsOk(PinFromReceive(st, node, key).0)
    ensures RingsOk(ConfirmLeaf(st, node).0)
    ensures RingsOk(ConfirmRouting(st, node).0)
    ensures RingsOk(AcceptLeafChange(st, node).0)
    ensures RingsOk(AcceptRoutingChange(st, node).0)
  {
    ReceiveRings(st, node, key);
    ConfirmRings(st, node);
    AcceptRings(st, node);
  }

  lemma ReceiveRings(st: LedgerState, node: NodeId, key: LedgerKey)
    requires RingsOk(st)
    ensures RingsOk(PinFromReceive(st, node, key).0)
  {
    SetLeafKeyRings(st, node, key, Confirmed);
    var held := LeafKey(st, node);
    if held.Some? && held.value != key { RecordChangeRings(st, node, held.value, key); }
  }

  lemma ConfirmRings(st: LedgerState, node: NodeId)
    requires RingsOk(st)
    ensures RingsOk(ConfirmLeaf(st, node).0)
    ensures RingsOk(ConfirmRouting(st, node).0)
  {
    var held := LeafKey(st, node);
    if held.Some? {
      SetLeafKeyRings(st, node, held.value, Confirmed);
      ClearChangesRings(SetLeafKey(st, node, held.value, Confirmed), node);
    }
    ClearChangesRings(st, node);
    ClearChangesRings(st.(pinnedTrust := Confirmed), node);
  }

  lemma AcceptRings(st: LedgerState, node: NodeId)
    requires RingsOk(st)
    ensures RingsOk(AcceptLeafChange(st, node).0)
    ensures RingsOk(AcceptRoutingChange(st, node).0)
  {
    var change := KeyChangeFor(st, node);
    if change.Some? {
      SetLeafKeyRings(st, node, change.value.presented, Confirmed);
      ClearChangesRings(SetLeafKey(st, node, change.value.presented, Confirmed), node);
      ClearChangesRings(st.(pinned := Some(change.value.presented), pinnedTrust := Confirmed), node);
    }
  }

  lemma VerifyReceiptRings(ck: Checks, st: LedgerState, r: Receipt, self: NodeId, parent: NodeId)
    requires RingsOk(st)
    ensures RingsOk(VerifyReceipt(ck, st, r, self, parent).0)
  {
    if st.pinned.Some? && st.pinned.value != r.ledger {
      RecordChangeRings(st, parent, st.pinned.value, r.ledger);
    }
  }

  lemma ApplyReceiptRings(ck: Checks, st: LedgerState, r: Receipt, self: NodeId, parent: NodeId)
    requires RingsOk(st)
    ensures RingsOk(ApplyReceipt(ck, st, r, self, parent).0)
  {
    VerifyReceiptRings(ck, st, r, self, parent);
    var st1 := VerifyReceipt(ck, st, r, self, parent).0;
    var xs := FromNotices(Notices(r));
    KeepAllShape(st1.activity, xs, ActivityHash, MAX_ACTIVITY_ENTRIES);
    KeepAllUnique(st1.activity, xs, ActivityHash, MAX_ACTIVITY_ENTRIES);
  }

  lemma OfferedRings(ck: Checks, st: LedgerState, offered: Option<Receipt>, self: NodeId, parent: NodeId)
    requires RingsOk(st)
    ensures RingsOk(VerifyOffered(ck, st, offered, self, parent).0)
  {
    if offered.Some? { VerifyReceiptRings(ck, st, offered.value, self, parent); }
  }

  lemma OrderResultRings(ck: Checks, st: LedgerState, o: OrderResult, self: NodeId, parent: NodeId, now: nat)
    requires RingsOk(st)
    ensures RingsOk(ApplyOrderResult(ck, st, o, self, parent, now).0)
  {
    OfferedRings(ck, st, o.balance, self, parent);
    var i := PendingIndex(ck, st, o.orderHash);
    if i < |st.pending| && o.entrySeq.Some? && o.entryHash.Some? {
      var a := OrderActivity(ck, st.pending[i], o.entrySeq.value, o.entryHash.value, now);
      KeepFirstUnique(st.activity, ActivityHash, a, MAX_ACTIVITY_ENTRIES);
    }
  }

  lemma TerminalRings(ck: Checks, st: LedgerState, p: Pending, res: SettlementResult)
    requires RingsOk(st)
    ensures RingsOk(Outcome(ck, st, p, res).0)
  {
    if res.proof.Some? && res.proof.value.signerLedger.Some? {
      var pf := res.proof.value;
      SetLeafKeyRings(st, pf.signer, pf.signerLedger.value, Unconfirmed);
      var held := LeafKey(st, pf.signer);
      if held.Some? && held.value != pf.signerLedger.value {
        RecordChangeRings(st, pf.signer, held.value, pf.signerLedger.value);
      }
    }
  }

  lemma ResolveRings(st: LedgerState, i: nat, b: Option<Balance>, record: Settlement)
    requires RingsOk(st) && i < |st.pending|
    ensures RingsOk(Resolve(st, i, b, record))
  {
    UpsertUnique(st.settlements, SettlementHash, record, MAX_SETTLEMENT_RECORDS);
    UpsertBounded(st.settlements, SettlementHash, record, MAX_SETTLEMENT_RECORDS);
  }

  lemma SettlementRings(ck: Checks, st: LedgerState, res: SettlementResult, self: NodeId, parent: NodeId)
    requires RingsOk(st)
    ensures RingsOk(ApplySettlement(ck, st, res, self, parent).0)
  {
    var i := PendingIndex(ck, st, res.orderHash);
    if i < |st.pending| {
      OfferedRings(ck, st, res.balance, self, parent);
      var (st1, offered) := VerifyOffered(ck, st, res.balance, self, parent);
      if offered.Ok? {
        var p := st.pending[i];
        TerminalRings(ck, st1, p, res);
        var (st2, s, n) := Outcome(ck, st1, p, res);
        assert st2.pending == st.pending;
        ResolveRings(st2, i, offered.value, Settlement(res.orderHash, s, Some(p.order.amount), Some(p.order.to), n));
      }
    }
  }
}
