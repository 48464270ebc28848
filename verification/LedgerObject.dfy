/**
 The mutable ledger state: every operation updates its fields in place, with the
 eviction loops, the trust-on-first-use pin and its rollback, and is proved to
 compute the function of the same name in `Ledger`.
 */
module LedgerObject {
  import opened Common
  import opened Rings
  import opened Ledger

  lemma MergeStep(ring: seq<Activity>, xs: seq<Activity>, j: nat)
    requires j < |xs|
    ensures KeepAll(ring, xs[j..], ActivityHash, MAX_ACTIVITY_ENTRIES)
         == KeepAll(KeepFirst(ring, ActivityHash, xs[j], MAX_ACTIVITY_ENTRIES), xs[j + 1..], ActivityHash,
                    MAX_ACTIVITY_ENTRIES)
  {
    assert xs[j..][1..] == xs[j + 1..];
  }

  lemma HistoryEntry(r: Receipt, i: nat)
    requires i < |r.history|
    ensures FromNotices(Notices(r))[(if r.notice.Some? then 1 else 0) + i] == FromNotice(r.history[i])
  {
  }

  class LedgerBook {
    const ck: Checks
    var pinned: Option<LedgerKey>
    var pinnedTrust: Trust
    var balance: Option<Balance>
    var activity: seq<Activity>
    var pending: seq<Pending>
    var settlements: seq<Settlement>
    var pins: seq<Pin>
    var changes: seq<KeyChange>

    function View(): LedgerState
      reads this
    {
      LedgerState(pinned, pinnedTrust, balance, activity, pending, settlements, pins, changes)
    }

    constructor (checks: Checks)
      ensures ck == checks && View() == NEW_LEDGER
    {
      ck := checks;
      pinned, pinnedTrust, balance := None, Unconfirmed, None;
      activity, pending, settlements, pins, changes := [], [], [], [], [];
    }

    method PushPending(p: Pending)
      modifies this
      ensures View() == Ledger.PushPending(old(View()), p)
    {
      pending := pending + [p];
      pending := EvictOldest(pending, MAX_PENDING_ORDERS);
    }

    method SetLeafKey(node: NodeId, key: LedgerKey, trust: Trust)
      modifies this
      ensures View() == Ledger.SetLeafKey(old(View()), node, key, trust)
    {
      var i := Position(pins, PinNode, node);
      if i < |pins| {
        pins := pins[i := pins[i].(ledger := key, trust := trust)];
        return;
      }
      pins := pins + [Pin(node, key, trust)];
      pins := EvictOldest(pins, MAX_PINNED_LEAF_KEYS);
    }

    method LeafKeyOf(node: NodeId) returns (key: Option<LedgerKey>)
      ensures key == LeafKey(View(), node)
    {
      var i := Position(pins, PinNode, node);
      key := if i < |pins| then Some(pins[i].ledger) else None;
    }

    method RecordChange(node: NodeId, held: LedgerKey, presented: LedgerKey)
      modifies this
      ensures View() == Ledger.RecordChange(old(View()), node, held, presented)
    {
      var i := Position(changes, ChangeNode, node);
      if i < |changes| {
        changes := changes[i := changes[i].(pinned := held, presented := presented)];
        return;
      }
      changes := changes + [KeyChange(node, held, presented)];
      changes := EvictOldest(changes, MAX_LEAF_KEY_CHANGES);
    }

    method ClearChanges(node: NodeId)
      modifies this
      ensures View() == Ledger.ClearChanges(old(View()), node)
    {
      changes := Retain(changes, ChangeNode, node);
    }

    method PinFromReceive(node: NodeId, key: LedgerKey) returns (outcome: PinOutcome)
      modifies this
      ensures (View(), outcome) == Ledger.PinFromReceive(old(View()), node, key)
    {
      var existing := LeafKeyOf(node);
      if existing == Some(key) {
        SetLeafKey(node, key, Confirmed);
        outcome := AlreadyPinned;
      } else if existing.Some? {
        RecordChange(node, existing.value, key);
        outcome := Conflict(KeyChange(node, existing.value, key));
      } else {
        SetLeafKey(node, key, Confirmed);
        outcome := Pinned;
      }
    }

    method AcceptLeafChange(node: NodeId) returns (adopted: Option<LedgerKey>)
      modifies this
      ensures (View(), adopted) == Ledger.AcceptLeafChange(old(View()), node)
    {
      var i := Position(changes, ChangeNode, node);
      if i == |changes| { return None; }
      var presented := changes[i].presented;
      SetLeafKey(node, presented, Confirmed);
      ClearChanges(node);
      adopted := Some(presented);
    }

    method AcceptRoutingChange(parent: NodeId) returns (adopted: Option<LedgerKey>)
      modifies this
      ensures (View(), adopted) == Ledger.AcceptRoutingChange(old(View()), parent)
    {
      var i := Position(changes, ChangeNode, parent);
      if i == |changes| { return None; }
      var presented := changes[i].presented;
      pinned := Some(presented);
      pinnedTrust := Confirmed;
      ClearChanges(parent);
      adopted := Some(presented);
    }

    method ConfirmLeaf(node: NodeId) returns (confirmed: bool)
      modifies this
      ensures (View(), confirmed) == Ledger.ConfirmLeaf(old(View()), node)
    {
      var i := Position(pins, PinNode, node);
      confirmed := i < |pins|;
      if confirmed {
        pins := pins[i := pins[i].(trust := Confirmed)];
      }
      ClearChanges(node);
    }

    method ConfirmRouting(parent: NodeId) returns (present: bool)
      modifies this
      ensures (View(), present) == Ledger.ConfirmRouting(old(View()), parent)
    {
      present := pinned.Some?;
      if present { pinnedTrust := Confirmed; }
      ClearChanges(parent);
    }

    method Rebind(key: LedgerKey)
      modifies this
      ensures View() == Ledger.Rebind(old(View()), key)
    {
      pinned := Some(key);
      pinnedTrust := Confirmed;
      balance := None;
      pending := [];
    }

    method ClearBinding()
      modifies this
      ensures View() == Ledger.ClearBinding(old(View()))
    {
      pinned := None;
      pinnedTrust := Unconfirmed;
      balance := None;
      pending := [];
    }

    method RecordActivity(a: Activity) returns (added: bool)
      modifies this
      ensures View() == Ledger.RecordActivity(old(View()), a)
      ensures added == !Holds(old(activity), ActivityHash, a.entryHash)
    {
      var i := Position(activity, ActivityHash, a.entryHash);
      if i < |activity| { return false; }
      activity := activity + [a];
      activity := EvictOldest(activity, MAX_ACTIVITY_ENTRIES);
      added := true;
    }

    method RecordSettlement(s: Settlement)
      modifies this
      ensures View() == Ledger.RecordSettlement(old(View()), s)
    {
      var i := Position(settlements, SettlementHash, s.orderHash);
      if i < |settlements| {
        settlements := settlements[i := settlements[i].(state := s.state, amount := s.amount,
                                                        counterparty := s.counterparty, entrySeq := s.entrySeq)];
        return;
      }
      settlements := settlements + [s];
      settlements := EvictOldest(settlements, MAX_SETTLEMENT_RECORDS);
    }

    /** Verify a receipt, pinning its key on first use and rolling that back on failure. */
    method VerifyReceipt(r: Receipt, self: NodeId, parent: NodeId) returns (verdict: Result<Balance, Fault>)
      modifies this
      ensures (View(), verdict) == Ledger.VerifyReceipt(ck, old(View()), r, self, parent)
    {
      if r.attestation.edgeParent != parent { return Err(WrongEdgeParent); }
      if r.attestation.edgeChild != self { return Err(WrongEdgeChild); }
      var key := r.ledger;
      if r.attestation.ledger != key || r.commitment.ledger != key || r.commitment.ledgerId != key {
        return Err(LedgerKeyMismatch);
      }
      if |r.attestation.path| > MAX_ATTESTATION_PROOF { return Err(AttestationProofTooLong); }
      if pinned.Some? {
        if pinned.value != key {
          RecordChange(parent, pinned.value, key);
          return Err(LedgerKeyMismatch);
        }
        if !ck.attests(r.attestation, r.commitment, pinned.value) { return Err(AttestationInvalid); }
        return Ok(Attested(r));
      }
      pinned := Some(key);
      pinnedTrust := Unconfirmed;
      if !ck.attests(r.attestation, r.commitment, key) {
        pinned := None;
        pinnedTrust := Unconfirmed;
        return Err(AttestationInvalid);
      }
      return Ok(Attested(r));
    }

    method ApplyReceipt(r: Receipt, self: NodeId, parent: NodeId) returns (verdict: Result<Balance, Fault>)
      modifies this
      ensures (View(), verdict) == Ledger.ApplyReceipt(ck, old(View()), r, self, parent)
    {
      if |r.history| > MAX_RECEIPT_HISTORY { return Err(HistoryTooLong); }
      verdict := VerifyReceipt(r, self, parent);
      if verdict.Err? { return; }
      MergeNotices(r);
      balance := Some(verdict.value);
    }

    /** Record the receipt's notices: the single one first, then the history in order. */
    method MergeNotices(r: Receipt)
      modifies this
      ensures View() == old(View()).(activity := KeepAll(old(activity), FromNotices(Notices(r)), ActivityHash,
                                                         MAX_ACTIVITY_ENTRIES))
    {
      ghost var st := View();
      ghost var xs := FromNotices(Notices(r));
      ghost var done := if r.notice.Some? then 1 else 0;
      if r.notice.Some? {
        MergeStep(activity, xs, 0);
        var _ := RecordActivity(FromNotice(r.notice.value));
      }
      assert xs[0..] == xs;
      for i := 0 to |r.history|
        invariant View() == st.(activity := activity)
        invariant KeepAll(activity, xs[done + i..], ActivityHash, MAX_ACTIVITY_ENTRIES)
               == KeepAll(st.activity, xs, ActivityHash, MAX_ACTIVITY_ENTRIES)
      {
        MergeStep(activity, xs, done + i);
        HistoryEntry(r, i);
        var _ := RecordActivity(FromNotice(r.history[i]));
      }
    }

    method VerifyOffered(offered: Option<Receipt>, self: NodeId, parent: NodeId)
      returns (verdict: Result<Option<Balance>, Fault>)
      modifies this
      ensures (View(), verdict) == Ledger.VerifyOffered(ck, old(View()), offered, self, parent)
    {
      if offered.None? { return Ok(None); }
      var v := VerifyReceipt(offered.value, self, parent);
      verdict := if v.Err? then Err(v.error) else Ok(Some(v.value));
    }

    method PositionOf(h: Hash) returns (i: nat)
      ensures i == PendingIndex(ck, View(), h)
    {
      i := Position(pending, PendingHash(ck), h);
    }

    method ApplyOrderResult(res: OrderResult, self: NodeId, parent: NodeId, now: nat)
      returns (app: Result<OrderApplication, Fault>)
      modifies this
      ensures (View(), app) == Ledger.ApplyOrderResult(ck, old(View()), res, self, parent, now)
    {
      var i := PositionOf(res.orderHash);
      if i == |pending| { return Err(UnknownOrder); }
      var offered := VerifyOffered(res.balance, self, parent);
      if offered.Err? { return Err(offered.error); }
      var p := pending[i];
      pending := pending[..i] + pending[i + 1..];
      if res.status != OrderRejected && res.entrySeq.Some? && res.entryHash.Some? {
        var _ := RecordActivity(OrderActivity(ck, p, res.entrySeq.value, res.entryHash.value, now));
      }
      if offered.value.Some? { balance := offered.value; }
      app := Ok(OrderApplication(res.status, res.reason, res.orderHash, p.order.amount, p.order.to, res.entrySeq,
                                 offered.value));
    }

    /** Check the terminal proof, then install its key unconfirmed, or record a conflicting one. */
    method TerminalState(p: Pending, h: Hash, proof: Option<EntryProof>, success: SettlementState)
      returns (s: SettlementState)
      modifies this
      ensures (View(), s) == Ledger.TerminalState(ck, old(View()), p, h, proof, success)
    {
      if proof.None? { return Unverified(MissingProof); }
      var pf := proof.value;
      var held := LeafKeyOf(pf.signer);
      var verdict := VerifySettlementProof(ck, View(), p, h, pf);
      if verdict.Err? {
        if pf.signerLedger.Some? && held.Some? && held.value != pf.signerLedger.value {
          RecordChange(pf.signer, held.value, pf.signerLedger.value);
        }
        return Unverified(verdict.error);
      }
      if pf.signerLedger.Some? && held.None? {
        SetLeafKey(pf.signer, pf.signerLedger.value, Unconfirmed);
      }
      s := success;
    }

    method Outcome(p: Pending, res: SettlementResult) returns (s: SettlementState, entrySeq: Option<nat>)
      modifies this
      ensures (View(), s, entrySeq) == Ledger.Outcome(ck, old(View()), p, res)
    {
      entrySeq := None;
      match res.status {
        case StatusApplied(n) =>
          s := TerminalState(p, res.orderHash, res.proof, Applied);
          if s.Applied? { entrySeq := Some(n); }
        case StatusDuplicate(n) =>
          s := TerminalState(p, res.orderHash, res.proof, Duplicate);
          if s.Duplicate? { entrySeq := Some(n); }
        case StatusPartial(at, why) => s := Partial(at);
        case StatusRejected(why) => s := Rejected(why);
        case StatusIndeterminate(why) => s := Indeterminate(why);
      }
    }

    method Resolve(i: nat, b: Option<Balance>, record: Settlement)
      requires i < |pending|
      modifies this
      ensures View() == Ledger.Resolve(old(View()), i, b, record)
    {
      pending := pending[..i] + pending[i + 1..];
      if b.Some? { balance := b; }
      RecordSettlement(record);
    }

    /** The shared path of the v2 and v3 settlement results. */
    method ApplySettlement(res: SettlementResult, self: NodeId, parent: NodeId)
      returns (app: Result<SettlementApplication, Fault>)
      modifies this
      ensures (View(), app) == Ledger.ApplySettlement(ck, old(View()), res, self, parent)
    {
      var i := PositionOf(res.orderHash);
      if i == |pending| { return Err(UnknownOrder); }
      var p := pending[i];
      var offered := VerifyOffered(res.balance, self, parent);
      if offered.Err? { return Err(offered.error); }
      var s, entrySeq := Outcome(p, res);
      Resolve(i, offered.value, Settlement(res.orderHash, s, Some(p.order.amount), Some(p.order.to), entrySeq));
      app := Ok(SettlementApplication(
        s, StatusReason(res.status), res.orderHash, p.order.amount, p.order.to, entrySeq, offered.value));
    }

    /** The v2 path: the same, with no proof to check. */
    method ApplySettlementV2(res: SettlementResult, self: NodeId, parent: NodeId)
      returns (app: Result<SettlementApplication, Fault>)
      modifies this
      ensures (View(), app) == Ledger.ApplySettlement(ck, old(View()), WithoutProof(res), self, parent)
      ensures app.Ok? ==> !app.value.state.Applied? && !app.value.state.Duplicate?
    {
      app := ApplySettlement(WithoutProof(res), self, parent);
    }
  }
}
