/**
 The rings over whole runs: each is what a bounded first-in-first-out map makes of
 the writes the run's steps issued since the ledger was last discarded.
 */
module RingRuns {
  import opened Common
  import opened Rings
  import opened Ledger
  import opened LedgerProps
  import opened Client

  // ---- What one step writes ----

  /** The settlement result a step applies while the client is joined. */
  function ResultOf(s: Step): Option<SettlementResult> {
    match s
    case SettlementV2In(r) => Some(WithoutProof(r))
    case SettlementV3In(r) => Some(r)
    case _ => None
  }

  /** A result that resolves an order: known, with no refused balance. */
  predicate Resolves(env: Env, c: ClientState, r: SettlementResult) {
    && c.local.parent.Some?
    && PendingIndex(env.checks, c.ledger, r.orderHash) < |c.ledger.pending|
    && VerifyOffered(env.checks, c.ledger, r.balance, env.self, c.local.parent.value.node).1.Ok?
  }

  /** The leaf pin a step writes: by the user, or the unconfirmed one of a proved settlement. */
  function PinWrite(env: Env, c: ClientState, s: Step): Option<Pin> {
    var st := c.ledger;
    match s
    case PinPayeeLeaf(node, key) =>
      if LeafKey(st, node).None? || LeafKey(st, node) == Some(key) then Some(Pin(node, key, Confirmed)) else None
    case ConfirmPinFor(node) =>
      if LeafKey(st, node).Some? then Some(Pin(node, LeafKey(st, node).value, Confirmed)) else None
    case AcceptPinFor(node) =>
      if !IsParent(c, node) && KeyChangeFor(st, node).Some?
      then Some(Pin(node, KeyChangeFor(st, node).value.presented, Confirmed)) else None
    case SettlementV2In(r) => None
    case SettlementV3In(r) =>
      if Resolves(env, c, r) && ProvedNow(env, c, r) && LeafKey(st, r.proof.value.signer).None?
      then Some(Pin(r.proof.value.signer, r.proof.value.signerLedger.value, Unconfirmed)) else None
    case _ => None
  }

  /** A success whose proof passes against the order it resolves. */
  predicate ProvedNow(env: Env, c: ClientState, r: SettlementResult)
    requires PendingIndex(env.checks, c.ledger, r.orderHash) < |c.ledger.pending|
    ensures ProvedNow(env, c, r) ==> r.proof.Some? && r.proof.value.signerLedger.Some?
  {
    && (r.status.StatusApplied? || r.status.StatusDuplicate?)
    && r.proof.Some?
    && VerifySettlementProof(env.checks, c.ledger, c.ledger.pending[PendingIndex(env.checks, c.ledger, r.orderHash)],
                             r.orderHash, r.proof.value).Ok?
  }

  /** The settlement record a step writes. */
  function SettlementWrite(env: Env, c: ClientState, s: Step): Option<Settlement> {
    var r := ResultOf(s);
    if r.None? || !Resolves(env, c, r.value) then None
    else
      var p := c.ledger.pending[PendingIndex(env.checks, c.ledger, r.value.orderHash)];
      var (_, state, n) := Outcome(env.checks, c.ledger, p, r.value);
      Some(Settlement(r.value.orderHash, state, Some(p.order.amount), Some(p.order.to), n))
  }

  /** The activity entries a step offers, in order. */
  function ActivityWrites(env: Env, c: ClientState, s: Step): seq<Activity> {
    if c.local.parent.None? then []
    else if s.ReceiptIn? then
      if ApplyReceipt(env.checks, c.ledger, s.receipt, env.self, c.local.parent.value.node).1.Ok?
      then FromNotices(Notices(s.receipt)) else []
    else if s.OrderResultIn? then
      var i := PendingIndex(env.checks, c.ledger, s.order.orderHash);
      if i < |c.ledger.pending|
         && VerifyOffered(env.checks, c.ledger, s.order.balance, env.self, c.local.parent.value.node).1.Ok?
         && s.order.status != OrderRejected && s.order.entrySeq.Some? && s.order.entryHash.Some?
      then [OrderActivity(env.checks, c.ledger.pending[i], s.order.entrySeq.value, s.order.entryHash.value, s.now)]
      else []
    else []
  }

  type ChangeEdit = Edit<KeyChange, NodeId>

  /** The change a receipt records: bound to the edge, under a key other than the pinned one. */
  function ReceiptEdits(env: Env, st: LedgerState, r: Receipt, parent: NodeId): seq<ChangeEdit> {
    if ReceiptBound(r, env.self, parent) && st.pinned.Some? && st.pinned.value != r.ledger
    then [Put(KeyChange(parent, st.pinned.value, r.ledger))] else []
  }

  function OfferedEdits(env: Env, st: LedgerState, offered: Option<Receipt>, parent: NodeId): seq<ChangeEdit> {
    if offered.Some? then ReceiptEdits(env, st, offered.value, parent) else []
  }

  /** The change a success claim records: its proof is signed under a key other than the signer's pin. */
  function ProofEdits(st: LedgerState, r: SettlementResult): seq<ChangeEdit> {
    if (r.status.StatusApplied? || r.status.StatusDuplicate?) && r.proof.Some? && r.proof.value.signerLedger.Some?
       && LeafKey(st, r.proof.value.signer).Some?
       && LeafKey(st, r.proof.value.signer) != r.proof.value.signerLedger
    then [Put(KeyChange(r.proof.value.signer, LeafKey(st, r.proof.value.signer).value,
                        r.proof.value.signerLedger.value))]
    else []
  }

  /** What the ledger message of a step writes to the recorded key changes, while joined to `parent`. */
  function MessageEdits(env: Env, st: LedgerState, s: Step, parent: NodeId): seq<ChangeEdit> {
    if s.ReceiptIn? then
      if |s.receipt.history| <= MAX_RECEIPT_HISTORY then ReceiptEdits(env, st, s.receipt, parent) else []
    else if s.OrderResultIn? then
      if PendingIndex(env.checks, st, s.order.orderHash) < |st.pending|
      then OfferedEdits(env, st, s.order.balance, parent) else []
    else if ResultOf(s).Some? && PendingIndex(env.checks, st, ResultOf(s).value.orderHash) < |st.pending| then
      var r := ResultOf(s).value;
      OfferedEdits(env, st, r.balance, parent)
      + if VerifyOffered(env.checks, st, r.balance, env.self, parent).1.Ok? then ProofEdits(st, r) else []
    else []
  }

  /** What a step writes to the recorded key changes: conflicts are put, decisions drop their node. */
  function ChangeEdits(env: Env, c: ClientState, s: Step): seq<ChangeEdit> {
    var st := c.ledger;
    if s.PinPayeeLeaf? then
      if LeafKey(st, s.node).Some? && LeafKey(st, s.node) != Some(s.key)
      then [Put(KeyChange(s.node, LeafKey(st, s.node).value, s.key))] else []
    else if s.ConfirmPinFor? then [Drop(s.node)]
    else if s.AcceptPinFor? then
      if KeyChangeFor(st, s.node).Some? then [Drop(s.node)] else []
    else if c.local.parent.Some? then MessageEdits(env, st, s, c.local.parent.value.node)
    else []
  }

  // ---- One step ----

  function Written<T, K(==)>(ring: seq<T>, key: T -> K, w: Option<T>, cap: nat): seq<T> {
    if w.Some? then Upsert(ring, key, w.value, cap) else ring
  }

  lemma NoneLeft(cs: seq<KeyChange>, node: NodeId)
    ensures !Holds(Without(cs, ChangeNode, node), ChangeNode, node)
  {
    WithoutElements(cs, ChangeNode, node);
    var rest := Without(cs, ChangeNode, node);
    assert forall i :: 0 <= i < |rest| ==> rest[i] in rest;
    FindIs(rest, ChangeNode, node, |rest|);
  }

  lemma AcceptPinWrites(env: Env, c: ClientState, node: NodeId)
    ensures AcceptPinChange(c, node).0.pins
         == Written(c.ledger.pins, PinNode, PinWrite(env, c, AcceptPinFor(node)), MAX_PINNED_LEAF_KEYS)
  {
    if IsParent(c, node) && KeyChangeFor(c.ledger, node).Some? {
      var st := AcceptRoutingChange(c.ledger, node).0;
      WithoutElements(c.ledger.changes, ChangeNode, node);
      NoneLeft(c.ledger.changes, node);
    }
  }

  lemma SettlementPinWrites(env: Env, c: ClientState, r: SettlementResult)
    requires c.local.parent.Some?
    ensures ApplySettlement(env.checks, c.ledger, r, env.self, c.local.parent.value.node).0.pins
         == Written(c.ledger.pins, PinNode, PinWrite(env, c, SettlementV3In(r)), MAX_PINNED_LEAF_KEYS)
  {
    var st := c.ledger;
    var i := PendingIndex(env.checks, st, r.orderHash);
    if Resolves(env, c, r) {
      var (st1, offered) := VerifyOffered(env.checks, st, r.balance, env.self, c.local.parent.value.node);
      OfferedFrame(env.checks, st, r.balance, env.self, c.local.parent.value.node);
      OutcomePinWrites(env, c, st1, r);
      OutcomeFrame(env.checks, st1, st.pending[i], r);
    } else {
      OfferedFrame(env.checks, st, r.balance, env.self, c.local.parent.value.node);
    }
  }

  lemma OutcomePinWrites(env: Env, c: ClientState, st1: LedgerState, r: SettlementResult)
    requires Resolves(env, c, r) && st1.pins == c.ledger.pins && st1.pending == c.ledger.pending
    ensures Outcome(env.checks, st1, c.ledger.pending[PendingIndex(env.checks, c.ledger, r.orderHash)], r).0.pins
         == Written(c.ledger.pins, PinNode, PinWrite(env, c, SettlementV3In(r)), MAX_PINNED_LEAF_KEYS)
  {
    var p := c.ledger.pending[PendingIndex(env.checks, c.ledger, r.orderHash)];
    if r.proof.Some? { SameProofVerdict(env.checks, c.ledger, st1, p, r.orderHash, r.proof.value); }
  }

  lemma OrderResultPins(env: Env, c: ClientState, o: OrderResult, now: nat, parent: NodeId)
    ensures var st1 := ApplyOrderResult(env.checks, c.ledger, o, env.self, parent, now).0;
            st1.pins == c.ledger.pins && st1.settlements == c.ledger.settlements
  {
    OfferedFrame(env.checks, c.ledger, o.balance, env.self, parent);
  }

  /** A step that is no ledger message: which of its fields the rings may see. */
  lemma QuietStep(env: Env, c: ClientState, s: Step)
    requires s.BeginJoin? || s.JoinRefusedAtOnce? || s.Control? || s.LeaveDone? || s.WalkDone? || s.SendPayment?
        || s.Reload?
    ensures var st1 := ApplyStep(env, c, s).ledger;
            st1.pins == c.ledger.pins && st1.settlements == c.ledger.settlements && st1.activity == c.ledger.activity
  {
  }

  lemma MessagePins(env: Env, c: ClientState, s: Step)
    requires !ReceiptlessStep(s) && c.local.parent.Some?
    ensures LedgerIn(env, c.ledger, s, c.local.parent.value.node).0.pins
         == Written(c.ledger.pins, PinNode, PinWrite(env, c, s), MAX_PINNED_LEAF_KEYS)
  {
    if s.SettlementV3In? { SettlementPinWrites(env, c, s.settlement); }
    else if s.SettlementV2In? { SettlementPinWrites(env, c, WithoutProof(s.settlement)); }
    else if s.OrderResultIn? { OrderResultPins(env, c, s.order, s.now, c.local.parent.value.node); }
  }

  lemma ReceivePins(env: Env, c: ClientState, node: NodeId, key: LedgerKey)
    ensures PinFromReceive(c.ledger, node, key).0.pins
         == Written(c.ledger.pins, PinNode, PinWrite(env, c, PinPayeeLeaf(node, key)), MAX_PINNED_LEAF_KEYS)
  {
  }

  lemma ConfirmPins(env: Env, c: ClientState, node: NodeId)
    ensures ConfirmPin(c, node).0.pins
         == Written(c.ledger.pins, PinNode, PinWrite(env, c, ConfirmPinFor(node)), MAX_PINNED_LEAF_KEYS)
  {
  }

  lemma StepPins(env: Env, c: ClientState, s: Step)
    requires !s.DiscardLedger?
    ensures ApplyStep(env, c, s).ledger.pins
         == Written(c.ledger.pins, PinNode, PinWrite(env, c, s), MAX_PINNED_LEAF_KEYS)
  {
    if s.PinPayeeLeaf? {
      ReceivePins(env, c, s.node, s.key);
    } else if s.ConfirmPinFor? {
      ConfirmPins(env, c, s.node);
    } else if s.AcceptPinFor? {
      AcceptPinWrites(env, c, s.node);
    } else if ReceiptlessStep(s) {
      QuietStep(env, c, s);
    } else {
      MessageStep(env, c, s);
      if c.local.parent.Some? { MessagePins(env, c, s); }
    }
  }

  lemma ResultSettlements(env: Env, c: ClientState, s: Step)
    requires ResultOf(s).Some? && c.local.parent.Some?
    ensures ApplySettlement(env.checks, c.ledger, ResultOf(s).value, env.self, c.local.parent.value.node).0.settlements
         == Written(c.ledger.settlements, SettlementHash, SettlementWrite(env, c, s), MAX_SETTLEMENT_RECORDS)
  {
    var r := ResultOf(s).value;
    var st := c.ledger;
    OfferedFrame(env.checks, st, r.balance, env.self, c.local.parent.value.node);
    if Resolves(env, c, r) {
      var st1 := VerifyOffered(env.checks, st, r.balance, env.self, c.local.parent.value.node).0;
      var p := st.pending[PendingIndex(env.checks, st, r.orderHash)];
      OutcomeFrame(env.checks, st1, p, r);
      SameOutcome(env.checks, st, st1, p, r);
    }
  }

  /** The verdict of a result does not depend on the routing pin. */
  lemma SameOutcome(ck: Checks, st: LedgerState, st1: LedgerState, p: Pending, r: SettlementResult)
    requires st1.pins == st.pins
    ensures Outcome(ck, st, p, r).1 == Outcome(ck, st1, p, r).1 && Outcome(ck, st, p, r).2 == Outcome(ck, st1, p, r).2
  {
    if r.proof.Some? { SameProofVerdict(ck, st, st1, p, r.orderHash, r.proof.value); }
  }

  lemma MessageSettlements(env: Env, c: ClientState, s: Step)
    requires !ReceiptlessStep(s) && c.local.parent.Some?
    ensures LedgerIn(env, c.ledger, s, c.local.parent.value.node).0.settlements
         == Written(c.ledger.settlements, SettlementHash, SettlementWrite(env, c, s), MAX_SETTLEMENT_RECORDS)
  {
    if ResultOf(s).Some? { ResultSettlements(env, c, s); }
    else if s.OrderResultIn? { OrderResultPins(env, c, s.order, s.now, c.local.parent.value.node); }
  }

  lemma PinCallSettlements(c: ClientState, node: NodeId, key: LedgerKey)
    ensures PinFromReceive(c.ledger, node, key).0.settlements == c.ledger.settlements
    ensures ConfirmPin(c, node).0.settlements == c.ledger.settlements
    ensures AcceptPinChange(c, node).0.settlements == c.ledger.settlements
  {
  }

  lemma StepSettlements(env: Env, c: ClientState, s: Step)
    requires !s.DiscardLedger?
    ensures ApplyStep(env, c, s).ledger.settlements
         == Written(c.ledger.settlements, SettlementHash, SettlementWrite(env, c, s), MAX_SETTLEMENT_RECORDS)
  {
    if s.PinPayeeLeaf? {
      PinCallSettlements(c, s.node, s.key);
    } else if s.ConfirmPinFor? || s.AcceptPinFor? {
      PinCallSettlements(c, s.node, LedgerKey(""));
    } else if ReceiptlessStep(s) {
      QuietStep(env, c, s);
    } else {
      MessageStep(env, c, s);
      if c.local.parent.Some? { MessageSettlements(env, c, s); }
    }
  }

  lemma SettlementActivity(env: Env, st: LedgerState, r: SettlementResult, parent: NodeId)
    ensures ApplySettlement(env.checks, st, r, env.self, parent).0.activity == st.activity
  {
    var i := PendingIndex(env.checks, st, r.orderHash);
    OfferedFrame(env.checks, st, r.balance, env.self, parent);
    if i < |st.pending| {
      var st1 := VerifyOffered(env.checks, st, r.balance, env.self, parent).0;
      OutcomeFrame(env.checks, st1, st.pending[i], r);
    }
  }

  lemma OrderActivityWrites(env: Env, c: ClientState, s: Step)
    requires s.OrderResultIn? && c.local.parent.Some?
    ensures ApplyOrderResult(env.checks, c.ledger, s.order, env.self, c.local.parent.value.node, s.now).0.activity
         == KeepAll(c.ledger.activity, ActivityWrites(env, c, s), ActivityHash, MAX_ACTIVITY_ENTRIES)
  {
    OfferedFrame(env.checks, c.ledger, s.order.balance, env.self, c.local.parent.value.node);
    var w := ActivityWrites(env, c, s);
    if w != [] {
      assert |w| == 1 && w[1..] == [];
      assert KeepAll(c.ledger.activity, w, ActivityHash, MAX_ACTIVITY_ENTRIES)
          == KeepFirst(c.ledger.activity, ActivityHash, w[0], MAX_ACTIVITY_ENTRIES);
    }
  }

  /** A receipt either offers its notices, when it is accepted, or leaves the ring alone. */
  lemma ReceiptActivity(env: Env, c: ClientState, s: Step)
    requires s.ReceiptIn? && c.local.parent.Some?
    ensures ApplyReceipt(env.checks, c.ledger, s.receipt, env.self, c.local.parent.value.node).0.activity
         == KeepAll(c.ledger.activity, ActivityWrites(env, c, s), ActivityHash, MAX_ACTIVITY_ENTRIES)
  {
    var parent := c.local.parent.value.node;
    VerifiedActivity(env, c.ledger, s.receipt, parent);
    if ApplyReceipt(env.checks, c.ledger, s.receipt, env.self, parent).1.Ok? {
      assert ActivityWrites(env, c, s) == FromNotices(Notices(s.receipt));
    } else {
      assert ActivityWrites(env, c, s) == [];
    }
  }

  lemma VerifiedActivity(env: Env, st: LedgerState, r: Receipt, parent: NodeId)
    ensures VerifyReceipt(env.checks, st, r, env.self, parent).0.activity == st.activity
  {
  }

  lemma PinCallActivity(c: ClientState, node: NodeId, key: LedgerKey)
    ensures PinFromReceive(c.ledger, node, key).0.activity == c.ledger.activity
    ensures ConfirmPin(c, node).0.activity == c.ledger.activity
    ensures AcceptPinChange(c, node).0.activity == c.ledger.activity
  {
  }

  lemma MessageActivity(env: Env, c: ClientState, s: Step)
    requires !ReceiptlessStep(s) && c.local.parent.Some?
    ensures LedgerIn(env, c.ledger, s, c.local.parent.value.node).0.activity
         == KeepAll(c.ledger.activity, ActivityWrites(env, c, s), ActivityHash, MAX_ACTIVITY_ENTRIES)
  {
    if s.ReceiptIn? { ReceiptActivity(env, c, s); }
    else if s.OrderResultIn? { OrderActivityWrites(env, c, s); }
    else { SettlementActivity(env, c.ledger, ResultOf(s).value, c.local.parent.value.node); }
  }

  lemma StepActivity(env: Env, c: ClientState, s: Step)
    requires !s.DiscardLedger?
    ensures ApplyStep(env, c, s).ledger.activity
         == KeepAll(c.ledger.activity, ActivityWrites(env, c, s), ActivityHash, MAX_ACTIVITY_ENTRIES)
  {
    if s.PinPayeeLeaf? {
      PinCallActivity(c, s.node, s.key);
    } else if s.ConfirmPinFor? || s.AcceptPinFor? {
      PinCallActivity(c, s.node, LedgerKey(""));
    } else if ReceiptlessStep(s) {
      QuietStep(env, c, s);
    } else {
      MessageStep(env, c, s);
      if c.local.parent.Some? { MessageActivity(env, c, s); }
    }
  }

  function ChangesAfter(cs: seq<KeyChange>, es: seq<ChangeEdit>): seq<KeyChange> {
    EditAll(cs, es, ChangeNode, MAX_LEAF_KEY_CHANGES)
  }

  lemma OneEdit(cs: seq<KeyChange>, e: ChangeEdit)
    ensures ChangesAfter(cs, [e]) == Edit1(cs, ChangeNode, e, MAX_LEAF_KEY_CHANGES)
  {
    var none: seq<ChangeEdit> := [];
    assert [e][..0] == none;
    assert ChangesAfter(cs, none) == cs;
  }

  lemma ReceiptChanges(env: Env, st: LedgerState, r: Receipt, parent: NodeId)
    ensures VerifyReceipt(env.checks, st, r, env.self, parent).0.changes
         == ChangesAfter(st.changes, ReceiptEdits(env, st, r, parent))
    ensures ReceiptEdits(env, st, r, parent) != [] ==> VerifyReceipt(env.checks, st, r, env.self, parent).1.Err?
  {
    var es := ReceiptEdits(env, st, r, parent);
    if es != [] { OneEdit(st.changes, es[0]); }
  }

  lemma OfferedChanges(env: Env, st: LedgerState, offered: Option<Receipt>, parent: NodeId)
    ensures var (st1, v) := VerifyOffered(env.checks, st, offered, env.self, parent);
            && st1.changes == ChangesAfter(st.changes, OfferedEdits(env, st, offered, parent))
            && (v.Ok? ==> OfferedEdits(env, st, offered, parent) == [] && st1.changes == st.changes)
  {
    if offered.Some? { ReceiptChanges(env, st, offered.value, parent); }
  }

  lemma OutcomeChanges(ck: Checks, st: LedgerState, p: Pending, r: SettlementResult)
    ensures Outcome(ck, st, p, r).0.changes == ChangesAfter(st.changes, ProofEdits(st, r))
  {
    var es := ProofEdits(st, r);
    if es != [] {
      OneEdit(st.changes, es[0]);
      MismatchFails(ck, st, p, r.orderHash, r.proof.value);
    }
  }

  /** A proof under a key other than the signer's pin never passes. */
  lemma MismatchFails(ck: Checks, st: LedgerState, p: Pending, h: Hash, proof: EntryProof)
    requires LeafKey(st, proof.signer).Some? && LeafKey(st, proof.signer) != proof.signerLedger
    ensures VerifySettlementProof(ck, st, p, h, proof).Err?
  {
  }

  /** A result whose balance is acceptable records only what its proof does. */
  lemma ResolvedChanges(env: Env, st: LedgerState, r: SettlementResult, parent: NodeId)
    requires PendingIndex(env.checks, st, r.orderHash) < |st.pending|
    requires VerifyOffered(env.checks, st, r.balance, env.self, parent).1.Ok?
    ensures ApplySettlement(env.checks, st, r, env.self, parent).0.changes
         == ChangesAfter(st.changes, ProofEdits(st, r))
  {
    var p := st.pending[PendingIndex(env.checks, st, r.orderHash)];
    var st1 := VerifyOffered(env.checks, st, r.balance, env.self, parent).0;
    OfferedChanges(env, st, r.balance, parent);
    OfferedFrame(env.checks, st, r.balance, env.self, parent);
    OutcomeChanges(env.checks, st1, p, r);
    OutcomeFrame(env.checks, st1, p, r);
    SamePinsSameEdits(st, st1, r);
  }

  lemma SamePinsSameEdits(st: LedgerState, st1: LedgerState, r: SettlementResult)
    requires st1.pins == st.pins
    ensures ProofEdits(st1, r) == ProofEdits(st, r)
  {
  }

  lemma SettlementChanges(env: Env, st: LedgerState, s: Step, parent: NodeId)
    requires ResultOf(s).Some?
    ensures ApplySettlement(env.checks, st, ResultOf(s).value, env.self, parent).0.changes
         == ChangesAfter(st.changes, MessageEdits(env, st, s, parent))
  {
    var r := ResultOf(s).value;
    if PendingIndex(env.checks, st, r.orderHash) < |st.pending| {
      OfferedChanges(env, st, r.balance, parent);
      if VerifyOffered(env.checks, st, r.balance, env.self, parent).1.Ok? {
        ResolvedChanges(env, st, r, parent);
        assert MessageEdits(env, st, s, parent) == ProofEdits(st, r);
      } else {
        assert MessageEdits(env, st, s, parent) == OfferedEdits(env, st, r.balance, parent);
      }
    }
  }

  lemma OrderChanges(env: Env, st: LedgerState, s: Step, parent: NodeId)
    requires s.OrderResultIn?
    ensures ApplyOrderResult(env.checks, st, s.order, env.self, parent, s.now).0.changes
         == ChangesAfter(st.changes, MessageEdits(env, st, s, parent))
  {
    OfferedChanges(env, st, s.order.balance, parent);
    OfferedFrame(env.checks, st, s.order.balance, env.self, parent);
  }

  /** Forgetting a node twice is forgetting it once. */
  lemma {:induction false} WithoutTwice(cs: seq<KeyChange>, node: NodeId)
    ensures Without(Without(cs, ChangeNode, node), ChangeNode, node) == Without(cs, ChangeNode, node)
  {
    if cs != [] { WithoutTwice(cs[1..], node); }
  }

  lemma ConfirmChanges(c: ClientState, node: NodeId)
    ensures ConfirmPin(c, node).0.changes == ChangesAfter(c.ledger.changes, [Drop(node)])
  {
    OneEdit(c.ledger.changes, Drop(node));
    WithoutTwice(c.ledger.changes, node);
  }

  lemma AcceptChanges(env: Env, c: ClientState, node: NodeId)
    ensures AcceptPinChange(c, node).0.changes
         == ChangesAfter(c.ledger.changes, ChangeEdits(env, c, AcceptPinFor(node)))
  {
    OneEdit(c.ledger.changes, Drop(node));
    NoneLeft(c.ledger.changes, node);
  }

  lemma QuietChanges(env: Env, c: ClientState, s: Step)
    requires s.BeginJoin? || s.JoinRefusedAtOnce? || s.Control? || s.LeaveDone? || s.WalkDone? || s.SendPayment?
        || s.Reload?
    ensures ApplyStep(env, c, s).ledger.changes == c.ledger.changes && ChangeEdits(env, c, s) == []
  {
  }

  lemma MessageChanges(env: Env, st: LedgerState, s: Step, parent: NodeId)
    requires s.ReceiptIn? || s.OrderResultIn? || s.SettlementV2In? || s.SettlementV3In?
    ensures LedgerIn(env, st, s, parent).0.changes == ChangesAfter(st.changes, MessageEdits(env, st, s, parent))
  {
    if s.ReceiptIn? { ReceiptChanges(env, st, s.receipt, parent); }
    else if s.OrderResultIn? { OrderChanges(env, st, s, parent); }
    else { SettlementChanges(env, st, s, parent); }
  }

  lemma StepChanges(env: Env, c: ClientState, s: Step)
    requires !s.DiscardLedger?
    ensures ApplyStep(env, c, s).ledger.changes == ChangesAfter(c.ledger.changes, ChangeEdits(env, c, s))
  {
    if s.PinPayeeLeaf? {
      var es := ChangeEdits(env, c, s);
      if es != [] { OneEdit(c.ledger.changes, es[0]); }
    } else if s.ConfirmPinFor? {
      ConfirmChanges(c, s.node);
    } else if s.AcceptPinFor? {
      AcceptChanges(env, c, s.node);
    } else if ReceiptlessStep(s) {
      QuietChanges(env, c, s);
    } else {
      MessageStep(env, c, s);
      if c.local.parent.Some? { MessageChanges(env, c.ledger, s, c.local.parent.value.node); }
    }
  }

  // ---- Whole runs ----

  /** The writes a run issued to each ring since the ledger was last discarded. */
  datatype Log = Log(pins: seq<Pin>, settlements: seq<Settlement>, activity: seq<Activity>, changes: seq<ChangeEdit>)

  const NEW_LOG := Log([], [], [], [])

  function Appended<T>(log: seq<T>, w: Option<T>): seq<T> {
    if w.Some? then log + [w.value] else log
  }

  function LogStep(env: Env, c: ClientState, s: Step, log: Log): Log {
    if s.DiscardLedger? then NEW_LOG
    else Log(Appended(log.pins, PinWrite(env, c, s)), Appended(log.settlements, SettlementWrite(env, c, s)),
             log.activity + ActivityWrites(env, c, s), log.changes + ChangeEdits(env, c, s))
  }

  function LogOf(env: Env, steps: seq<Step>): Log {
    if steps == [] then NEW_LOG
    else
      var init := steps[..|steps| - 1];
      LogStep(env, Run(env, init), steps[|steps| - 1], LogOf(env, init))
  }

  lemma WriteMore<T, K>(log: seq<T>, key: T -> K, w: Option<T>, cap: nat)
    ensures UpsertAll(Appended(log, w), key, cap) == Written(UpsertAll(log, key, cap), key, w, cap)
  {
    if w.Some? { assert (log + [w.value])[..|log|] == log; }
  }

  lemma {:induction false} KeepAllMore<T, K>(s: seq<T>, xs: seq<T>, ys: seq<T>, key: T -> K, cap: nat)
    ensures KeepAll(s, xs + ys, key, cap) == KeepAll(KeepAll(s, xs, key, cap), ys, key, cap)
    decreases xs
  {
    if xs == [] {
      assert xs + ys == ys;
    } else {
      assert (xs + ys)[1..] == xs[1..] + ys;
      KeepAllMore(KeepFirst(s, key, xs[0], cap), xs[1..], ys, key, cap);
    }
  }

  /** Each ring of `st` is the fold of its log. */
  ghost predicate Folded(st: LedgerState, log: Log) {
    && st.pins == UpsertAll(log.pins, PinNode, MAX_PINNED_LEAF_KEYS)
    && st.settlements == UpsertAll(log.settlements, SettlementHash, MAX_SETTLEMENT_RECORDS)
    && st.activity == KeepAll([], log.activity, ActivityHash, MAX_ACTIVITY_ENTRIES)
    && st.changes == Edited(log.changes, ChangeNode, MAX_LEAF_KEY_CHANGES)
  }

  lemma FoldStep(env: Env, c: ClientState, s: Step, log: Log)
    requires Folded(c.ledger, log)
    ensures Folded(ApplyStep(env, c, s).ledger, LogStep(env, c, s, log))
  {
    if !s.DiscardLedger? {
      StepPins(env, c, s);
      StepSettlements(env, c, s);
      StepActivity(env, c, s);
      WriteMore(log.pins, PinNode, PinWrite(env, c, s), MAX_PINNED_LEAF_KEYS);
      WriteMore(log.settlements, SettlementHash, SettlementWrite(env, c, s), MAX_SETTLEMENT_RECORDS);
      KeepAllMore([], log.activity, ActivityWrites(env, c, s), ActivityHash, MAX_ACTIVITY_ENTRIES);
      StepChanges(env, c, s);
      EditMore(log.changes, ChangeEdits(env, c, s), ChangeNode, MAX_LEAF_KEY_CHANGES);
    }
  }

  /** Over every run each ring is the fold of its log. */
  lemma {:induction false} RingsAreFolds(env: Env, steps: seq<Step>)
    ensures Folded(Run(env, steps).ledger, LogOf(env, steps))
  {
    if steps != [] {
      var init, s := steps[..|steps| - 1], steps[|steps| - 1];
      RingsAreFolds(env, init);
      FoldStep(env, Run(env, init), s, LogOf(env, init));
    }
  }

  /**
   Over every run: pins and settlement records have unique keys, are the latest
   insertions in insertion order, and each carries the latest value written under
   its key; activity entries are unique and the newest of those that were new when
   they arrived, in order.
   */
  lemma RunRingsAreFifo(env: Env, steps: seq<Step>)
    ensures var st, log := Run(env, steps).ledger, LogOf(env, steps);
            && Unique(st.pins, PinNode)
            && KeysAre(st.pins, PinNode, LastN(Insertions(log.pins, PinNode, MAX_PINNED_LEAF_KEYS),
                                               MAX_PINNED_LEAF_KEYS))
            && (forall i :: 0 <= i < |st.pins| ==> IsLatest(log.pins, PinNode, st.pins[i]))
    ensures var st, log := Run(env, steps).ledger, LogOf(env, steps);
            && Unique(st.settlements, SettlementHash)
            && KeysAre(st.settlements, SettlementHash,
                       LastN(Insertions(log.settlements, SettlementHash, MAX_SETTLEMENT_RECORDS),
                             MAX_SETTLEMENT_RECORDS))
            && (forall i :: 0 <= i < |st.settlements| ==> IsLatest(log.settlements, SettlementHash, st.settlements[i]))
    ensures var st, log := Run(env, steps).ledger, LogOf(env, steps);
            && Unique(st.activity, ActivityHash)
            && st.activity == LastN(Pushed([], log.activity, ActivityHash, MAX_ACTIVITY_ENTRIES), MAX_ACTIVITY_ENTRIES)
  {
    var log := LogOf(env, steps);
    RingsAreFolds(env, steps);
    UpsertRefinesFifoMap(log.pins, PinNode, MAX_PINNED_LEAF_KEYS);
    UpsertRefinesFifoMap(log.settlements, SettlementHash, MAX_SETTLEMENT_RECORDS);
    KeepAllShape([], log.activity, ActivityHash, MAX_ACTIVITY_ENTRIES);
    KeepAllUnique([], log.activity, ActivityHash, MAX_ACTIVITY_ENTRIES);
    var pushed := Pushed([], log.activity, ActivityHash, MAX_ACTIVITY_ENTRIES);
    assert [] + pushed == pushed;
  }

  /**
   Over every run the recorded key changes have unique nodes, are the newest of the
   conflicts not decided since, in the order they arose, and each carries the last
   pair presented for its node, which was not decided after that. None is lost while
   no more than 32 nodes have one.
   */
  lemma RunChangesAreFifo(env: Env, steps: seq<Step>)
    ensures var st, log := Run(env, steps).ledger, LogOf(env, steps).changes;
            && |st.changes| <= MAX_LEAF_KEY_CHANGES
            && Unique(st.changes, ChangeNode)
            && IsSuffix(Keys(st.changes, ChangeNode), LiveKeys(log, ChangeNode, MAX_LEAF_KEY_CHANGES))
            && AllCurrent(st.changes, log, ChangeNode)
            && (AlwaysRoom(log, ChangeNode, MAX_LEAF_KEY_CHANGES) ==>
                  Keys(st.changes, ChangeNode) == LiveKeys(log, ChangeNode, MAX_LEAF_KEY_CHANGES))
  {
    RingsAreFolds(env, steps);
    var log := LogOf(env, steps).changes;
    EditsRefineFifoMap(log, ChangeNode, MAX_LEAF_KEY_CHANGES);
    if AlwaysRoom(log, ChangeNode, MAX_LEAF_KEY_CHANGES) { RoomLosesNothing(log, ChangeNode, MAX_LEAF_KEY_CHANGES); }
  }
}
