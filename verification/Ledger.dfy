/**
 The ledger trust state as a value: what each operation of the browser client's
 ledger state makes of it. `LedgerObject` is the mutable object that is proved
 to compute these functions; the theorems are stated here and in `Client`.
 */
module Ledger {
  import opened Common
  import opened Rings

  const MAX_PENDING_ORDERS: nat := 32
  const MAX_SETTLEMENT_RECORDS: nat := 64
  const MAX_ACTIVITY_ENTRIES: nat := 200
  const MAX_PINNED_LEAF_KEYS: nat := 128
  const MAX_LEAF_KEY_CHANGES: nat := 32
  const MAX_ATTESTATION_PROOF: nat := 64
  const MAX_ENTRY_PROOF: nat := 64
  const MAX_RECEIPT_HISTORY: nat := 64

  // ---- Wire records ----

  datatype Order = Order(from: NodeId, to: NodeId, amount: nat, nonce: nat, expiry: nat)

  datatype HopRole = Ascend | Lca | Descend | Direct

  datatype Notice = Notice(
    entrySeq: nat, entryHash: Hash, paymentId: Hash, from: NodeId, to: NodeId,
    amount: nat, role: HopRole, issuedAt: nat)

  datatype Attestation = Attestation(
    edgeParent: NodeId, edgeChild: NodeId, ledger: LedgerKey, balance: nat, path: seq<Hash>)

  datatype Commitment = Commitment(
    ledgerId: LedgerKey, ledger: LedgerKey, height: nat, entryCount: nat,
    entryRoot: Hash, stateRoot: Hash, signature: string)

  datatype Receipt = Receipt(
    ledger: LedgerKey, attestation: Attestation, commitment: Commitment,
    history: seq<Notice>, notice: Option<Notice>)

  datatype PeerRole = NodePeer | UserPeer

  datatype Entry = Entry(seqNo: nat, body: string)

  datatype Inclusion = Inclusion(index: nat, treeSize: nat, path: seq<Hash>)

  datatype EntryProof = EntryProof(
    entry: Entry, signer: NodeId, signerRole: PeerRole, signerLedger: Option<LedgerKey>,
    leafAddr: OctAddr, commitment: Commitment, inclusion: Inclusion)

  datatype OrderReject =
    | Unauthorized | BadRequest | Expired | InsufficientBalance | AccountNotOpened | NotAChild | Internal

  datatype OrderStatus = OrderApplied | OrderDuplicate | OrderRejected

  /** The v1 order result. */
  datatype OrderResult = OrderResult(
    orderHash: Hash, status: OrderStatus, entrySeq: Option<nat>, entryHash: Option<Hash>,
    reason: Option<OrderReject>, balance: Option<Receipt>)

  datatype SettlementStatus =
    | StatusApplied(entrySeq: nat)
    | StatusDuplicate(entrySeq: nat)
    | StatusPartial(failedAt: NodeId, reason: OrderReject)
    | StatusRejected(reason: OrderReject)
    | StatusIndeterminate(reason: OrderReject)

  /** The v2 and v3 settlement results; a v2 result carries no proof. */
  datatype SettlementResult = SettlementResult(
    orderHash: Hash, status: SettlementStatus, balance: Option<Receipt>, proof: Option<EntryProof>)

  // ---- Client records ----

  datatype Trust = Unconfirmed | Confirmed

  datatype Balance = Balance(amount: nat, height: nat, stateRoot: Hash)

  datatype Activity = Activity(
    entrySeq: nat, entryHash: Hash, paymentId: Hash, from: NodeId, to: NodeId,
    amount: nat, role: HopRole, issuedAt: nat)

  datatype Pending = Pending(
    order: Order, auth: string, sentAt: nat, payeeAddr: Option<OctAddr>, payerLeaf: bool,
    pinnedLeaf: Option<(NodeId, LedgerKey)>)

  datatype ProofFault =
    | MissingProof | ShapeInvalid | ProofTooLong | LeafAddressMismatch | OrderHashMismatch
    | TerminalEntryShape | SignerNotNode | SignerWithoutLedger | EntrySignature
    | CommitmentKeyMismatch | EntryCountMismatch | IndexOutOfRange | EntrySeqOutOfRange
    | InclusionFailed | PinnedLeafKeyMismatch | ReceiveUriPinMismatch

  datatype SettlementState =
    | Applied
    | Duplicate
    | Partial(failedAt: NodeId)
    | Rejected(why: OrderReject)
    | Indeterminate(why: OrderReject)
    | Unverified(fault: ProofFault)

  datatype Settlement = Settlement(
    orderHash: Hash, state: SettlementState, amount: Option<nat>,
    counterparty: Option<NodeId>, entrySeq: Option<nat>)

  datatype Pin = Pin(node: NodeId, ledger: LedgerKey, trust: Trust)

  datatype KeyChange = KeyChange(node: NodeId, pinned: LedgerKey, presented: LedgerKey)

  datatype LedgerState = LedgerState(
    pinned: Option<LedgerKey>, pinnedTrust: Trust, balance: Option<Balance>,
    activity: seq<Activity>, pending: seq<Pending>, settlements: seq<Settlement>,
    pins: seq<Pin>, changes: seq<KeyChange>)

  const NEW_LEDGER := LedgerState(None, Unconfirmed, None, [], [], [], [], [])

  /** The cryptographic and Merkle checks, left uninterpreted. */
  datatype Checks = Checks(
    orderHash: Order -> Hash,
    attests: (Attestation, Commitment, LedgerKey) -> bool,
    appliedEntry: (Entry, Order, bool) -> bool,
    entrySigned: (Entry, LedgerKey) -> bool,
    entryIncluded: (Entry, Inclusion, Hash) -> bool)

  datatype Fault =
    | WrongEdgeParent | WrongEdgeChild | LedgerKeyMismatch | AttestationProofTooLong
    | AttestationInvalid | HistoryTooLong | UnknownOrder

  // ---- Ring keys ----

  function PinNode(p: Pin): NodeId { p.node }
  function ChangeNode(c: KeyChange): NodeId { c.node }
  function SettlementHash(s: Settlement): Hash { s.orderHash }
  function ActivityHash(a: Activity): Hash { a.entryHash }
  function PendingHash(ck: Checks): Pending -> Hash { (p: Pending) => ck.orderHash(p.order) }

  // ---- Rings, pins and the parent binding ----

  function PushPending(st: LedgerState, p: Pending): LedgerState {
    st.(pending := Push(st.pending, p, MAX_PENDING_ORDERS))
  }

  function LeafPin(st: LedgerState, node: NodeId): Option<Pin> {
    var i := Find(st.pins, PinNode, node);
    if i < |st.pins| then Some(st.pins[i]) else None
  }

  function LeafKey(st: LedgerState, node: NodeId): Option<LedgerKey> {
    var p := LeafPin(st, node);
    if p.Some? then Some(p.value.ledger) else None
  }

  function SetLeafKey(st: LedgerState, node: NodeId, key: LedgerKey, trust: Trust): LedgerState {
    st.(pins := Upsert(st.pins, PinNode, Pin(node, key, trust), MAX_PINNED_LEAF_KEYS))
  }

  function KeyChangeFor(st: LedgerState, node: NodeId): Option<KeyChange> {
    var i := Find(st.changes, ChangeNode, node);
    if i < |st.changes| then Some(st.changes[i]) else None
  }

  function RecordChange(st: LedgerState, node: NodeId, pinned: LedgerKey, presented: LedgerKey): LedgerState {
    st.(changes := Upsert(st.changes, ChangeNode, KeyChange(node, pinned, presented), MAX_LEAF_KEY_CHANGES))
  }

  function ClearChanges(st: LedgerState, node: NodeId): LedgerState {
    st.(changes := Without(st.changes, ChangeNode, node))
  }

  datatype PinOutcome = Pinned | AlreadyPinned | Conflict(change: KeyChange)

  /** A leaf key presented by a receive URI: confirm, install, or record a conflict. */
  function PinFromReceive(st: LedgerState, node: NodeId, key: LedgerKey): (LedgerState, PinOutcome) {
    match LeafKey(st, node)
    case None => (SetLeafKey(st, node, key, Confirmed), Pinned)
    case Some(existing) =>
      if existing == key then (SetLeafKey(st, node, key, Confirmed), AlreadyPinned)
      else (RecordChange(st, node, existing, key), Conflict(KeyChange(node, existing, key)))
  }

  function AcceptLeafChange(st: LedgerState, node: NodeId): (LedgerState, Option<LedgerKey>) {
    match KeyChangeFor(st, node)
    case None => (st, None)
    case Some(change) =>
      (ClearChanges(SetLeafKey(st, node, change.presented, Confirmed), node), Some(change.presented))
  }

  function AcceptRoutingChange(st: LedgerState, parent: NodeId): (LedgerState, Option<LedgerKey>) {
    match KeyChangeFor(st, parent)
    case None => (st, None)
    case Some(change) =>
      (ClearChanges(st.(pinned := Some(change.presented), pinnedTrust := Confirmed), parent),
       Some(change.presented))
  }

  function ConfirmLeaf(st: LedgerState, node: NodeId): (LedgerState, bool) {
    match LeafPin(st, node)
    case None => (ClearChanges(st, node), false)
    case Some(p) => (ClearChanges(SetLeafKey(st, node, p.ledger, Confirmed), node), true)
  }

  function ConfirmRouting(st: LedgerState, parent: NodeId): (LedgerState, bool) {
    (ClearChanges(if st.pinned.Some? then st.(pinnedTrust := Confirmed) else st, parent), st.pinned.Some?)
  }

  function Rebind(st: LedgerState, key: LedgerKey): LedgerState {
    st.(pinned := Some(key), pinnedTrust := Confirmed, balance := None, pending := [])
  }

  function ClearBinding(st: LedgerState): LedgerState {
    st.(pinned := None, pinnedTrust := Unconfirmed, balance := None, pending := [])
  }

  function RecordActivity(st: LedgerState, a: Activity): LedgerState {
    st.(activity := KeepFirst(st.activity, ActivityHash, a, MAX_ACTIVITY_ENTRIES))
  }

  function RecordSettlement(st: LedgerState, s: Settlement): LedgerState {
    st.(settlements := Upsert(st.settlements, SettlementHash, s, MAX_SETTLEMENT_RECORDS))
  }

  // ---- Receipts ----

  function FromNotice(n: Notice): Activity {
    Activity(n.entrySeq, n.entryHash, n.paymentId, n.from, n.to, n.amount, n.role, n.issuedAt)
  }

  function FromNotices(ns: seq<Notice>): (r: seq<Activity>)
    ensures |r| == |ns| && forall i :: 0 <= i < |ns| ==> r[i] == FromNotice(ns[i])
  {
    seq(|ns|, i requires 0 <= i < |ns| => FromNotice(ns[i]))
  }

  /** The notices of a receipt in the order they are merged: the single one first. */
  function Notices(r: Receipt): seq<Notice> {
    (if r.notice.Some? then [r.notice.value] else []) + r.history
  }

  function Attested(r: Receipt): Balance {
    Balance(r.attestation.balance, r.commitment.height, r.commitment.stateRoot)
  }

  /** The receipt names the edge from `parent` to `self` and one ledger key throughout. */
  predicate ReceiptBound(r: Receipt, self: NodeId, parent: NodeId) {
    && r.attestation.edgeParent == parent
    && r.attestation.edgeChild == self
    && r.attestation.ledger == r.ledger
    && r.commitment.ledger == r.ledger
    && r.commitment.ledgerId == r.ledger
    && |r.attestation.path| <= MAX_ATTESTATION_PROOF
  }

  /** What makes a receipt acceptable: bound to the edge, under the pinned key if there is one, attested. */
  predicate ReceiptAccepted(ck: Checks, st: LedgerState, r: Receipt, self: NodeId, parent: NodeId) {
    && ReceiptBound(r, self, parent)
    && (st.pinned.Some? ==> st.pinned.value == r.ledger)
    && ck.attests(r.attestation, r.commitment, r.ledger)
  }

  function VerifyReceipt(ck: Checks, st: LedgerState, r: Receipt, self: NodeId, parent: NodeId):
    (LedgerState, Result<Balance, Fault>)
  {
    if r.attestation.edgeParent != parent then (st, Err(WrongEdgeParent))
    else if r.attestation.edgeChild != self then (st, Err(WrongEdgeChild))
    else if r.attestation.ledger != r.ledger || r.commitment.ledger != r.ledger || r.commitment.ledgerId != r.ledger
    then (st, Err(LedgerKeyMismatch))
    else if |r.attestation.path| > MAX_ATTESTATION_PROOF then (st, Err(AttestationProofTooLong))
    else if st.pinned.Some? && st.pinned.value != r.ledger
    then (RecordChange(st, parent, st.pinned.value, r.ledger), Err(LedgerKeyMismatch))
    else if !ck.attests(r.attestation, r.commitment, r.ledger)
    then (if st.pinned.Some? then st else st.(pinnedTrust := Unconfirmed), Err(AttestationInvalid))
    else (if st.pinned.Some? then st else st.(pinned := Some(r.ledger), pinnedTrust := Unconfirmed), Ok(Attested(r)))
  }

  function ApplyReceipt(ck: Checks, st: LedgerState, r: Receipt, self: NodeId, parent: NodeId):
    (LedgerState, Result<Balance, Fault>)
  {
    if |r.history| > MAX_RECEIPT_HISTORY then (st, Err(HistoryTooLong))
    else
      var (st1, verdict) := VerifyReceipt(ck, st, r, self, parent);
      if verdict.Err? then (st1, verdict)
      else (MergeReceipt(st1, r), verdict)
  }

  function MergeReceipt(st: LedgerState, r: Receipt): LedgerState {
    st.(activity := KeepAll(st.activity, FromNotices(Notices(r)), ActivityHash, MAX_ACTIVITY_ENTRIES),
        balance := Some(Attested(r)))
  }

  /** Verify the balance that rides on a result, when there is one. */
  function VerifyOffered(ck: Checks, st: LedgerState, offered: Option<Receipt>, self: NodeId, parent: NodeId):
    (LedgerState, Result<Option<Balance>, Fault>)
  {
    if offered.None? then (st, Ok(None))
    else
      var (st1, verdict) := VerifyReceipt(ck, st, offered.value, self, parent);
      if verdict.Err? then (st1, Err(verdict.error)) else (st1, Ok(Some(verdict.value)))
  }

  function InstallBalance(st: LedgerState, b: Option<Balance>): LedgerState {
    if b.Some? then st.(balance := b) else st
  }

  // ---- Order results ----

  /** The pending order a result with hash `h` resolves: the first with that hash. */
  function PendingIndex(ck: Checks, st: LedgerState, h: Hash): (i: nat)
    ensures i <= |st.pending|
    ensures i < |st.pending| ==> ck.orderHash(st.pending[i].order) == h
    ensures forall j :: 0 <= j < i ==> ck.orderHash(st.pending[j].order) != h
  {
    var key := PendingHash(ck);
    var i := Find(st.pending, key, h);
    assert forall j :: 0 <= j < |st.pending| ==> key(st.pending[j]) == ck.orderHash(st.pending[j].order);
    i
  }

  function DropPending(st: LedgerState, i: nat): LedgerState
    requires i < |st.pending|
  {
    st.(pending := st.pending[..i] + st.pending[i + 1..])
  }

  /** What a v1 result reports to the user. */
  datatype OrderApplication = OrderApplication(
    status: OrderStatus, reason: Option<OrderReject>, orderHash: Hash, amount: nat,
    counterparty: NodeId, entrySeq: Option<nat>, balance: Option<Balance>)

  function OrderActivity(ck: Checks, p: Pending, entrySeq: nat, entryHash: Hash, now: nat): Activity {
    Activity(entrySeq, entryHash, ck.orderHash(p.order), p.order.from, p.order.to, p.order.amount, Direct, now)
  }

  function ApplyOrderResult(ck: Checks, st: LedgerState, res: OrderResult, self: NodeId, parent: NodeId, now: nat):
    (LedgerState, Result<OrderApplication, Fault>)
  {
    var i := PendingIndex(ck, st, res.orderHash);
    if i == |st.pending| then (st, Err(UnknownOrder))
    else
      var p := st.pending[i];
      var (st1, offered) := VerifyOffered(ck, st, res.balance, self, parent);
      if offered.Err? then (st1, Err(offered.error))
      else
        assert st1.pending == st.pending;
        var st2 := DropPending(st1, i);
        var st3 :=
          if res.status != OrderRejected && res.entrySeq.Some? && res.entryHash.Some?
          then RecordActivity(st2, OrderActivity(ck, p, res.entrySeq.value, res.entryHash.value, now))
          else st2;
        (InstallBalance(st3, offered.value),
         Ok(OrderApplication(res.status, res.reason, res.orderHash, p.order.amount, p.order.to, res.entrySeq,
                             offered.value)))
  }

  // ---- Settlement results ----

  function ProofShapeOk(p: EntryProof): bool {
    && |p.inclusion.path| <= MAX_ENTRY_PROOF
    && p.inclusion.index < p.inclusion.treeSize
    && p.inclusion.treeSize == p.commitment.entryCount
    && p.entry.seqNo < p.inclusion.treeSize
    && p.signerRole == NodePeer
    && p.signerLedger.Some?
  }

  /** The terminal proof check, in the order the client runs it. */
  function VerifySettlementProof(ck: Checks, st: LedgerState, p: Pending, h: Hash, proof: EntryProof):
    Result<(), ProofFault>
  {
    if !ProofShapeOk(proof) then Err(ShapeInvalid)
    else if |proof.inclusion.path| > MAX_ENTRY_PROOF then Err(ProofTooLong)
    else if p.payeeAddr.Some? && ParentAddr(p.payeeAddr.value) != Some(proof.leafAddr) then Err(LeafAddressMismatch)
    else if h != ck.orderHash(p.order) then Err(OrderHashMismatch)
    else if !ck.appliedEntry(proof.entry, p.order, p.payerLeaf) then Err(TerminalEntryShape)
    else if proof.signerRole != NodePeer then Err(SignerNotNode)
    else if proof.signerLedger.None? then Err(SignerWithoutLedger)
    else
      var key := proof.signerLedger.value;
      if !ck.entrySigned(proof.entry, key) then Err(EntrySignature)
      else if proof.commitment.ledger != key then Err(CommitmentKeyMismatch)
      else if proof.commitment.entryCount != proof.inclusion.treeSize then Err(EntryCountMismatch)
      else if proof.inclusion.index >= proof.inclusion.treeSize then Err(IndexOutOfRange)
      else if proof.entry.seqNo >= proof.inclusion.treeSize then Err(EntrySeqOutOfRange)
      else if !ck.entryIncluded(proof.entry, proof.inclusion, proof.commitment.entryRoot) then Err(InclusionFailed)
      else
        match LeafKey(st, proof.signer)
        case Some(pinned) => if pinned != key then Err(PinnedLeafKeyMismatch) else Ok(())
        case None =>
          if p.pinnedLeaf.Some? && (p.pinnedLeaf.value.0 != proof.signer || p.pinnedLeaf.value.1 != key)
          then Err(ReceiveUriPinMismatch) else Ok(())
  }

  /**
   The evidence a completed payment rests on, stated without an order of checks:
   the entry is this order's terminal hop, signed and included under the signer's
   key, at the payee's leaf, and the key agrees with what is pinned.
   */
  ghost predicate TerminalProofHolds(ck: Checks, st: LedgerState, p: Pending, h: Hash, proof: EntryProof) {
    && ck.orderHash(p.order) == h
    && ck.appliedEntry(proof.entry, p.order, p.payerLeaf)
    && (p.payeeAddr.Some? ==> IsLeafOf(proof.leafAddr, p.payeeAddr.value))
    && proof.signerRole == NodePeer
    && (exists key ::
          && proof.signerLedger == Some(key)
          && ck.entrySigned(proof.entry, key)
          && proof.commitment.ledger == key
          && PinAllows(st, p, proof.signer, key))
    && ck.entryIncluded(proof.entry, proof.inclusion, proof.commitment.entryRoot)
    && proof.entry.seqNo < proof.commitment.entryCount
    && proof.inclusion.index < proof.commitment.entryCount
    && proof.inclusion.treeSize == proof.commitment.entryCount
    && |proof.inclusion.path| <= MAX_ENTRY_PROOF
  }

  /** `leaf` is the parent address of the user address `user`. */
  ghost predicate IsLeafOf(leaf: OctAddr, user: OctAddr) {
    leaf != [] && exists slot :: user == ChildAddr(leaf, slot)
  }

  /** Every pin held for `node` names `key`; with none held, the order's own pin does if it has one. */
  ghost predicate PinAllows(st: LedgerState, p: Pending, node: NodeId, key: LedgerKey) {
    if Holds(st.pins, PinNode, node)
    then LeafKey(st, node) == Some(key)
    else p.pinnedLeaf.Some? ==> p.pinnedLeaf == Some((node, key))
  }

  /** An `Applied`/`Duplicate` outcome after its proof was checked, and the pin it may install. */
  function TerminalState(ck: Checks, st: LedgerState, p: Pending, h: Hash, proof: Option<EntryProof>,
                         success: SettlementState):
    (LedgerState, SettlementState)
  {
    if proof.None? then (st, Unverified(MissingProof))
    else
      var pf := proof.value;
      var verdict := VerifySettlementProof(ck, st, p, h, pf);
      var held := LeafKey(st, pf.signer);
      if verdict.Err? then
        (if pf.signerLedger.Some? && held.Some? && held.value != pf.signerLedger.value
         then RecordChange(st, pf.signer, held.value, pf.signerLedger.value) else st,
         Unverified(verdict.error))
      else
        (if pf.signerLedger.Some? && held.None?
         then SetLeafKey(st, pf.signer, pf.signerLedger.value, Unconfirmed) else st,
         success)
  }

  function Outcome(ck: Checks, st: LedgerState, p: Pending, res: SettlementResult):
    (LedgerState, SettlementState, Option<nat>)
  {
    match res.status
    case StatusApplied(n) =>
      var (st1, s) := TerminalState(ck, st, p, res.orderHash, res.proof, Applied);
      (st1, s, if s.Applied? then Some(n) else None)
    case StatusDuplicate(n) =>
      var (st1, s) := TerminalState(ck, st, p, res.orderHash, res.proof, Duplicate);
      (st1, s, if s.Duplicate? then Some(n) else None)
    case StatusPartial(at, why) => (st, Partial(at), None)
    case StatusRejected(why) => (st, Rejected(why), None)
    case StatusIndeterminate(why) => (st, Indeterminate(why), None)
  }

  /** Remove the resolved order, install the balance that came with it, remember the outcome. */
  function Resolve(st: LedgerState, i: nat, b: Option<Balance>, record: Settlement): LedgerState
    requires i < |st.pending|
  {
    RecordSettlement(InstallBalance(DropPending(st, i), b), record)
  }

  /** What a settlement result reports to the user; a partial payment's reason is reported but not recorded. */
  datatype SettlementApplication = SettlementApplication(
    state: SettlementState, reason: Option<OrderReject>, orderHash: Hash, amount: nat, counterparty: NodeId,
    entrySeq: Option<nat>, balance: Option<Balance>)

  function StatusReason(status: SettlementStatus): Option<OrderReject> {
    match status
    case StatusApplied(_) => None
    case StatusDuplicate(_) => None
    case StatusPartial(_, reason) => Some(reason)
    case StatusRejected(reason) => Some(reason)
    case StatusIndeterminate(reason) => Some(reason)
  }

  function ApplySettlement(ck: Checks, st: LedgerState, res: SettlementResult, self: NodeId, parent: NodeId):
    (LedgerState, Result<SettlementApplication, Fault>)
  {
    var i := PendingIndex(ck, st, res.orderHash);
    if i == |st.pending| then (st, Err(UnknownOrder))
    else
      var p := st.pending[i];
      var (st1, offered) := VerifyOffered(ck, st, res.balance, self, parent);
      if offered.Err? then (st1, Err(offered.error))
      else
        var (st2, s, entrySeq) := Outcome(ck, st1, p, res);
        assert st2.pending == st.pending;
        (Resolve(st2, i, offered.value, Settlement(res.orderHash, s, Some(p.order.amount), Some(p.order.to), entrySeq)),
         Ok(SettlementApplication(
           s, StatusReason(res.status), res.orderHash, p.order.amount, p.order.to, entrySeq, offered.value)))
  }

  /** A v2 result carries no proof. */
  function WithoutProof(res: SettlementResult): SettlementResult {
    res.(proof := None)
  }
}
