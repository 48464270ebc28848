/** What the ledger operations promise, each for every state and every message. */
module LedgerProps {
  import opened Common
  import opened Rings
  import opened Ledger

  // ---- Receipts ----

  /**
   A receipt is accepted exactly when it is bound to the edge from the expected
   parent to this client under one key, that key is the pinned one if a pin is
   held, and the attestation verifies; acceptance reports the attested balance
   and touches nothing but an absent pin, installed unconfirmed.
   */
  lemma ReceiptAcceptance(ck: Checks, st: LedgerState, r: Receipt, self: NodeId, parent: NodeId)
    ensures VerifyReceipt(ck, st, r, self, parent).1.Ok? <==> ReceiptAccepted(ck, st, r, self, parent)
    ensures var (st1, v) := VerifyReceipt(ck, st, r, self, parent);
            v.Ok? ==>
              && v.value.amount == r.attestation.balance
              && v.value.height == r.commitment.height
              && v.value.stateRoot == r.commitment.stateRoot
              && st1.pinned == Some(r.ledger)
              && (st.pinned.Some? ==> st1 == st)
              && (st.pinned.None? ==>
                    st1.pinnedTrust == Unconfirmed && st1.(pinned := None, pinnedTrust := st.pinnedTrust) == st)
  {
  }

  /** States reachable from `NEW_LEDGER` keep the trust flag of an absent pin at its default. */
  predicate PinFlagOk(st: LedgerState) {
    st.pinned.None? ==> st.pinnedTrust == Unconfirmed
  }

  /**
   Failure atomicity: a refused receipt, order result or settlement result leaves
   everything but the recorded key changes as it was, and those differ only by one
   change recorded against a held pin.
   */
  lemma RefusalChangesNothing(ck: Checks, st: LedgerState, r: Receipt, o: OrderResult, s: SettlementResult,
                              self: NodeId, parent: NodeId, now: nat)
    requires PinFlagOk(st)
    ensures var (st1, v) := ApplyReceipt(ck, st, r, self, parent); v.Err? ==> Refused(st, st1, parent)
    ensures var (st1, v) := ApplyOrderResult(ck, st, o, self, parent, now); v.Err? ==> Refused(st, st1, parent)
    ensures var (st1, v) := ApplySettlement(ck, st, s, self, parent); v.Err? ==> Refused(st, st1, parent)
  {
    RefusedReceipt(ck, st, r, self, parent);
    RefusedOrder(ck, st, o, self, parent, now);
    RefusedSettlement(ck, st, s, self, parent);
  }

  lemma RefusedOrder(ck: Checks, st: LedgerState, o: OrderResult, self: NodeId, parent: NodeId, now: nat)
    requires PinFlagOk(st)
    ensures var (st1, v) := ApplyOrderResult(ck, st, o, self, parent, now); v.Err? ==> Refused(st, st1, parent)
  {
    if o.balance.Some? { RefusedReceipt(ck, st, o.balance.value, self, parent); }
  }

  lemma RefusedSettlement(ck: Checks, st: LedgerState, s: SettlementResult, self: NodeId, parent: NodeId)
    requires PinFlagOk(st)
    ensures var (st1, v) := ApplySettlement(ck, st, s, self, parent); v.Err? ==> Refused(st, st1, parent)
  {
    if s.balance.Some? { RefusedReceipt(ck, st, s.balance.value, self, parent); }
  }

  ghost predicate Refused(st: LedgerState, st1: LedgerState, parent: NodeId) {
    st1 == st ||
    exists k :: st.pinned.Some? && k != st.pinned.value && st1 == RecordChange(st, parent, st.pinned.value, k)
  }

  lemma RefusedReceipt(ck: Checks, st: LedgerState, r: Receipt, self: NodeId, parent: NodeId)
    requires PinFlagOk(st)
    ensures var (st1, v) := VerifyReceipt(ck, st, r, self, parent); v.Err? ==> Refused(st, st1, parent)
    ensures var (st1, v) := ApplyReceipt(ck, st, r, self, parent); v.Err? ==> Refused(st, st1, parent)
  {
    if st.pinned.Some? && st.pinned.value != r.ledger {
      assert RecordChange(st, parent, st.pinned.value, r.ledger) == RecordChange(st, parent, st.pinned.value, r.ledger);
    }
  }

  /** The notices of the receipt that are new to `st`, as activity entries in the order they are merged. */
  function NewEntries(st: LedgerState, r: Receipt): seq<Activity> {
    Pushed(st.activity, FromNotices(Notices(r)), ActivityHash, MAX_ACTIVITY_ENTRIES)
  }

  /** How many of the oldest entries the new ones evict. */
  function EvictedCount(st: LedgerState, r: Receipt): nat {
    var n := |st.activity| + |NewEntries(st, r)|;
    if n > MAX_ACTIVITY_ENTRIES then n - MAX_ACTIVITY_ENTRIES else 0
  }

  /** The entries of the old ring that the new ones leave. */
  function KeptEntries(st: LedgerState, r: Receipt): seq<Activity> {
    if EvictedCount(st, r) <= |st.activity| then st.activity[EvictedCount(st, r)..] else []
  }

  /** Every notice is new, or its entry is not among the oldest that the new ones evict. */
  ghost predicate NoNoticeEvicted(st: LedgerState, r: Receipt) {
    AllInEither(KeptEntries(st, r), NewEntries(st, r), Notices(r))
  }

  ghost predicate AllInEither(a: seq<Activity>, b: seq<Activity>, ns: seq<Notice>) {
    forall i :: 0 <= i < |ns| ==> Holds(a, ActivityHash, ns[i].entryHash) || Holds(b, ActivityHash, ns[i].entryHash)
  }

  ghost predicate AllIn(ring: seq<Activity>, ns: seq<Notice>) {
    forall i :: 0 <= i < |ns| ==> Holds(ring, ActivityHash, ns[i].entryHash)
  }

  lemma AllInBoth(a: seq<Activity>, b: seq<Activity>, ns: seq<Notice>)
    ensures AllIn(a + b, ns) <==> AllInEither(a, b, ns)
  {
    forall i | 0 <= i < |ns|
      ensures Holds(a + b, ActivityHash, ns[i].entryHash)
         <==> Holds(a, ActivityHash, ns[i].entryHash) || Holds(b, ActivityHash, ns[i].entryHash)
    {
      HoldsEither(a, b, ActivityHash, ns[i].entryHash);
    }
  }

  lemma HoldsEither<T, K>(a: seq<T>, b: seq<T>, key: T -> K, k: K)
    ensures Holds(a + b, key, k) <==> Holds(a, key, k) || Holds(b, key, k)
  {
    if Holds(a, key, k) {
      assert (a + b)[Find(a, key, k)] == a[Find(a, key, k)];
      HeldBy(a + b, key, Find(a, key, k));
    } else if Holds(b, key, k) {
      assert (a + b)[|a| + Find(b, key, k)] == b[Find(b, key, k)];
      HeldBy(a + b, key, |a| + Find(b, key, k));
    }
  }

  /**
   Applying an accepted receipt twice equals applying it once exactly when none of
   its notices, already held, is among the oldest entries its new ones evict.
   */
  lemma ReceiptTwiceExactly(ck: Checks, st: LedgerState, r: Receipt, self: NodeId, parent: NodeId)
    requires ApplyReceipt(ck, st, r, self, parent).1.Ok?
    requires |st.activity| <= MAX_ACTIVITY_ENTRIES
    ensures var once := ApplyReceipt(ck, st, r, self, parent);
            ApplyReceipt(ck, once.0, r, self, parent) == once <==> NoNoticeEvicted(st, r)
  {
    ReceiptTwiceByHash(ck, st, r, self, parent);
    MergedRing(st, r);
    AllInBoth(KeptEntries(st, r), NewEntries(st, r), Notices(r));
  }

  /** The merged ring is what is left of the old one followed by what is new. */
  lemma MergedRing(st: LedgerState, r: Receipt)
    requires |st.activity| <= MAX_ACTIVITY_ENTRIES && |r.history| <= MAX_RECEIPT_HISTORY
    ensures MergeReceipt(st, r).activity == KeptEntries(st, r) + NewEntries(st, r)
  {
    KeepAllShape(st.activity, FromNotices(Notices(r)), ActivityHash, MAX_ACTIVITY_ENTRIES);
    assert |NewEntries(st, r)| <= MAX_ACTIVITY_ENTRIES;
  }

  /** The second application is the identity exactly when the first left every notice held. */
  lemma ReceiptTwiceByHash(ck: Checks, st: LedgerState, r: Receipt, self: NodeId, parent: NodeId)
    requires ApplyReceipt(ck, st, r, self, parent).1.Ok?
    requires |st.activity| <= MAX_ACTIVITY_ENTRIES
    ensures var once := ApplyReceipt(ck, st, r, self, parent).0;
            && ApplyReceipt(ck, once, r, self, parent).1 == Ok(Attested(r))
            && (ApplyReceipt(ck, once, r, self, parent).0 == once <==> AllIn(once.activity, Notices(r)))
            && once.activity == MergeReceipt(st, r).activity
  {
    ReceiptAcceptance(ck, st, r, self, parent);
    var once := ApplyReceipt(ck, st, r, self, parent).0;
    ReceiptAcceptance(ck, once, r, self, parent);
    var xs := FromNotices(Notices(r));
    KeepAllShape(st.activity, xs, ActivityHash, MAX_ACTIVITY_ENTRIES);
    KeepAllIdentity(once.activity, xs, ActivityHash, MAX_ACTIVITY_ENTRIES);
    assert forall i :: 0 <= i < |xs| ==> ActivityHash(xs[i]) == Notices(r)[i].entryHash;
    assert VerifyReceipt(ck, once, r, self, parent).0 == once;
  }

  /** A full ring whose `i`-th entry has the hash spelled by the character `i`. */
  function FullRing(): (s: seq<Activity>)
    ensures |s| == MAX_ACTIVITY_ENTRIES
    ensures forall i :: 0 <= i < |s| ==> s[i].entryHash == Hash([i as char])
  {
    seq(MAX_ACTIVITY_ENTRIES, i requires 0 <= i < MAX_ACTIVITY_ENTRIES => EntryOf(Hash([i as char])))
  }

  function EntryOf(h: Hash): Activity {
    FromNotice(NoticeOf(h))
  }

  function NoticeOf(h: Hash): Notice {
    Notice(0, h, Hash("payment"), NodeId("payer"), NodeId("payee"), 1, Direct, 0)
  }

  /** Repeats the oldest entry of the full ring and brings one that is new. */
  function EvictingReceipt(self: NodeId, parent: NodeId): Receipt {
    var key := LedgerKey("leaf");
    Receipt(key, Attestation(parent, self, key, 0, []), Commitment(key, key, 0, 0, Hash("e"), Hash("s"), ""),
            [NoticeOf(Hash([0 as char])), NoticeOf(Hash("new"))], None)
  }

  /**
   Against a full ring, a receipt that repeats its oldest entry and brings a new one is not the same
   applied twice.
  */
  lemma ReceiptTwiceCanDiffer(ck: Checks, self: NodeId, parent: NodeId)
    requires var r := EvictingReceipt(self, parent); ck.attests(r.attestation, r.commitment, r.ledger)
    ensures var once := ApplyReceipt(ck, NEW_LEDGER.(activity := FullRing()), EvictingReceipt(self, parent), self,
                                     parent);
            && once.1.Ok?
            && ApplyReceipt(ck, once.0, EvictingReceipt(self, parent), self, parent).0 != once.0
  {
    var st, r := NEW_LEDGER.(activity := FullRing()), EvictingReceipt(self, parent);
    ReceiptAcceptance(ck, st, r, self, parent);
    ReceiptTwiceExactly(ck, st, r, self, parent);
    FullRingEvictsRepeat(st, r);
  }

  lemma FullRingEvictsRepeat(st: LedgerState, r: Receipt)
    requires st.activity == FullRing()
    requires r.notice.None? && r.history == [NoticeOf(Hash([0 as char])), NoticeOf(Hash("new"))]
    ensures !NoNoticeEvicted(st, r)
  {
    var oldest, added := Hash([0 as char]), Hash("new");
    var xs := FromNotices(Notices(r));
    assert Notices(r) == r.history;
    assert xs == [EntryOf(oldest), EntryOf(added)];
    FullRingHolds(st.activity, oldest, added);
    PushedNew(st, oldest, added);
    assert NewEntries(st, r) == [EntryOf(added)];
    FindIs([EntryOf(added)], ActivityHash, oldest, 1);
    assert KeptEntries(st, r) == st.activity[1..];
    assert Notices(r)[0].entryHash == oldest;
  }

  lemma FullRingHolds(ring: seq<Activity>, oldest: Hash, added: Hash)
    requires ring == FullRing() && oldest == Hash([0 as char]) && added == Hash("new")
    ensures Holds(ring, ActivityHash, oldest) && !Holds(ring, ActivityHash, added)
    ensures !Holds(ring[1..], ActivityHash, oldest)
  {
    FindIs(ring, ActivityHash, oldest, 0);
    FindIs(ring, ActivityHash, added, |ring|);
    FindIs(ring[1..], ActivityHash, oldest, |ring| - 1);
  }

  lemma PushedNew(st: LedgerState, held: Hash, added: Hash)
    requires Holds(st.activity, ActivityHash, held) && !Holds(st.activity, ActivityHash, added)
    ensures Pushed(st.activity, [EntryOf(held), EntryOf(added)], ActivityHash, MAX_ACTIVITY_ENTRIES) == [EntryOf(added)]
  {
    assert [EntryOf(held), EntryOf(added)][1..] == [EntryOf(added)] && [EntryOf(added)][1..] == [];
  }

  /** With room for all of its notices, applying a receipt twice equals applying it once. */
  lemma ReceiptTwiceWithRoom(ck: Checks, st: LedgerState, r: Receipt, self: NodeId, parent: NodeId)
    requires |st.activity| + |Notices(r)| <= MAX_ACTIVITY_ENTRIES
    requires PinFlagOk(st)
    ensures var once := ApplyReceipt(ck, st, r, self, parent);
            once.1.Ok? ==> ApplyReceipt(ck, once.0, r, self, parent) == once
  {
    var once := ApplyReceipt(ck, st, r, self, parent);
    if once.1.Ok? {
      ReceiptTwiceByHash(ck, st, r, self, parent);
      var xs := FromNotices(Notices(r));
      forall i | 0 <= i < |Notices(r)| ensures Holds(once.0.activity, ActivityHash, Notices(r)[i].entryHash) {
        assert ActivityHash(xs[i]) == Notices(r)[i].entryHash;
        KeepAllHoldsEach(st.activity, xs, ActivityHash, MAX_ACTIVITY_ENTRIES, Notices(r)[i].entryHash);
      }
    }
  }

  // ---- Terminal proofs ----

  lemma LeafOfParent(leaf: OctAddr, user: OctAddr)
    ensures ParentAddr(user) == Some(leaf) <==> IsLeafOf(leaf, user)
  {
    if ParentAddr(user) == Some(leaf) {
      assert user == ChildAddr(leaf, user[|user| - 1]);
    }
    if slot :| user == ChildAddr(leaf, slot) {
      assert user[..|user| - 1] == leaf;
    }
  }

  /** The ordered check accepts exactly the proofs that carry the whole evidence. */
  lemma ProofCheckExact(ck: Checks, st: LedgerState, p: Pending, h: Hash, proof: EntryProof)
    ensures VerifySettlementProof(ck, st, p, h, proof).Ok? <==> TerminalProofHolds(ck, st, p, h, proof)
  {
    if p.payeeAddr.Some? { LeafOfParent(proof.leafAddr, p.payeeAddr.value); }
    if proof.signerLedger.Some? && ProofShapeOk(proof) {
      var key := proof.signerLedger.value;
      assert PinAllows(st, p, proof.signer, key) <==>
             match LeafKey(st, proof.signer)
             case Some(pinned) => pinned == key
             case None => !(p.pinnedLeaf.Some? && (p.pinnedLeaf.value.0 != proof.signer
                                                   || p.pinnedLeaf.value.1 != key));
    }
  }

  /**
   A settlement is recorded as completed only from a proof that carries the whole
   evidence against the pending order it resolves and the pins then held, and the
   record names that order's amount and payee. A result without a proof never is.
   */
  lemma CompletedMeansProved(ck: Checks, st: LedgerState, res: SettlementResult, self: NodeId, parent: NodeId,
                             rec: Settlement)
    requires rec in ApplySettlement(ck, st, res, self, parent).0.settlements && rec !in st.settlements
    requires rec.state.Applied? || rec.state.Duplicate?
    ensures CompletionWitness(ck, st, res, rec)
    ensures ApplySettlement(ck, st, res, self, parent).1.Ok?
  {
    var i := PendingIndex(ck, st, res.orderHash);
    var p := st.pending[i];
    var (st1, offered) := VerifyOffered(ck, st, res.balance, self, parent);
    OfferedFrame(ck, st, res.balance, self, parent);
    var (st2, s, n) := Outcome(ck, st1, p, res);
    OutcomeFrame(ck, st1, p, res);
    var record := Settlement(res.orderHash, s, Some(p.order.amount), Some(p.order.to), n);
    assert ApplySettlement(ck, st, res, self, parent).0.settlements
        == Upsert(st.settlements, SettlementHash, record, MAX_SETTLEMENT_RECORDS);
    UpsertMembers(st.settlements, SettlementHash, record, MAX_SETTLEMENT_RECORDS, rec);
    SameProofVerdict(ck, st, st1, p, res.orderHash, res.proof.value);
    ProofCheckExact(ck, st, p, res.orderHash, res.proof.value);
  }

  /** Verifying an offered balance leaves orders, records and leaf pins alone. */
  lemma OfferedFrame(ck: Checks, st: LedgerState, offered: Option<Receipt>, self: NodeId, parent: NodeId)
    ensures var st1 := VerifyOffered(ck, st, offered, self, parent).0;
            && st1.pins == st.pins && st1.settlements == st.settlements && st1.pending == st.pending
            && st1.activity == st.activity && st1.balance == st.balance
  {
  }

  /** Deciding an outcome leaves orders and records alone, and success needs an accepted proof. */
  lemma OutcomeFrame(ck: Checks, st: LedgerState, p: Pending, res: SettlementResult)
    ensures var (st1, s, n) := Outcome(ck, st, p, res);
            && st1.settlements == st.settlements && st1.pending == st.pending
            && st1.activity == st.activity && st1.balance == st.balance
            && st1.pinned == st.pinned && st1.pinnedTrust == st.pinnedTrust
            && (s.Applied? ==> res.status.StatusApplied?)
            && (s.Duplicate? ==> res.status.StatusDuplicate?)
            && (s.Applied? || s.Duplicate? ==>
                  res.proof.Some? && VerifySettlementProof(ck, st, p, res.orderHash, res.proof.value).Ok?)
  {
  }

  lemma SameProofVerdict(ck: Checks, st: LedgerState, st1: LedgerState, p: Pending, h: Hash, proof: EntryProof)
    requires st1.pins == st.pins
    ensures VerifySettlementProof(ck, st1, p, h, proof) == VerifySettlementProof(ck, st, p, h, proof)
  {
  }

  /**
   The result's proof holds against the pending order it resolves, the first with its hash, which the
   record names.
  */
  ghost predicate CompletionWitness(ck: Checks, st: LedgerState, res: SettlementResult, rec: Settlement) {
    && res.proof.Some?
    && rec.orderHash == res.orderHash
    && (rec.state == Applied ==> res.status.StatusApplied?)
    && (rec.state == Duplicate ==> res.status.StatusDuplicate?)
    && var i := PendingIndex(ck, st, res.orderHash);
       && i < |st.pending|
       && TerminalProofHolds(ck, st, st.pending[i], res.orderHash, res.proof.value)
       && rec.amount == Some(st.pending[i].order.amount)
       && rec.counterparty == Some(st.pending[i].order.to)
  }

  lemma UpsertMembers<T, K>(s: seq<T>, key: T -> K, x: T, cap: nat, y: T)
    requires y in Upsert(s, key, x, cap)
    ensures y == x || y in s
  {
  }

  // ---- Trust ----

  /** `pins` grew at most by one unconfirmed pin at the back, for a node that had none. */
  ghost predicate PinsGrewUnconfirmed(pins: seq<Pin>, pins': seq<Pin>) {
    pins' == pins ||
    exists node, key :: !Holds(pins, PinNode, node)
                        && pins' == Push(pins, Pin(node, key, Unconfirmed), MAX_PINNED_LEAF_KEYS)
  }

  /** The routing pin is as it was, or an absent one was installed unconfirmed. */
  predicate RoutingGrewUnconfirmed(st: LedgerState, st1: LedgerState) {
    || (st1.pinned == st.pinned && st1.pinnedTrust == st.pinnedTrust)
    || (st.pinned.None? && st1.pinned.Some? && st1.pinnedTrust == Unconfirmed)
  }

  /**
   No inbound receipt or result changes the key of a held pin or its trust: it can
   only add an unconfirmed pin where none was held, at the back, dropping the
   oldest of a full ring.
   */
  lemma InboundNeverRaisesTrust(ck: Checks, st: LedgerState, r: Receipt, o: OrderResult, s: SettlementResult,
                                self: NodeId, parent: NodeId, now: nat)
    requires PinFlagOk(st)
    ensures var st1 := ApplyReceipt(ck, st, r, self, parent).0;
            st1.pins == st.pins && RoutingGrewUnconfirmed(st, st1)
    ensures var st1 := ApplyOrderResult(ck, st, o, self, parent, now).0;
            st1.pins == st.pins && RoutingGrewUnconfirmed(st, st1)
    ensures var st1 := ApplySettlement(ck, st, s, self, parent).0;
            PinsGrewUnconfirmed(st.pins, st1.pins) && RoutingGrewUnconfirmed(st, st1)
  {
    ReceiptPins(ck, st, r, self, parent);
    OrderPins(ck, st, o, self, parent, now);
    SettlementPins(ck, st, s, self, parent);
  }

  lemma ReceiptPins(ck: Checks, st: LedgerState, r: Receipt, self: NodeId, parent: NodeId)
    requires PinFlagOk(st)
    ensures var st1 := VerifyReceipt(ck, st, r, self, parent).0;
            st1.pins == st.pins && RoutingGrewUnconfirmed(st, st1)
    ensures var st1 := ApplyReceipt(ck, st, r, self, parent).0;
            st1.pins == st.pins && RoutingGrewUnconfirmed(st, st1)
  {
  }

  lemma OrderPins(ck: Checks, st: LedgerState, o: OrderResult, self: NodeId, parent: NodeId, now: nat)
    requires PinFlagOk(st)
    ensures var st1 := ApplyOrderResult(ck, st, o, self, parent, now).0;
            st1.pins == st.pins && RoutingGrewUnconfirmed(st, st1)
  {
    if o.balance.Some? { ReceiptPins(ck, st, o.balance.value, self, parent); }
  }

  lemma SettlementPins(ck: Checks, st: LedgerState, s: SettlementResult, self: NodeId, parent: NodeId)
    requires PinFlagOk(st)
    ensures var st1 := ApplySettlement(ck, st, s, self, parent).0;
            PinsGrewUnconfirmed(st.pins, st1.pins) && RoutingGrewUnconfirmed(st, st1)
  {
    var i := PendingIndex(ck, st, s.orderHash);
    if i < |st.pending| {
      var (st1, offered) := VerifyOffered(ck, st, s.balance, self, parent);
      if s.balance.Some? { ReceiptPins(ck, st, s.balance.value, self, parent); }
      if offered.Ok? {
        OutcomePins(ck, st1, st.pending[i], s);
        OutcomeFrame(ck, st1, st.pending[i], s);
      }
    }
  }

  lemma OutcomePins(ck: Checks, st: LedgerState, p: Pending, s: SettlementResult)
    ensures PinsGrewUnconfirmed(st.pins, Outcome(ck, st, p, s).0.pins)
  {
    if s.proof.Some? && s.proof.value.signerLedger.Some? && !Holds(st.pins, PinNode, s.proof.value.signer) {
      var pin := Pin(s.proof.value.signer, s.proof.value.signerLedger.value, Unconfirmed);
      assert Upsert(st.pins, PinNode, pin, MAX_PINNED_LEAF_KEYS) == Push(st.pins, pin, MAX_PINNED_LEAF_KEYS);
    }
  }
}
