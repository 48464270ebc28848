/**
 What settlement and order results come to: exactly when a payment is reported and
 recorded as completed, under what name every other outcome is, and what becomes of
 the order, the balance and the activity.
 */
module SettlementLaws {
  import opened Common
  import opened Rings
  import opened Ledger
  import opened LedgerProps
  import PinDecisions

  /** A balance that rides on a result is acceptable; none always is. */
  predicate BalanceAcceptable(ck: Checks, st: LedgerState, offered: Option<Receipt>, self: NodeId, parent: NodeId) {
    offered.Some? ==> ReceiptAccepted(ck, st, offered.value, self, parent)
  }

  /** The balance a receipt attests, if there is one. */
  function OfferedBalance(offered: Option<Receipt>): Option<Balance> {
    if offered.None? then None
    else
      var r := offered.value;
      Some(Balance(r.attestation.balance, r.commitment.height, r.commitment.stateRoot))
  }

  function BalanceAfter(before: Option<Balance>, offered: Option<Receipt>): Option<Balance> {
    if offered.Some? then OfferedBalance(offered) else before
  }

  lemma OfferedVerdict(ck: Checks, st: LedgerState, offered: Option<Receipt>, self: NodeId, parent: NodeId)
    ensures var (_, v) := VerifyOffered(ck, st, offered, self, parent);
            && (v.Ok? <==> BalanceAcceptable(ck, st, offered, self, parent))
            && (v.Ok? ==> v.value == OfferedBalance(offered))
            && (v.Err? ==> v.error != UnknownOrder)
  {
    if offered.Some? { ReceiptAcceptance(ck, st, offered.value, self, parent); }
  }

  // ---- Settlements ----

  /** The result carries the whole evidence for the pending order it resolves. */
  ghost predicate Proved(ck: Checks, st: LedgerState, res: SettlementResult) {
    var i := PendingIndex(ck, st, res.orderHash);
    && i < |st.pending|
    && res.proof.Some?
    && TerminalProofHolds(ck, st, st.pending[i], res.orderHash, res.proof.value)
  }

  /**
   The state a result settles to: a claimed success is completed exactly when it is
   proved, and unverified otherwise; every other status keeps its name and reason.
   */
  ghost predicate SettlesTo(ck: Checks, st: LedgerState, res: SettlementResult, state: SettlementState) {
    && (state == Applied <==> res.status.StatusApplied? && Proved(ck, st, res))
    && (state == Duplicate <==> res.status.StatusDuplicate? && Proved(ck, st, res))
    && (state.Unverified? <==>
          (res.status.StatusApplied? || res.status.StatusDuplicate?) && !Proved(ck, st, res))
    && (state == Unverified(MissingProof) <==>
          (res.status.StatusApplied? || res.status.StatusDuplicate?) && res.proof.None?)
    && (forall at :: state == Partial(at) <==> res.status.StatusPartial? && res.status.failedAt == at)
    && (forall why :: state == Rejected(why) <==> res.status.StatusRejected? && res.status.reason == why)
    && (forall why :: state == Indeterminate(why) <==> res.status.StatusIndeterminate? && res.status.reason == why)
  }

  /** The entry number is reported exactly for a completed payment, as the result claims it. */
  predicate SeqReported(res: SettlementResult, state: SettlementState, seqNo: Option<nat>) {
    && (seqNo.Some? <==> state == Applied || state == Duplicate)
    && (state == Applied && res.status.StatusApplied? ==> seqNo == Some(res.status.entrySeq))
    && (state == Duplicate && res.status.StatusDuplicate? ==> seqNo == Some(res.status.entrySeq))
  }

  lemma StateSettles(ck: Checks, st: LedgerState, st1: LedgerState, res: SettlementResult)
    requires PendingIndex(ck, st, res.orderHash) < |st.pending| && st1.pins == st.pins
    ensures var (_, state, n) := Outcome(ck, st1, st.pending[PendingIndex(ck, st, res.orderHash)], res);
            SettlesTo(ck, st, res, state) && SeqReported(res, state, n)
  {
    var p := st.pending[PendingIndex(ck, st, res.orderHash)];
    if res.proof.Some? {
      SameProofVerdict(ck, st, st1, p, res.orderHash, res.proof.value);
      ProofCheckExact(ck, st, p, res.orderHash, res.proof.value);
      NeverMissing(ck, st1, p, res.orderHash, res.proof.value);
    }
  }

  /** The check of a present proof never reports it missing. */
  lemma NeverMissing(ck: Checks, st: LedgerState, p: Pending, h: Hash, proof: EntryProof)
    ensures VerifySettlementProof(ck, st, p, h, proof) != Err(MissingProof)
  {
  }

  /** The record held for an order hash. */
  function RecordOf(st: LedgerState, h: Hash): Option<Settlement> {
    var i := Find(st.settlements, SettlementHash, h);
    if i < |st.settlements| then Some(st.settlements[i]) else None
  }

  /** The report and the record of a settled result. */
  ghost predicate Settled(ck: Checks, st: LedgerState, res: SettlementResult,
                          st1: LedgerState, app: SettlementApplication)
    requires PendingIndex(ck, st, res.orderHash) < |st.pending|
  {
    var p := st.pending[PendingIndex(ck, st, res.orderHash)];
    && SettlesTo(ck, st, res, app.state) && SeqReported(res, app.state, app.entrySeq)
    && app.orderHash == res.orderHash && app.amount == p.order.amount && app.counterparty == p.order.to
    && app.balance == OfferedBalance(res.balance)
    && (res.status.StatusPartial? || res.status.StatusRejected? || res.status.StatusIndeterminate? ==>
          app.reason == Some(res.status.reason))
    && RecordOf(st1, res.orderHash)
       == Some(Settlement(res.orderHash, app.state, Some(p.order.amount), Some(p.order.to), app.entrySeq))
  }

  /**
   A settlement result is accepted exactly when its order is pending and any balance
   with it is acceptable. It is then reported and recorded: as completed exactly when
   it claims success and carries the whole evidence, and otherwise under its own name
   and reason. The order leaves the ring, and an offered balance is installed.
   */
  lemma SettlementExact(ck: Checks, st: LedgerState, res: SettlementResult, self: NodeId, parent: NodeId)
    ensures var (st1, v) := ApplySettlement(ck, st, res, self, parent);
            var i := PendingIndex(ck, st, res.orderHash);
            && (v.Ok? <==> i < |st.pending| && BalanceAcceptable(ck, st, res.balance, self, parent))
            && (v == Err(UnknownOrder) <==> i == |st.pending|)
            && (v.Ok? ==>
                  && Settled(ck, st, res, st1, v.value)
                  && st1.pending == st.pending[..i] + st.pending[i + 1..]
                  && st1.balance == BalanceAfter(st.balance, res.balance)
                  && st1.activity == st.activity)
  {
    OfferedVerdict(ck, st, res.balance, self, parent);
    OfferedFrame(ck, st, res.balance, self, parent);
    var i := PendingIndex(ck, st, res.orderHash);
    if i < |st.pending| && BalanceAcceptable(ck, st, res.balance, self, parent) {
      var st1 := VerifyOffered(ck, st, res.balance, self, parent).0;
      var (st2, state, n) := Outcome(ck, st1, st.pending[i], res);
      StateSettles(ck, st, st1, res);
      OutcomeFrame(ck, st1, st.pending[i], res);
      var p := st.pending[i];
      var record := Settlement(res.orderHash, state, Some(p.order.amount), Some(p.order.to), n);
      PinDecisions.UpsertReads(st.settlements, SettlementHash, record, MAX_SETTLEMENT_RECORDS);
    }
  }

  // ---- Order results ----

  /** The entry an applied v1 result adds for the order it resolves. */
  function ResolvedEntry(p: Pending, res: OrderResult, now: nat): Activity
    requires res.entrySeq.Some? && res.entryHash.Some?
  {
    Activity(res.entrySeq.value, res.entryHash.value, res.orderHash,
             p.order.from, p.order.to, p.order.amount, Direct, now)
  }

  /**
   A v1 order result is accepted exactly when its order is pending and any balance
   with it is acceptable. The order leaves the ring, an offered balance is installed,
   and a result that is not a rejection and names an entry adds it, with this order's
   parties and amount, unless an entry with that hash is held.
   */
  lemma OrderResultExact(ck: Checks, st: LedgerState, res: OrderResult, self: NodeId, parent: NodeId, now: nat)
    ensures var (st1, v) := ApplyOrderResult(ck, st, res, self, parent, now);
            var i := PendingIndex(ck, st, res.orderHash);
            && (v.Ok? <==> i < |st.pending| && BalanceAcceptable(ck, st, res.balance, self, parent))
            && (v == Err(UnknownOrder) <==> i == |st.pending|)
            && (v.Ok? ==>
                  var p := st.pending[i];
                  && v.value == OrderApplication(res.status, res.reason, res.orderHash, p.order.amount, p.order.to,
                                                 res.entrySeq, OfferedBalance(res.balance))
                  && st1.pending == st.pending[..i] + st.pending[i + 1..]
                  && st1.balance == BalanceAfter(st.balance, res.balance)
                  && st1.settlements == st.settlements && st1.pins == st.pins
                  && st1.activity ==
                     if res.status != OrderRejected && res.entrySeq.Some? && res.entryHash.Some?
                     then KeepFirst(st.activity, ActivityHash, ResolvedEntry(p, res, now), MAX_ACTIVITY_ENTRIES)
                     else st.activity)
  {
    OfferedVerdict(ck, st, res.balance, self, parent);
    OfferedFrame(ck, st, res.balance, self, parent);
  }

  // ---- Receipts ----

  /**
   A receipt is accepted exactly when its history is not too long and it is bound,
   agrees with a held pin and is attested. Its balance is then the client's, its
   notices are merged, an absent routing pin is set unconfirmed, and nothing else moves.
   */
  lemma ReceiptExact(ck: Checks, st: LedgerState, r: Receipt, self: NodeId, parent: NodeId)
    ensures var (st1, v) := ApplyReceipt(ck, st, r, self, parent);
            && (v.Ok? <==> |r.history| <= MAX_RECEIPT_HISTORY && ReceiptAccepted(ck, st, r, self, parent))
            && (v.Ok? ==>
                  && Some(v.value) == OfferedBalance(Some(r))
                  && st1.balance == OfferedBalance(Some(r))
                  && st1.pinned == Some(r.ledger)
                  && st1.pinnedTrust == (if st.pinned.Some? then st.pinnedTrust else Unconfirmed)
                  && (|st.activity| <= MAX_ACTIVITY_ENTRIES ==>
                        st1.activity == KeptEntries(st, r) + NewEntries(st, r))
                  && st1.pending == st.pending && st1.settlements == st.settlements
                  && st1.pins == st.pins && st1.changes == st.changes)
  {
    ReceiptAcceptance(ck, st, r, self, parent);
    if |r.history| <= MAX_RECEIPT_HISTORY && ReceiptAccepted(ck, st, r, self, parent) {
      var st1 := VerifyReceipt(ck, st, r, self, parent).0;
      assert st1.activity == st.activity;
      if |st.activity| <= MAX_ACTIVITY_ENTRIES { MergedRing(st1, r); }
    }
  }

  /** `a` shows the payment of the notice `n`, field by field. */
  predicate Shows(a: Activity, n: Notice) {
    && a.entrySeq == n.entrySeq && a.entryHash == n.entryHash && a.paymentId == n.paymentId
    && a.from == n.from && a.to == n.to && a.amount == n.amount && a.role == n.role && a.issuedAt == n.issuedAt
  }

  lemma {:induction false} PushedAreFed(s: seq<Activity>, xs: seq<Activity>, a: Activity)
    requires a in Pushed(s, xs, ActivityHash, MAX_ACTIVITY_ENTRIES)
    ensures a in xs
    decreases xs
  {
    if a != xs[0] || Holds(s, ActivityHash, ActivityHash(xs[0])) {
      PushedAreFed(KeepFirst(s, ActivityHash, xs[0], MAX_ACTIVITY_ENTRIES), xs[1..], a);
    }
  }

  /** Every new entry shows a notice of the receipt: the single one or one of its history. */
  lemma NewEntriesShowNotices(st: LedgerState, r: Receipt, a: Activity)
    requires a in NewEntries(st, r)
    ensures (r.notice.Some? && Shows(a, r.notice.value))
         || exists i :: 0 <= i < |r.history| && Shows(a, r.history[i])
  {
    PushedAreFed(st.activity, FromNotices(Notices(r)), a);
    var j :| 0 <= j < |Notices(r)| && FromNotices(Notices(r))[j] == a;
    assert Shows(a, Notices(r)[j]);
    if r.notice.Some? && j > 0 { assert Notices(r)[j] == r.history[j - 1]; }
  }

  /** With room for them, every notice of an accepted receipt is shown by an entry with its hash. */
  lemma NoticesAreKept(ck: Checks, st: LedgerState, r: Receipt, self: NodeId, parent: NodeId, i: nat)
    requires ApplyReceipt(ck, st, r, self, parent).1.Ok?
    requires |st.activity| + |Notices(r)| <= MAX_ACTIVITY_ENTRIES && i < |Notices(r)|
    ensures Holds(ApplyReceipt(ck, st, r, self, parent).0.activity, ActivityHash, Notices(r)[i].entryHash)
  {
    var xs := FromNotices(Notices(r));
    assert ActivityHash(xs[i]) == Notices(r)[i].entryHash;
    KeepAllHoldsEach(st.activity, xs, ActivityHash, MAX_ACTIVITY_ENTRIES, Notices(r)[i].entryHash);
  }
}
