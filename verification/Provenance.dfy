/**
 Where trusted facts come from, over every run: the balance, the confirmed pins,
 the completed settlements, the parent link and the outstanding join each trace
 to the step that established them and have held ever since.
 */
module Provenance {
  import opened Common
  import Ancestors
  import Join
  import opened Rings
  import opened Ledger
  import opened LedgerProps
  import opened LedgerRings
  import opened Client
  import opened ClientProps

  // ---- The verified balance ----

  /** The receipt a ledger message carries, if any. */
  function ReceiptOf(s: Step): Option<Receipt> {
    match s
    case ReceiptIn(r) => Some(r)
    case OrderResultIn(o, now) => o.balance
    case SettlementV2In(r) => r.balance
    case SettlementV3In(r) => r.balance
    case _ => None
  }

  ghost predicate HasBalance(c: ClientState, b: Balance, parent: NodeId) {
    c.ledger.balance == Some(b) && IsParent(c, parent)
  }

  /** The step brings a receipt for the edge from `parent` to this client, accepted, attesting `b`. */
  ghost predicate AttestedBy(env: Env, c: ClientState, s: Step, b: Balance, parent: NodeId) {
    && ReceiptOf(s).Some?
    && var r := ReceiptOf(s).value;
       && IsParent(c, parent)
       && ReceiptAccepted(env.checks, c.ledger, r, env.self, parent)
       && Attested(r) == b
  }

  lemma LedgerInBalance(env: Env, st: LedgerState, s: Step, parent: NodeId)
    ensures var st1 := LedgerIn(env, st, s, parent).0;
            st1.balance != st.balance ==>
              && ReceiptOf(s).Some?
              && ReceiptAccepted(env.checks, st, ReceiptOf(s).value, env.self, parent)
              && st1.balance == Some(Attested(ReceiptOf(s).value))
  {
    if s.SettlementV2In? {
      SettlementBalance(env.checks, st, WithoutProof(s.settlement), env.self, parent);
    } else if s.SettlementV3In? {
      SettlementBalance(env.checks, st, s.settlement, env.self, parent);
    } else if ReceiptOf(s).Some? {
      ReceiptAcceptance(env.checks, st, ReceiptOf(s).value, env.self, parent);
    }
  }

  lemma SettlementBalance(ck: Checks, st: LedgerState, r: SettlementResult, self: NodeId, parent: NodeId)
    ensures var st1 := ApplySettlement(ck, st, r, self, parent).0;
            st1.balance != st.balance ==>
              && r.balance.Some?
              && ReceiptAccepted(ck, st, r.balance.value, self, parent)
              && st1.balance == Some(Attested(r.balance.value))
  {
    var i := PendingIndex(ck, st, r.orderHash);
    OfferedFrame(ck, st, r.balance, self, parent);
    if i < |st.pending| {
      OutcomeFrame(ck, VerifyOffered(ck, st, r.balance, self, parent).0, st.pending[i], r);
      if r.balance.Some? { ReceiptAcceptance(ck, st, r.balance.value, self, parent); }
    }
  }

  lemma BalanceStep(env: Env, c: ClientState, s: Step, b: Balance, parent: NodeId)
    requires Bound(c) && !HasBalance(c, b, parent) && HasBalance(ApplyStep(env, c, s), b, parent)
    ensures AttestedBy(env, c, s, b, parent)
  {
    if ReceiptlessStep(s) {
      BalanceOnlyDropped(env, c, s);
    } else {
      MessageStep(env, c, s);
      if c.local.parent.Some? { LedgerInBalance(env, c.ledger, s, c.local.parent.value.node); }
    }
  }

  lemma BalanceOnlyDropped(env: Env, c: ClientState, s: Step)
    requires Bound(c) && ReceiptlessStep(s)
    ensures var c1 := ApplyStep(env, c, s);
            c1.ledger.balance.Some? ==> c1.ledger.balance == c.ledger.balance && c1.local.parent == c.local.parent
  {
    if s.Control? { ControlBalance(env, c, s.frame, s.now); }
  }

  lemma ControlBalance(env: Env, c: ClientState, f: Frame, now: nat)
    ensures var c1 := HandleFrame(env, c, f, now).0;
            c1.ledger.balance.Some? ==> c1.ledger.balance == c.ledger.balance && c1.local.parent == c.local.parent
  {
  }

  /**
   A balance is present only while attached and pinned, and was attested, for the
   edge from the current parent to this client, by a receipt accepted since that
   parent was joined; parent and balance have not changed since.
   */
  lemma BalanceProvenance(env: Env, steps: seq<Step>) returns (i: nat)
    requires Run(env, steps).ledger.balance.Some?
    ensures var c := Run(env, steps);
            && c.local.parent.Some? && c.ledger.pinned.Some?
            && i < |steps|
            && AttestedBy(env, Run(env, steps[..i]), steps[i], c.ledger.balance.value, c.local.parent.value.node)
            && forall j :: i < j <= |steps| ==>
                 HasBalance(Run(env, steps[..j]), c.ledger.balance.value, c.local.parent.value.node)
  {
    ReachableIsBound(env, steps);
    var b := Run(env, steps).ledger.balance.value;
    var parent := Run(env, steps).local.parent.value.node;
    i := Since(env, steps, c => HasBalance(c, b, parent));
    ReachableIsBound(env, steps[..i]);
    assert HasBalance(Run(env, steps[..i + 1]), b, parent);
    BalanceStep(env, Run(env, steps[..i]), steps[i], b, parent);
  }

  // ---- The routing pin ----

  ghost predicate RoutingConfirmed(c: ClientState, key: LedgerKey, parent: NodeId) {
    c.ledger.pinned == Some(key) && c.ledger.pinnedTrust == Confirmed && IsParent(c, parent)
  }

  /** The step is an approval that carries `key`, a confirm of the pinned `key`, or an accept of a presented `key`. */
  ghost predicate RoutingVouched(env: Env, c: ClientState, s: Step, key: LedgerKey, parent: NodeId) {
    || (InstallsLink(env, c, s) && s.frame.origin == parent && s.frame.request.approval.parentLedger == key)
    || (s == ConfirmPinFor(parent) && IsParent(c, parent) && c.ledger.pinned == Some(key))
    || (s == AcceptPinFor(parent) && IsParent(c, parent)
        && exists change :: change in c.ledger.changes && change.node == parent && change.presented == key)
  }

  /** The step is a control frame whose approval is applied. */
  predicate InstallsLink(env: Env, c: ClientState, s: Step) {
    s.Control? && s.frame.request.JoinApproved? && HandleFrame(env, c, s.frame, s.now).1 == Accepted
  }

  lemma LedgerInRouting(env: Env, st: LedgerState, s: Step, parent: NodeId)
    requires PinFlagOk(st)
    ensures var st1 := LedgerIn(env, st, s, parent).0;
            RoutingGrewUnconfirmed(st, st1) && PinsGrewUnconfirmed(st.pins, st1.pins)
  {
    match s
    case ReceiptIn(r) => ReceiptPins(env.checks, st, r, env.self, parent);
    case OrderResultIn(o, now) => OrderPins(env.checks, st, o, env.self, parent, now);
    case SettlementV2In(r) => SettlementPins(env.checks, st, WithoutProof(r), env.self, parent);
    case SettlementV3In(r) => SettlementPins(env.checks, st, r, env.self, parent);
    case _ =>
  }

  lemma RoutingStep(env: Env, c: ClientState, s: Step, key: LedgerKey, parent: NodeId)
    requires Bound(c) && !RoutingConfirmed(c, key, parent) && RoutingConfirmed(ApplyStep(env, c, s), key, parent)
    ensures RoutingVouched(env, c, s, key, parent)
  {
    if s.Control? {
      RoutingControl(env, c, s.frame, s.now, key, parent);
    } else if s.AcceptPinFor? {
      RoutingAccept(c, s.node);
    } else if ReceiptlessStep(s) {
      RoutingLocal(env, c, s, key, parent);
    } else {
      MessageStep(env, c, s);
      if c.local.parent.Some? { LedgerInRouting(env, c.ledger, s, c.local.parent.value.node); }
    }
  }

  lemma RoutingControl(env: Env, c: ClientState, f: Frame, now: nat, key: LedgerKey, parent: NodeId)
    requires !RoutingConfirmed(c, key, parent) && RoutingConfirmed(HandleFrame(env, c, f, now).0, key, parent)
    ensures RoutingVouched(env, c, Control(f, now), key, parent)
  {
  }

  /** Accepting moves the routing pin only for the parent, to a presented key. */
  lemma RoutingAccept(c: ClientState, node: NodeId)
    ensures var st1 := AcceptPinChange(c, node).0;
            || (st1.pinned == c.ledger.pinned && st1.pinnedTrust == c.ledger.pinnedTrust)
            || (IsParent(c, node) && st1.pinned.Some?
                && exists change :: change in c.ledger.changes && change.node == node
                    && Some(change.presented) == st1.pinned)
  {
    var change := KeyChangeFor(c.ledger, node);
    if change.Some? { assert change.value in c.ledger.changes; }
  }

  lemma RoutingLocal(env: Env, c: ClientState, s: Step, key: LedgerKey, parent: NodeId)
    requires Bound(c) && ReceiptlessStep(s) && !s.Control? && !s.AcceptPinFor?
    requires !RoutingConfirmed(c, key, parent) && RoutingConfirmed(ApplyStep(env, c, s), key, parent)
    ensures s == ConfirmPinFor(parent) && IsParent(c, parent) && c.ledger.pinned == Some(key)
  {
  }

  /** A confirmed routing pin traces to an approval, a confirm or an accept, and has been confirmed since. */
  lemma RoutingProvenance(env: Env, steps: seq<Step>) returns (i: nat)
    requires Run(env, steps).ledger.pinned.Some? && Run(env, steps).ledger.pinnedTrust == Confirmed
    ensures var c := Run(env, steps);
            && c.local.parent.Some?
            && i < |steps|
            && RoutingVouched(env, Run(env, steps[..i]), steps[i], c.ledger.pinned.value, c.local.parent.value.node)
            && forall j :: i < j <= |steps| ==>
                 RoutingConfirmed(Run(env, steps[..j]), c.ledger.pinned.value, c.local.parent.value.node)
  {
    ReachableIsBound(env, steps);
    var key := Run(env, steps).ledger.pinned.value;
    var parent := Run(env, steps).local.parent.value.node;
    i := Since(env, steps, c => RoutingConfirmed(c, key, parent));
    ReachableIsBound(env, steps[..i]);
    assert RoutingConfirmed(Run(env, steps[..i + 1]), key, parent);
    RoutingStep(env, Run(env, steps[..i]), steps[i], key, parent);
  }

  // ---- Leaf pins ----

  ghost predicate LeafConfirmed(c: ClientState, node: NodeId, key: LedgerKey) {
    LeafPin(c.ledger, node) == Some(Pin(node, key, Confirmed))
  }

  /**
   The step is a receive URI for `node` with `key`, a confirm of the pinned `key`, or an accept of a
   presented `key`.
  */
  ghost predicate LeafVouched(c: ClientState, s: Step, node: NodeId, key: LedgerKey) {
    || s == PinPayeeLeaf(node, key)
    || (s == ConfirmPinFor(node) && LeafKey(c.ledger, node) == Some(key))
    || (s == AcceptPinFor(node)
        && exists change :: change in c.ledger.changes && change.node == node && change.presented == key)
  }

  lemma UniqueLookup(st: LedgerState, node: NodeId, pin: Pin)
    requires Unique(st.pins, PinNode) && pin in st.pins && pin.node == node
    ensures LeafPin(st, node) == Some(pin)
  {
    var i :| 0 <= i < |st.pins| && st.pins[i] == pin;
    FindIs(st.pins, PinNode, node, i);
  }

  lemma SetLookup(st: LedgerState, other: NodeId, key: LedgerKey, trust: Trust, node: NodeId)
    requires Unique(st.pins, PinNode)
    ensures var st1 := SetLeafKey(st, other, key, trust);
            && (other != node && LeafPin(st1, node).Some? ==> LeafPin(st1, node) == LeafPin(st, node))
            && (other == node && LeafPin(st1, node).Some? ==> LeafPin(st1, node) == Some(Pin(node, key, trust)))
  {
    var st1 := SetLeafKey(st, other, key, trust);
    UpsertUnique(st.pins, PinNode, Pin(other, key, trust), MAX_PINNED_LEAF_KEYS);
    if LeafPin(st1, node).Some? {
      var pin := LeafPin(st1, node).value;
      assert pin in st1.pins;
      UpsertMembers(st.pins, PinNode, Pin(other, key, trust), MAX_PINNED_LEAF_KEYS, pin);
      if other != node {
        UniqueLookup(st, node, pin);
      } else if Find(st.pins, PinNode, node) < |st.pins| {
        UpsertValueAt(st.pins, Pin(other, key, trust), pin);
      } else {
        assert pin == Pin(other, key, trust) by { NotHeld(st.pins, node, pin); }
      }
    }
  }

  lemma NotHeld(pins: seq<Pin>, node: NodeId, pin: Pin)
    requires Find(pins, PinNode, node) == |pins|
    ensures pin in pins ==> pin.node != node
  {
  }

  lemma UpsertValueAt(pins: seq<Pin>, x: Pin, pin: Pin)
    requires Unique(pins, PinNode) && Find(pins, PinNode, x.node) < |pins|
    requires pin in Upsert(pins, PinNode, x, MAX_PINNED_LEAF_KEYS) && pin.node == x.node
    ensures pin == x
  {
    var r := Upsert(pins, PinNode, x, MAX_PINNED_LEAF_KEYS);
    var i :| 0 <= i < |r| && r[i] == pin;
    UpsertValue(pins, PinNode, x, MAX_PINNED_LEAF_KEYS, i);
  }

  lemma LeafPinCalls(st: LedgerState, other: NodeId, presented: LedgerKey, node: NodeId, key: LedgerKey)
    requires RingsOk(st) && LeafPin(st, node) != Some(Pin(node, key, Confirmed))
    ensures LeafPin(PinFromReceive(st, other, presented).0, node) == Some(Pin(node, key, Confirmed)) ==>
              other == node && presented == key
    ensures LeafPin(ConfirmLeaf(st, other).0, node) == Some(Pin(node, key, Confirmed)) ==>
              other == node && LeafKey(st, node) == Some(key)
    ensures LeafPin(AcceptLeafChange(st, other).0, node) == Some(Pin(node, key, Confirmed)) ==>
              other == node && exists change :: change in st.changes && change.node == node && change.presented == key
  {
    SetLookup(st, other, presented, Confirmed, node);
    ConfirmedLeafCall(st, other, node, key);
    AcceptedLeafCall(st, other, node, key);
  }

  lemma ConfirmedLeafCall(st: LedgerState, other: NodeId, node: NodeId, key: LedgerKey)
    requires RingsOk(st) && LeafPin(st, node) != Some(Pin(node, key, Confirmed))
    ensures LeafPin(ConfirmLeaf(st, other).0, node) == Some(Pin(node, key, Confirmed)) ==>
              other == node && LeafKey(st, node) == Some(key)
  {
    var held := LeafKey(st, other);
    if held.Some? { SetLookup(st, other, held.value, Confirmed, node); }
  }

  lemma AcceptedLeafCall(st: LedgerState, other: NodeId, node: NodeId, key: LedgerKey)
    requires RingsOk(st) && LeafPin(st, node) != Some(Pin(node, key, Confirmed))
    ensures LeafPin(AcceptLeafChange(st, other).0, node) == Some(Pin(node, key, Confirmed)) ==>
              other == node && exists change :: change in st.changes && change.node == node && change.presented == key
  {
    var change := KeyChangeFor(st, other);
    if change.Some? {
      assert change.value in st.changes;
      SetLookup(st, other, change.value.presented, Confirmed, node);
    }
  }

  lemma LedgerInLeaf(env: Env, st: LedgerState, s: Step, parent: NodeId, node: NodeId, key: LedgerKey)
    requires PinFlagOk(st) && RingsOk(st) && LeafPin(st, node) != Some(Pin(node, key, Confirmed))
    ensures LeafPin(LedgerIn(env, st, s, parent).0, node) != Some(Pin(node, key, Confirmed))
  {
    LedgerInRouting(env, st, s, parent);
    var st1 := LedgerIn(env, st, s, parent).0;
    if st1.pins != st.pins {
      var n, k :| !Holds(st.pins, PinNode, n) && st1.pins == Push(st.pins, Pin(n, k, Unconfirmed),
                                                                  MAX_PINNED_LEAF_KEYS);
      assert st1.pins == SetLeafKey(st, n, k, Unconfirmed).pins;
      SetLookup(st, n, k, Unconfirmed, node);
    }
  }

  lemma ConfirmLeafStep(c: ClientState, other: NodeId, node: NodeId, key: LedgerKey)
    requires RingsOk(c.ledger) && !LeafConfirmed(c, node, key)
    ensures LeafPin(ConfirmPin(c, other).0, node) == Some(Pin(node, key, Confirmed)) ==>
              other == node && LeafKey(c.ledger, node) == Some(key)
  {
    var st := if IsParent(c, other) then ConfirmRouting(c.ledger, other).0 else c.ledger;
    PinCallRings(c.ledger, other, key);
    assert LeafPin(st, node) == LeafPin(c.ledger, node);
    LeafPinCalls(st, other, key, node, key);
  }

  lemma AcceptLeafStep(c: ClientState, other: NodeId, node: NodeId, key: LedgerKey)
    requires RingsOk(c.ledger) && !LeafConfirmed(c, node, key)
    ensures LeafPin(AcceptPinChange(c, other).0, node) == Some(Pin(node, key, Confirmed)) ==>
              && other == node
              && exists change :: change in c.ledger.changes && change.node == node && change.presented == key
  {
    var st := if IsParent(c, other) then AcceptRoutingChange(c.ledger, other).0 else c.ledger;
    PinCallRings(c.ledger, other, key);
    assert LeafPin(st, node) == LeafPin(c.ledger, node);
    LeafPinCalls(st, other, key, node, key);
    WithoutElements(c.ledger.changes, ChangeNode, other);
  }

  lemma OtherStepsKeepPins(env: Env, c: ClientState, s: Step)
    requires !s.PinPayeeLeaf? && !s.ConfirmPinFor? && !s.AcceptPinFor? && ReceiptlessStep(s)
    ensures var st1 := ApplyStep(env, c, s).ledger; st1.pins == c.ledger.pins || st1.pins == []
  {
  }

  lemma LeafStep(env: Env, c: ClientState, s: Step, node: NodeId, key: LedgerKey)
    requires Bound(c) && !LeafConfirmed(c, node, key) && LeafConfirmed(ApplyStep(env, c, s), node, key)
    ensures LeafVouched(c, s, node, key)
  {
    if ReceiptlessStep(s) {
      LeafCall(env, c, s, node, key);
    } else {
      MessageStep(env, c, s);
      if c.local.parent.Some? { LedgerInLeaf(env, c.ledger, s, c.local.parent.value.node, node, key); }
    }
  }

  lemma LeafCall(env: Env, c: ClientState, s: Step, node: NodeId, key: LedgerKey)
    requires RingsOk(c.ledger) && ReceiptlessStep(s)
    requires !LeafConfirmed(c, node, key) && LeafConfirmed(ApplyStep(env, c, s), node, key)
    ensures LeafVouched(c, s, node, key)
  {
    if s.PinPayeeLeaf? {
      LeafPinCalls(c.ledger, s.node, s.key, node, key);
    } else if s.ConfirmPinFor? {
      ConfirmLeafStep(c, s.node, node, key);
    } else if s.AcceptPinFor? {
      AcceptLeafStep(c, s.node, node, key);
    } else {
      OtherStepsKeepPins(env, c, s);
    }
  }

  /** A confirmed leaf pin traces to a receive URI, a confirm or an accept for that node and key. */
  lemma LeafProvenance(env: Env, steps: seq<Step>, node: NodeId, key: LedgerKey) returns (i: nat)
    requires LeafConfirmed(Run(env, steps), node, key)
    ensures i < |steps|
    ensures LeafVouched(Run(env, steps[..i]), steps[i], node, key)
    ensures forall j :: i < j <= |steps| ==> LeafConfirmed(Run(env, steps[..j]), node, key)
  {
    i := Since(env, steps, c => LeafConfirmed(c, node, key));
    ReachableIsBound(env, steps[..i]);
    assert LeafConfirmed(Run(env, steps[..i + 1]), node, key);
    LeafStep(env, Run(env, steps[..i]), steps[i], node, key);
  }

  // ---- Completed settlements ----

  predicate Completed(rec: Settlement) {
    rec.state.Applied? || rec.state.Duplicate?
  }

  lemma SettlementStep(env: Env, c: ClientState, s: Step, rec: Settlement)
    requires Completed(rec) && rec !in c.ledger.settlements && rec in ApplyStep(env, c, s).ledger.settlements
    ensures s.SettlementV3In? && CompletionWitness(env.checks, c.ledger, s.settlement, rec)
    ensures c.local.parent.Some?
  {
    if ReceiptlessStep(s) {
      SettlementsOnlyDropped(env, c, s);
    } else {
      MessageStep(env, c, s);
      MessageSettles(env, c, s, rec);
    }
  }

  lemma SettlementsOnlyDropped(env: Env, c: ClientState, s: Step)
    requires ReceiptlessStep(s)
    ensures var st1 := ApplyStep(env, c, s).ledger; st1.settlements == c.ledger.settlements || st1.settlements == []
  {
  }

  lemma MessageSettles(env: Env, c: ClientState, s: Step, rec: Settlement)
    requires c.local.parent.Some? && Completed(rec) && rec !in c.ledger.settlements
    requires rec in LedgerIn(env, c.ledger, s, c.local.parent.value.node).0.settlements
    ensures s.SettlementV3In? && CompletionWitness(env.checks, c.ledger, s.settlement, rec)
  {
    var parent := c.local.parent.value.node;
    if s.SettlementV2In? { CompletedMeansProved(env.checks, c.ledger, WithoutProof(s.settlement), env.self, parent,
                                                rec); }
    else if s.SettlementV3In? { CompletedMeansProved(env.checks, c.ledger, s.settlement, env.self, parent, rec); }
    else if s.OrderResultIn? { OfferedFrame(env.checks, c.ledger, s.order.balance, env.self, parent); }
  }

  /**
   Every completed settlement ever held was recorded by a v3 result whose terminal
   proof carried the whole evidence against an order then pending and the pins then
   held; it has been held since. Proofless v2 results never produce one.
   */
  lemma SettlementProvenance(env: Env, steps: seq<Step>, rec: Settlement) returns (i: nat)
    requires Completed(rec) && rec in Run(env, steps).ledger.settlements
    ensures i < |steps| && steps[i].SettlementV3In?
    ensures CompletionWitness(env.checks, Run(env, steps[..i]).ledger, steps[i].settlement, rec)
    ensures forall j :: i < j <= |steps| ==> rec in Run(env, steps[..j]).ledger.settlements
  {
    i := Since(env, steps, (c: ClientState) => rec in c.ledger.settlements);
    assert rec in Run(env, steps[..i + 1]).ledger.settlements;
    SettlementStep(env, Run(env, steps[..i]), steps[i], rec);
  }

  // ---- The join ----

  /** The outstanding join is consumed by an approval or rejection frame of its parent. */
  predicate ConsumesJoin(env: Env, c: ClientState, s: Step) {
    && c.local.outbound.Some?
    && s.Control?
    && (s.frame.request.JoinApproved? || s.frame.request.JoinRejected?)
    && ApplyStep(env, c, s).local.outbound.None?
  }

  lemma OutboundStep(env: Env, c: ClientState, s: Step, o: Join.OutboundJoin)
    requires c.local.outbound != Some(o) && ApplyStep(env, c, s).local.outbound == Some(o)
    ensures s == BeginJoin(o.request, o.parent, o.pinnedOperator, o.sentAt)
  {
  }

  /** An outstanding join traces to the call that began it and has been outstanding since. */
  lemma OutboundProvenance(env: Env, steps: seq<Step>) returns (i: nat)
    requires Run(env, steps).local.outbound.Some?
    ensures var o := Run(env, steps).local.outbound.value;
            && i < |steps|
            && steps[i] == BeginJoin(o.request, o.parent, o.pinnedOperator, o.sentAt)
            && forall j :: i < j <= |steps| ==> Run(env, steps[..j]).local.outbound == Some(o)
  {
    var o := Run(env, steps).local.outbound.value;
    i := Since(env, steps, (c: ClientState) => c.local.outbound == Some(o));
    assert Run(env, steps[..i + 1]).local.outbound == Some(o);
    OutboundStep(env, Run(env, steps[..i]), steps[i], o);
  }

  /** Between two consumptions of a join there is a call that began the second: each join is consumed at most once. */
  lemma JoinConsumedOnce(env: Env, steps: seq<Step>, first: nat, second: nat) returns (begun: nat)
    requires first < second < |steps|
    requires ConsumesJoin(env, Run(env, steps[..first]), steps[first])
    requires ConsumesJoin(env, Run(env, steps[..second]), steps[second])
    ensures first < begun < second && steps[begun].BeginJoin?
  {
    var upTo := steps[..second];
    begun := OutboundProvenance(env, upTo);
    RunUnfold(env, steps, first);
    assert upTo[..first + 1] == steps[..first + 1];
    assert Run(env, upTo[..first + 1]).local.outbound.None?;
  }

  lemma LinkStep(env: Env, c: ClientState, s: Step, link: Ancestors.ParentLink)
    requires c.local.parent != Some(link) && ApplyStep(env, c, s).local.parent == Some(link)
    ensures InstallsLink(env, c, s)
    ensures c.local.outbound.Some?
    ensures Join.ApprovalAnswers(c.local.outbound.value, env.self, s.frame.request.approval, s.frame.origin,
                                 s.frame.controller)
    ensures link == Ancestors.ParentLink(s.frame.origin, s.frame.request.approval.slot)
    ensures env.signed(s.frame) && s.now <= s.frame.expiry
  {
  }

  /**
   The parent link was installed by a signed, unexpired approval that answers the
   join then outstanding: same parent, this child, same nonce, any pinned signer.
   That join was begun before it and nothing replaced it in between, so an approval
   left over from an earlier join never installs.
   */
  lemma LinkProvenance(env: Env, steps: seq<Step>) returns (begun: nat, installed: nat)
    requires Run(env, steps).local.parent.Some?
    ensures begun < installed < |steps| && steps[begun].BeginJoin?
    ensures InstallsLink(env, Run(env, steps[..installed]), steps[installed])
    ensures var link := Run(env, steps).local.parent.value;
            var join := steps[begun];
            var f := steps[installed].frame;
            && env.signed(f) && steps[installed].now <= f.expiry
            && link == Ancestors.ParentLink(f.origin, f.request.approval.slot)
            && f.origin == join.parent
            && f.request.approval.child == env.self
            && f.request.approval.nonce == join.request.nonce
            && (join.pinnedOperator.Some? ==> join.pinnedOperator.value == f.controller)
    ensures var join := steps[begun];
            forall j :: begun < j <= installed ==>
              Run(env, steps[..j]).local.outbound == Some(Join.OutboundJoin(join.request, join.parent,
                  join.pinnedOperator, join.now))
    ensures forall j :: installed < j <= |steps| ==> Run(env, steps[..j]).local.parent == Run(env, steps).local.parent
  {
    var link := Run(env, steps).local.parent.value;
    installed := Since(env, steps, (c: ClientState) => c.local.parent == Some(link));
    assert Run(env, steps[..installed + 1]).local.parent == Some(link);
    LinkStep(env, Run(env, steps[..installed]), steps[installed], link);
    var upTo := steps[..installed];
    begun := OutboundProvenance(env, upTo);
    var o := Run(env, upTo).local.outbound.value;
    forall j | begun < j <= installed ensures Run(env, steps[..j]).local.outbound == Some(o) {
      assert upTo[..j] == steps[..j];
    }
  }

  /** A rejection consumes the join exactly when it comes from that parent and pinned signer with an agreeing nonce. */
  lemma RejectionConsumes(env: Env, c: ClientState, f: Frame, now: nat)
    requires f.request.JoinRejected? && c.local.outbound.Some?
    ensures var o := c.local.outbound.value;
            var r := f.request.rejection;
            HandleFrame(env, c, f, now).0.local.outbound.None?
            <==> && env.supported(f.version) && now <= f.expiry && env.signed(f)
                 && |r.child.text| <= MAX_NODE_ID_LEN && |r.reason| <= MAX_REASON_LEN
                 && f.origin == o.parent
                 && (o.pinnedOperator.Some? ==> f.controller == o.pinnedOperator.value)
                 && (r.nonce == o.request.nonce || r.nonce == 0 || o.request.nonce == 0)
    ensures HandleFrame(env, c, f, now).0.local.parent == c.local.parent
    ensures HandleFrame(env, c, f, now).0.ledger == c.ledger
  {
  }
}
