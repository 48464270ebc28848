/** What the user's three pin decisions do to the trust state, and what they leave alone. */
module PinDecisions {
  import opened Common
  import opened Rings
  import opened Ledger
  import opened Client
  import RingRuns

  /** Looking a key up after an upsert gives the new value for that key. */
  lemma UpsertReads<T, K>(s: seq<T>, key: T -> K, x: T, cap: nat)
    requires cap >= 1
    ensures var r := Upsert(s, key, x, cap);
            Find(r, key, key(x)) < |r| && r[Find(r, key, key(x))] == x
  {
    var i := Find(s, key, key(x));
    var r := Upsert(s, key, x, cap);
    if i < |s| {
      FindIs(r, key, key(x), i);
    } else {
      assert r[|r| - 1] == x;
      assert forall j :: 0 <= j < |r| - 1 ==> r[j] == s[|s| + 1 - |r| + j];
      FindIs(r, key, key(x), |r| - 1);
    }
  }

  lemma SetReads(st: LedgerState, node: NodeId, key: LedgerKey, trust: Trust)
    ensures LeafPin(SetLeafKey(st, node, key, trust), node) == Some(Pin(node, key, trust))
  {
    UpsertReads(st.pins, PinNode, Pin(node, key, trust), MAX_PINNED_LEAF_KEYS);
  }

  lemma RecordReads(st: LedgerState, node: NodeId, held: LedgerKey, presented: LedgerKey)
    ensures KeyChangeFor(RecordChange(st, node, held, presented), node) == Some(KeyChange(node, held, presented))
  {
    UpsertReads(st.changes, ChangeNode, KeyChange(node, held, presented), MAX_LEAF_KEY_CHANGES);
  }

  lemma ClearedReads(st: LedgerState, node: NodeId)
    ensures KeyChangeFor(ClearChanges(st, node), node) == None
    ensures forall change: KeyChange :: change.node != node ==>
        (change in ClearChanges(st, node).changes <==> change in st.changes)
  {
    RingRuns.NoneLeft(st.changes, node);
    WithoutElements(st.changes, ChangeNode, node);
  }

  /** Setting a pin leaves the pins of the nodes still held alone. */
  ghost predicate OthersKept(st: LedgerState, st1: LedgerState, node: NodeId) {
    forall i :: 0 <= i < |st1.pins| && st1.pins[i].node != node ==> st1.pins[i] in st.pins
  }

  lemma SetKeepsOthers(st: LedgerState, node: NodeId, key: LedgerKey, trust: Trust)
    ensures OthersKept(st, SetLeafKey(st, node, key, trust), node)
  {
  }

  /**
   A key from a receive URI: an unpinned node is pinned to it, the pinned key is
   confirmed, and any other key is only recorded, beside the one that stays pinned.
   */
  lemma ReceiveDecides(st: LedgerState, node: NodeId, key: LedgerKey)
    ensures var (st1, outcome) := PinFromReceive(st, node, key);
            && (outcome == Pinned <==> LeafKey(st, node).None?)
            && (outcome == AlreadyPinned <==> LeafKey(st, node) == Some(key))
            && (!outcome.Conflict? ==>
                  LeafPin(st1, node) == Some(Pin(node, key, Confirmed)) && st1.changes == st.changes)
            && (outcome.Conflict? ==>
                  && st1.pins == st.pins
                  && LeafKey(st, node).Some?
                  && KeyChangeFor(st1, node) == Some(KeyChange(node, LeafKey(st, node).value, key))
                  && outcome.change == KeyChangeFor(st1, node).value)
            && st1.pinned == st.pinned && st1.pinnedTrust == st.pinnedTrust && OthersKept(st, st1, node)
  {
    SetReads(st, node, key, Confirmed);
    SetKeepsOthers(st, node, key, Confirmed);
    if LeafKey(st, node).Some? { RecordReads(st, node, LeafKey(st, node).value, key); }
  }

  /** Confirming keeps every key, makes the pins of that node confirmed, and forgets the change recorded for it. */
  lemma ConfirmDecides(c: ClientState, node: NodeId)
    ensures var (st1, ok) := ConfirmPin(c, node);
            && (ok <==> (IsParent(c, node) && c.ledger.pinned.Some?) || LeafKey(c.ledger, node).Some?)
            && st1.pinned == c.ledger.pinned
            && LeafKey(st1, node) == LeafKey(c.ledger, node)
            && (LeafPin(st1, node).Some? ==> LeafPin(st1, node).value.trust == Confirmed)
            && (IsParent(c, node) && st1.pinned.Some? ==> st1.pinnedTrust == Confirmed)
            && (!IsParent(c, node) ==> st1.pinnedTrust == c.ledger.pinnedTrust)
            && KeyChangeFor(st1, node) == None
            && OthersKept(c.ledger, st1, node)
  {
    var st := if IsParent(c, node) then ConfirmRouting(c.ledger, node).0 else c.ledger;
    assert st.pins == c.ledger.pins;
    var held := LeafKey(st, node);
    if held.Some? {
      SetReads(st, node, held.value, Confirmed);
      SetKeepsOthers(st, node, held.value, Confirmed);
      ClearedReads(SetLeafKey(st, node, held.value, Confirmed), node);
    } else {
      ClearedReads(st, node);
    }
  }

  /**
   Accepting needs a recorded change and adopts its presented key, confirmed: as the
   routing pin when the node is the current parent, whose leaf pin then stays as it
   was, and as the leaf pin otherwise. The change is forgotten.
   */
  lemma AcceptDecides(c: ClientState, node: NodeId)
    ensures var (st1, ok) := AcceptPinChange(c, node);
            var change := KeyChangeFor(c.ledger, node);
            && (ok <==> change.Some?)
            && (!ok ==> st1 == c.ledger)
            && (ok && IsParent(c, node) ==>
                  && st1.pinned == Some(change.value.presented) && st1.pinnedTrust == Confirmed
                  && st1.pins == c.ledger.pins)
            && (ok && !IsParent(c, node) ==>
                  && LeafPin(st1, node) == Some(Pin(node, change.value.presented, Confirmed))
                  && st1.pinned == c.ledger.pinned && st1.pinnedTrust == c.ledger.pinnedTrust)
            && KeyChangeFor(st1, node) == None
            && OthersKept(c.ledger, st1, node)
  {
    var change := KeyChangeFor(c.ledger, node);
    if change.Some? {
      if IsParent(c, node) {
        ClearedReads(c.ledger.(pinned := Some(change.value.presented), pinnedTrust := Confirmed), node);
      } else {
        var st := SetLeafKey(c.ledger, node, change.value.presented, Confirmed);
        SetReads(c.ledger, node, change.value.presented, Confirmed);
        SetKeepsOthers(c.ledger, node, change.value.presented, Confirmed);
        ClearedReads(st, node);
      }
    }
  }
}
