/**
 The client as the source holds it: shared join state and ledger objects, a rebase
 guard and an ancestor cache, updated in place by the control handler and by the
 client's own calls. Each method is proved to compute its step in `Client`.
 */
module ClientObject {
  import opened Common
  import Ancestors
  import opened Join
  import JoinObject
  import LedgerObject
  import opened Client
  import CacheProps

  class ClientNode {
    const env: Env
    const local: JoinObject.LocalBook
    const ledger: LedgerObject.LedgerBook
    var guard: Guard
    var cache: Option<Ancestors.AncestorCache>

    ghost predicate Valid() {
      ledger.ck == env.checks
    }

    function View(): ClientState
      reads this, local, ledger
    {
      ClientState(local.View(), guard, cache, ledger.View())
    }

    constructor (e: Env)
      ensures Valid() && env == e && View() == NEW_CLIENT
      ensures fresh(local) && fresh(ledger)
    {
      env := e;
      local := new JoinObject.LocalBook();
      ledger := new LedgerObject.LedgerBook(e.checks);
      guard := NEW_GUARD;
      cache := None;
    }

    method HandleRebase(f: Frame, n: RebaseNotice) returns (reply: Reply)
      requires Valid()
      modifies this, local, ledger
      ensures (View(), reply) == Client.HandleRebase(env, old(View()), f, n)
    {
      if !env.signed(f) { return Rejects(UnauthorizedCode); }
      if |n.node.text| > MAX_NODE_ID_LEN || n.generation < 1 { return Rejects(BadRequestCode); }
      if n.node != env.self { return Rejects(UnauthorizedCode); }
      var parent := local.parent;
      if parent.None? { return Rejects(UnauthorizedCode); }
      var link := parent.value;
      if f.origin != link.node || !OriginBinds(env, f) { return Rejects(UnauthorizedCode); }
      if n.addr != ChildAddr(n.parentAddr, link.slot) { return Rejects(BadRequestCode); }
      if guard.parent != Some(link.node) {
        guard := Guard(Some(link.node), 0);
      }
      var stored := guard.generation;
      if n.generation < stored { return Accepted; }
      if n.generation == stored {
        if local.address == Some(n.addr) { return Accepted; }
        return Rejects(BadRequestCode);
      }
      var t := local.ApplyRebase(n.parentAddr, n.addr);
      if t.Rebased? || t.NoChange? {
        guard := guard.(generation := n.generation);
      }
      reply := ReplyOf(t);
    }

    method HandleDetach(f: Frame, node: NodeId) returns (reply: Reply)
      requires Valid()
      modifies this, local, ledger
      ensures (View(), reply) == Client.HandleDetach(env, old(View()), f, node)
    {
      if !env.signed(f) { return Rejects(UnauthorizedCode); }
      if |node.text| > MAX_NODE_ID_LEN { return Rejects(BadRequestCode); }
      if node != env.self { return Rejects(UnauthorizedCode); }
      if local.parent.None? { return Accepted; }
      if f.origin != local.parent.value.node || !OriginBinds(env, f) { return Rejects(UnauthorizedCode); }
      var t := local.ApplyDetach();
      if t.Detached? {
        ledger.ClearBinding();
        guard := NEW_GUARD;
        cache := None;
      }
      reply := ReplyOf(t);
    }

    method HandleJoinApproved(f: Frame, a: Approval) returns (reply: Reply)
      requires Valid()
      modifies this, local, ledger
      ensures (View(), reply) == Client.HandleJoinApproved(env, old(View()), f, a)
    {
      if !env.signed(f) { return Rejects(UnauthorizedCode); }
      var t := local.OnJoinApproved(env.self, a, f.origin, f.controller);
      if t.Approved? {
        ledger.Rebind(a.parentLedger);
        guard := NEW_GUARD;
        cache := None;
      }
      reply := ReplyOf(t);
    }

    method HandleJoinRejected(f: Frame, r: Refusing) returns (reply: Reply)
      requires Valid()
      modifies this, local, ledger
      ensures (View(), reply) == Client.HandleJoinRejected(env, old(View()), f, r)
    {
      if !env.signed(f) { return Rejects(UnauthorizedCode); }
      if |r.child.text| > MAX_NODE_ID_LEN || |r.reason| > MAX_REASON_LEN { return Rejects(BadRequestCode); }
      var t := local.OnJoinRejected(r, f.origin, f.controller);
      reply := ReplyOf(t);
    }

    method Handle(f: Frame, now: nat) returns (reply: Reply)
      requires Valid()
      modifies this, local, ledger
      ensures (View(), reply) == HandleFrame(env, old(View()), f, now)
    {
      if !env.supported(f.version) { return Rejects(BadVersionCode); }
      if f.expiry < now { return Rejects(ExpiredCode); }
      match f.request {
        case JoinApproved(a) => reply := HandleJoinApproved(f, a);
        case JoinRejected(r) => reply := HandleJoinRejected(f, r);
        case Rebase(n) => reply := HandleRebase(f, n);
        case DetachNotice(node) => reply := HandleDetach(f, node);
        case Query => reply := HandleQuery(env, View(), f);
        case OtherRequest => reply := Rejects(UnauthorizedCode);
      }
    }

    method Leave()
      requires Valid()
      modifies this, local, ledger
      ensures View() == Client.Leave(old(View()))
    {
      var t := local.ApplyDetach();
      if t.Detached? {
        ledger.ClearBinding();
        cache := None;
      }
    }

    /**
     Walk the ancestors unless a cache for the current link is held; an unjoined client and a client at the
     root cannot.
    */
    method DiscoverAncestors(endpoint: NodeId -> bool, ask: Ancestors.Replies) returns (ok: bool)
      requires Valid() && (local.address.Some? ==> ValidAddr(local.address.value))
      modifies this
      ensures var c := old(View());
              if c.local.address.None? || c.local.parent.None? then View() == c && !ok
              else if CacheProps.CacheCurrent(c) then View() == c && ok
              else
                var self, parent := c.local.address.value, c.local.parent.value.node;
                && View() == ApplyStep(env, c, WalkDone(self, parent, endpoint, ask))
                && ok == (|self| > 1 && Ancestors.Walk(self, parent, 1, endpoint, ask).0.Ok?)
    {
      if local.address.None? || local.parent.None? { return false; }
      var self, parent := local.address.value, local.parent.value.node;
      if cache.Some? && cache.value.selfAddr == self && cache.value.parent == parent { return true; }
      var found, _ := Ancestors.DiscoverAncestors(self, parent, endpoint, ask);
      ok := found.Ok?;
      if ok { cache := Some(found.value); }
    }

    /** The push a payment makes before it is sent. */
    method RememberPayment(to: NodeId, amount: nat, nonce: nat, now: nat, auth: string, payee: OctAddr)
      returns (sent: bool)
      requires Valid()
      modifies this, local, ledger
      ensures View() == ApplyStep(env, old(View()), SendPayment(to, amount, nonce, now, auth, payee))
      ensures sent == PaymentSent(env, old(View()), SendPayment(to, amount, nonce, now, auth, payee))
    {
      if local.address.None? || local.parent.None? { return false; }
      if to == env.self { return false; }
      ledger.PushPending(PaymentOrder(env, local.address.value, to, amount, nonce, now, auth, payee));
      sent := true;
    }

    method ConfirmPin(node: NodeId) returns (confirmed: bool)
      requires Valid()
      modifies this, local, ledger
      ensures View() == old(View()).(ledger := Client.ConfirmPin(old(View()), node).0)
      ensures confirmed == Client.ConfirmPin(old(View()), node).1
    {
      confirmed := false;
      if local.parent.Some? && local.parent.value.node == node {
        confirmed := ledger.ConfirmRouting(node);
      }
      var leaf := ledger.ConfirmLeaf(node);
      confirmed := confirmed || leaf;
    }

    method AcceptPinChange(node: NodeId) returns (accepted: bool)
      requires Valid()
      modifies this, local, ledger
      ensures View() == old(View()).(ledger := Client.AcceptPinChange(old(View()), node).0)
      ensures accepted == Client.AcceptPinChange(old(View()), node).1
    {
      accepted := false;
      if local.parent.Some? && local.parent.value.node == node {
        var routing := ledger.AcceptRoutingChange(node);
        accepted := routing.Some?;
      }
      var leaf := ledger.AcceptLeafChange(node);
      accepted := accepted || leaf.Some?;
    }

    /** One ledger message drained from the queue. */
    method ReceiveLedger(s: Step) returns (applied: bool)
      requires Valid() && (s.ReceiptIn? || s.OrderResultIn? || s.SettlementV2In? || s.SettlementV3In?)
      modifies this, local, ledger
      ensures View() == ApplyStep(env, old(View()), s)
      ensures applied == (old(View()).local.parent.Some?
                          && LedgerIn(env, old(View()).ledger, s, old(View()).local.parent.value.node).1)
    {
      if local.parent.None? { return false; }
      var parent := local.parent.value.node;
      match s {
        case ReceiptIn(r) =>
          var v := ledger.ApplyReceipt(r, env.self, parent);
          applied := v.Ok?;
        case OrderResultIn(o, now) =>
          var v := ledger.ApplyOrderResult(o, env.self, parent, now);
          applied := v.Ok?;
        case SettlementV2In(r) =>
          var v := ledger.ApplySettlementV2(r, env.self, parent);
          applied := v.Ok?;
        case SettlementV3In(r) =>
          var v := ledger.ApplySettlement(r, env.self, parent);
          applied := v.Ok?;
      }
    }
  }
}
