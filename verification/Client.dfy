/**
 The browser client as one record: join state, rebase ordering guard, ancestor
 cache and ledger, with one step per inbound frame or local call. The step
 functions say what the control handler and the client methods do.
 */
module Client {
  import opened Common
  import opened Ancestors
  import opened Join
  import opened Ledger

  const MAX_NODE_ID_LEN: nat := 128
  const MAX_REASON_LEN: nat := 256
  const ORDER_TTL_SECS: nat := 3600

  datatype RebaseNotice = RebaseNotice(node: NodeId, parentAddr: OctAddr, addr: OctAddr, generation: nat)

  datatype Request =
    | JoinApproved(approval: Approval)
    | JoinRejected(rejection: Refusing)
    | Rebase(notice: RebaseNotice)
    | DetachNotice(node: NodeId)
    | Query
    | OtherRequest

  /** A signed control frame. */
  datatype Frame = Frame(
    version: nat, origin: NodeId, controller: OpKey, nonce: nat, expiry: nat, request: Request, signature: string)

  datatype Reply = Accepted | Rejects(code: RejectCode) | SnapshotOf(local: LocalState)

  /** The highest rebase generation applied from the current parent. */
  datatype Guard = Guard(parent: Option<NodeId>, generation: nat)

  const NEW_GUARD := Guard(None, 0)

  datatype ClientState = ClientState(local: LocalState, guard: Guard, cache: Option<AncestorCache>, ledger: LedgerState)

  const NEW_CLIENT := ClientState(NEW_LOCAL, NEW_GUARD, None, NEW_LEDGER)

  /** This client's identity and the checks left uninterpreted. */
  datatype Env = Env(
    self: NodeId, operator: Option<OpKey>, checks: Checks,
    supported: nat -> bool, signed: Frame -> bool, operatorOf: NodeId -> Option<OpKey>)

  function ReplyOf(t: Transition): Reply {
    match t
    case NotAttached => Rejects(NotAttachedCode)
    case Denied(code) => Rejects(code)
    case _ => Accepted
  }

  /** The controller is the operator key named by the origin. */
  predicate OriginBinds(env: Env, f: Frame) {
    env.operatorOf(f.origin) == Some(f.controller)
  }

  // ---- Inbound control frames ----

  function HandleJoinApproved(env: Env, c: ClientState, f: Frame, a: Approval): (ClientState, Reply) {
    if !env.signed(f) then (c, Rejects(UnauthorizedCode))
    else
      var (local, t) := OnJoinApproved(c.local, env.self, a, f.origin, f.controller);
      (if t.Approved? then ClientState(local, NEW_GUARD, None, Rebind(c.ledger, a.parentLedger)) else c, ReplyOf(t))
  }

  function HandleJoinRejected(env: Env, c: ClientState, f: Frame, r: Refusing): (ClientState, Reply) {
    if !env.signed(f) then (c, Rejects(UnauthorizedCode))
    else if |r.child.text| > MAX_NODE_ID_LEN || |r.reason| > MAX_REASON_LEN then (c, Rejects(BadRequestCode))
    else
      var (local, t) := OnJoinRejected(c.local, r, f.origin, f.controller);
      (c.(local := local), ReplyOf(t))
  }

  function HandleRebase(env: Env, c: ClientState, f: Frame, n: RebaseNotice): (ClientState, Reply) {
    if !env.signed(f) then (c, Rejects(UnauthorizedCode))
    else if |n.node.text| > MAX_NODE_ID_LEN || n.generation < 1 then (c, Rejects(BadRequestCode))
    else if n.node != env.self then (c, Rejects(UnauthorizedCode))
    else if c.local.parent.None? then (c, Rejects(UnauthorizedCode))
    else
      var link := c.local.parent.value;
      if f.origin != link.node || !OriginBinds(env, f) then (c, Rejects(UnauthorizedCode))
      else if n.addr != ChildAddr(n.parentAddr, link.slot) then (c, Rejects(BadRequestCode))
      else
        var guard := if c.guard.parent == Some(link.node) then c.guard else Guard(Some(link.node), 0);
        var c1 := c.(guard := guard);
        if n.generation < guard.generation then (c1, Accepted)
        else if n.generation == guard.generation then
          (c1, if c.local.address == Some(n.addr) then Accepted else Rejects(BadRequestCode))
        else
          var (local, t) := ApplyRebase(c.local, n.parentAddr, n.addr);
          (if t.Rebased? || t.NoChange? then c1.(local := local, guard := guard.(generation := n.generation)) else c1,
           ReplyOf(t))
  }

  function HandleDetach(env: Env, c: ClientState, f: Frame, node: NodeId): (ClientState, Reply) {
    if !env.signed(f) then (c, Rejects(UnauthorizedCode))
    else if |node.text| > MAX_NODE_ID_LEN then (c, Rejects(BadRequestCode))
    else if node != env.self then (c, Rejects(UnauthorizedCode))
    else if c.local.parent.None? then (c, Accepted)
    else if f.origin != c.local.parent.value.node || !OriginBinds(env, f) then (c, Rejects(UnauthorizedCode))
    else
      var (local, t) := ApplyDetach(c.local);
      (if t.Detached? then ClientState(local, NEW_GUARD, None, ClearBinding(c.ledger)) else c, ReplyOf(t))
  }

  function HandleQuery(env: Env, c: ClientState, f: Frame): Reply {
    if f.origin == env.self && env.operator == Some(f.controller) && env.signed(f)
    then SnapshotOf(c.local) else Rejects(UnauthorizedCode)
  }

  /** Dispatch one signed frame that arrives at time `now`. */
  function HandleFrame(env: Env, c: ClientState, f: Frame, now: nat): (ClientState, Reply) {
    if !env.supported(f.version) then (c, Rejects(BadVersionCode))
    else if f.expiry < now then (c, Rejects(ExpiredCode))
    else
      match f.request
      case JoinApproved(a) => HandleJoinApproved(env, c, f, a)
      case JoinRejected(r) => HandleJoinRejected(env, c, f, r)
      case Rebase(n) => HandleRebase(env, c, f, n)
      case DetachNotice(node) => HandleDetach(env, c, f, node)
      case Query => (c, HandleQuery(env, c, f))
      case OtherRequest => (c, Rejects(UnauthorizedCode))
  }

  // ---- Local calls ----

  /** The local half of leaving, which runs whatever the parent answered. */
  function Leave(c: ClientState): ClientState {
    var (local, t) := ApplyDetach(c.local);
    if t.Detached? then ClientState(local, c.guard, None, ClearBinding(c.ledger)) else c
  }

  /** The pending order a payment remembers before it is sent. */
  function PaymentOrder(env: Env, self: OctAddr, to: NodeId, amount: nat, nonce: nat, now: nat, auth: string,
                        payee: OctAddr): Pending {
    Pending(Order(env.self, to, amount, nonce, now + ORDER_TTL_SECS), auth, now, Some(payee),
            ParentAddr(self) == ParentAddr(payee), None)
  }

  function ConfirmPin(c: ClientState, node: NodeId): (LedgerState, bool) {
    var (st, routing) := if IsParent(c, node) then ConfirmRouting(c.ledger, node) else (c.ledger, false);
    var (st1, leaf) := ConfirmLeaf(st, node);
    (st1, routing || leaf)
  }

  function AcceptPinChange(c: ClientState, node: NodeId): (LedgerState, bool) {
    var (st, routing) := if IsParent(c, node) then AcceptRoutingChange(c.ledger, node) else (c.ledger, None);
    var (st1, leaf) := AcceptLeafChange(st, node);
    (st1, routing.Some? || leaf.Some?)
  }

  predicate IsParent(c: ClientState, node: NodeId) {
    c.local.parent.Some? && c.local.parent.value.node == node
  }

  // ---- Steps and runs ----

  datatype Step =
    | BeginJoin(request: JoinRequest, parent: NodeId, pinnedOperator: Option<OpKey>, now: nat)
    | JoinRefusedAtOnce(code: string)
    | Control(frame: Frame, now: nat)
    | LeaveDone
    | WalkDone(selfAddr: OctAddr, parent: NodeId, endpoint: NodeId -> bool, ask: Replies)
    | SendPayment(to: NodeId, amount: nat, nonce: nat, now: nat, auth: string, payee: OctAddr)
    | ReceiptIn(receipt: Receipt)
    | OrderResultIn(order: OrderResult, now: nat)
    | SettlementV2In(settlement: SettlementResult)
    | SettlementV3In(settlement: SettlementResult)
    | PinPayeeLeaf(node: NodeId, key: LedgerKey)
    | ConfirmPinFor(node: NodeId)
    | AcceptPinFor(node: NodeId)
    | DiscardLedger
    | Reload

  function ApplyStep(env: Env, c: ClientState, s: Step): ClientState {
    match s
    case BeginJoin(request, parent, pin, now) =>
      c.(local := SetOutbound(c.local, OutboundJoin(request, parent, pin, now)))
    case JoinRefusedAtOnce(code) => c.(local := RejectOutbound(c.local, code, None))
    case Control(f, now) => HandleFrame(env, c, f, now).0
    case LeaveDone => Leave(c)
    case WalkDone(selfAddr, parent, endpoint, ask) =>
      if ValidAddr(selfAddr) && |selfAddr| > 1 && Walk(selfAddr, parent, 1, endpoint, ask).0.Ok?
      then c.(cache := Some(AncestorCache(selfAddr, parent, Walk(selfAddr, parent, 1, endpoint, ask).0.value)))
      else c
    case SendPayment(to, amount, nonce, now, auth, payee) =>
      if c.local.address.Some? && c.local.parent.Some? && to != env.self
      then
        var order := PaymentOrder(env, c.local.address.value, to, amount, nonce, now, auth, payee);
        c.(ledger := PushPending(c.ledger, order))
      else c
    case PinPayeeLeaf(node, key) => c.(ledger := PinFromReceive(c.ledger, node, key).0)
    case ConfirmPinFor(node) => c.(ledger := ConfirmPin(c, node).0)
    case AcceptPinFor(node) => c.(ledger := AcceptPinChange(c, node).0)
    case DiscardLedger => c.(ledger := NEW_LEDGER)
    case Reload => c.(guard := NEW_GUARD, cache := None)
    case _ => if c.local.parent.Some? then c.(ledger := LedgerIn(env, c.ledger, s, c.local.parent.value.node).0) else c
  }

  predicate ReceiptlessStep(s: Step) {
    !s.ReceiptIn? && !s.OrderResultIn? && !s.SettlementV2In? && !s.SettlementV3In?
  }

  /** A ledger message is applied under the current parent, and dropped while there is none. */
  lemma MessageStep(env: Env, c: ClientState, s: Step)
    requires !ReceiptlessStep(s)
    ensures ApplyStep(env, c, s)
         == if c.local.parent.Some? then c.(ledger := LedgerIn(env, c.ledger, s, c.local.parent.value.node).0) else c
  {
  }

  /** The step pushes a payment: the client is joined and does not pay itself. */
  predicate PaymentSent(env: Env, c: ClientState, s: Step) {
    s.SendPayment? && c.local.address.Some? && c.local.parent.Some? && s.to != env.self
  }

  /** A ledger message from the queue, and whether it was applied. */
  function LedgerIn(env: Env, st: LedgerState, s: Step, parent: NodeId): (LedgerState, bool) {
    match s
    case ReceiptIn(r) => var (st1, v) := ApplyReceipt(env.checks, st, r, env.self, parent); (st1, v.Ok?)
    case OrderResultIn(o, now) =>
      var (st1, v) := ApplyOrderResult(env.checks, st, o, env.self, parent, now); (st1, v.Ok?)
    case SettlementV2In(r) =>
      var (st1, v) := ApplySettlement(env.checks, st, WithoutProof(r), env.self, parent); (st1, v.Ok?)
    case SettlementV3In(r) => var (st1, v) := ApplySettlement(env.checks, st, r, env.self, parent); (st1, v.Ok?)
    case _ => (st, false)
  }

  /** The client after `steps`, from a fresh client. */
  function Run(env: Env, steps: seq<Step>): ClientState {
    if steps == [] then NEW_CLIENT
    else ApplyStep(env, Run(env, steps[..|steps| - 1]), steps[|steps| - 1])
  }

  /** A fact about the client that holds after `steps` but not at the start was last made true by one step. */
  lemma Since(env: Env, steps: seq<Step>, fact: ClientState -> bool) returns (i: nat)
    requires !fact(NEW_CLIENT) && fact(Run(env, steps))
    ensures i < |steps|
    ensures !fact(Run(env, steps[..i]))
    ensures forall j :: i < j <= |steps| ==> fact(Run(env, steps[..j]))
    ensures Run(env, steps[..i + 1]) == ApplyStep(env, Run(env, steps[..i]), steps[i])
  {
    i := |steps|;
    assert steps[..i] == steps && steps[..0] == [];
    while fact(Run(env, steps[..i]))
      invariant i <= |steps|
      invariant forall j :: i < j <= |steps| ==> fact(Run(env, steps[..j]))
      decreases i
    {
      i := i - 1;
    }
    RunUnfold(env, steps, i);
  }

  lemma RunUnfold(env: Env, steps: seq<Step>, i: nat)
    requires i < |steps|
    ensures Run(env, steps[..i + 1]) == ApplyStep(env, Run(env, steps[..i]), steps[i])
  {
    assert steps[..i + 1][..i] == steps[..i];
  }
}
