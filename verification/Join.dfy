/**
 The local join state of a browser leaf: one outstanding join, the parent link
 with the asserted address, and the last rejection.
 What each operation makes of it, as a value; `JoinObject` updates it in place.
 */
module Join {
  import opened Common
  import Ancestors

  datatype OpKey = OpKey(bytes: string)

  datatype JoinRequest = JoinRequest(node: NodeId, desiredSlot: Option<nat>, nonce: nat, expiry: nat)

  datatype Approval = Approval(child: NodeId, slot: nat, address: OctAddr, nonce: nat, parentLedger: LedgerKey)

  datatype Refusing = Refusing(child: NodeId, reason: string, nonce: nat)

  datatype OutboundJoin = OutboundJoin(request: JoinRequest, parent: NodeId, pinnedOperator: Option<OpKey>, sentAt: nat)

  datatype Rejection = Rejection(code: string, reason: Option<string>)

  datatype LocalState = LocalState(
    outbound: Option<OutboundJoin>, address: Option<OctAddr>, parent: Option<Ancestors.ParentLink>,
    lastRejection: Option<Rejection>)

  const NEW_LOCAL := LocalState(None, None, None, None)

  datatype RejectCode =
    | UnauthorizedCode | NotAttachedCode | BadRequestCode | ExpiredCode
    | BadVersionCode | ReplayCode | InternalCode | NotFoundCode

  datatype Transition =
    | NotAttached
    | Denied(code: RejectCode)
    | Approved
    | JoinRejectedBy(parent: NodeId, reason: string)
    | Rebased
    | Detached
    | NoChange

  // ---- Value functions ----

  function SetOutbound(st: LocalState, o: OutboundJoin): LocalState {
    st.(outbound := Some(o), lastRejection := None)
  }

  function RejectOutbound(st: LocalState, code: string, reason: Option<string>): LocalState {
    st.(outbound := None, lastRejection := Some(Rejection(code, reason)))
  }

  /** The approval answers the outstanding join: same parent, this child, same nonce, and any pinned signer. */
  predicate ApprovalAnswers(o: OutboundJoin, self: NodeId, a: Approval, origin: NodeId, controller: OpKey) {
    && o.parent == origin
    && a.child == self
    && a.nonce == o.request.nonce
    && (o.pinnedOperator.Some? ==> o.pinnedOperator.value == controller)
  }

  /** The rejection answers it: same parent, any pinned signer, and equal nonces unless one of them is zero. */
  predicate RejectionAnswers(o: OutboundJoin, r: Refusing, origin: NodeId, controller: OpKey) {
    && o.parent == origin
    && (o.pinnedOperator.Some? ==> o.pinnedOperator.value == controller)
    && (o.request.nonce == 0 || r.nonce == 0 || r.nonce == o.request.nonce)
  }

  function OnJoinApproved(st: LocalState, self: NodeId, a: Approval, origin: NodeId, controller: OpKey):
    (LocalState, Transition)
  {
    if st.outbound.None? then (st, NotAttached)
    else if !ApprovalAnswers(st.outbound.value, self, a, origin, controller) then (st, Denied(UnauthorizedCode))
    else (LocalState(None, Some(a.address), Some(Ancestors.ParentLink(origin, a.slot)), None), Approved)
  }

  function OnJoinRejected(st: LocalState, r: Refusing, origin: NodeId, controller: OpKey): (LocalState, Transition) {
    if st.outbound.None? then (st, NoChange)
    else if !RejectionAnswers(st.outbound.value, r, origin, controller) then (st, Denied(UnauthorizedCode))
    else (RejectOutbound(st, "rejected", Some(r.reason)), JoinRejectedBy(origin, r.reason))
  }

  function ApplyRebase(st: LocalState, parentAddr: OctAddr, addr: OctAddr): (LocalState, Transition) {
    if st.parent.None? || addr != ChildAddr(parentAddr, st.parent.value.slot) then (st, Denied(UnauthorizedCode))
    else if st.address == Some(addr) then (st, NoChange)
    else (st.(address := Some(addr)), Rebased)
  }

  function ApplyDetach(st: LocalState): (LocalState, Transition) {
    if st.parent.None? && st.address.None? then (st, NoChange)
    else (st.(parent := None, address := None, outbound := None), Detached)
  }
}
