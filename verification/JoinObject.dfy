/** The join state updated in place, proved to compute the functions of `Join`. */
module JoinObject {
  import opened Common
  import Ancestors
  import opened Join

  class LocalBook {
    var outbound: Option<OutboundJoin>
    var address: Option<OctAddr>
    var parent: Option<Ancestors.ParentLink>
    var lastRejection: Option<Rejection>

    function View(): LocalState
      reads this
    {
      LocalState(outbound, address, parent, lastRejection)
    }

    constructor ()
      ensures View() == NEW_LOCAL
    {
      outbound, address, parent, lastRejection := None, None, None, None;
    }

    method SetOutbound(request: JoinRequest, target: NodeId, pinnedOperator: Option<OpKey>, sentAt: nat)
      modifies this
      ensures View() == Join.SetOutbound(old(View()), OutboundJoin(request, target, pinnedOperator, sentAt))
    {
      outbound := Some(OutboundJoin(request, target, pinnedOperator, sentAt));
      lastRejection := None;
    }

    method RejectOutbound(code: string, reason: Option<string>)
      modifies this
      ensures View() == Join.RejectOutbound(old(View()), code, reason)
    {
      outbound := None;
      lastRejection := Some(Rejection(code, reason));
    }

    method OnJoinApproved(self: NodeId, a: Approval, origin: NodeId, controller: OpKey) returns (t: Transition)
      modifies this
      ensures (View(), t) == Join.OnJoinApproved(old(View()), self, a, origin, controller)
    {
      if outbound.None? { return NotAttached; }
      var o := outbound.value;
      if o.parent != origin || a.child != self { return Denied(UnauthorizedCode); }
      if a.nonce != o.request.nonce { return Denied(UnauthorizedCode); }
      if o.pinnedOperator.Some? && controller != o.pinnedOperator.value { return Denied(UnauthorizedCode); }
      parent := Some(Ancestors.ParentLink(origin, a.slot));
      address := Some(a.address);
      outbound := None;
      lastRejection := None;
      return Approved;
    }

    method OnJoinRejected(r: Refusing, origin: NodeId, controller: OpKey) returns (t: Transition)
      modifies this
      ensures (View(), t) == Join.OnJoinRejected(old(View()), r, origin, controller)
    {
      if outbound.None? { return NoChange; }
      var o := outbound.value;
      if o.parent != origin { return Denied(UnauthorizedCode); }
      if o.pinnedOperator.Some? && controller != o.pinnedOperator.value { return Denied(UnauthorizedCode); }
      if o.request.nonce != 0 && r.nonce != 0 && r.nonce != o.request.nonce { return Denied(UnauthorizedCode); }
      outbound := None;
      lastRejection := Some(Rejection("rejected", Some(r.reason)));
      return JoinRejectedBy(origin, r.reason);
    }

    method ApplyRebase(parentAddr: OctAddr, addr: OctAddr) returns (t: Transition)
      modifies this
      ensures (View(), t) == Join.ApplyRebase(old(View()), parentAddr, addr)
    {
      if parent.None? { return Denied(UnauthorizedCode); }
      if addr != ChildAddr(parentAddr, parent.value.slot) { return Denied(UnauthorizedCode); }
      if address == Some(addr) { return NoChange; }
      address := Some(addr);
      return Rebased;
    }

    method ApplyDetach() returns (t: Transition)
      modifies this
      ensures (View(), t) == Join.ApplyDetach(old(View()))
    {
      if parent.None? && address.None? { return NoChange; }
      parent := None;
      address := None;
      outbound := None;
      return Detached;
    }
  }
}
