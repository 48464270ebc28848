/** Where a client's address comes from, over every run. */
module AddressProvenance {
  import opened Common
  import opened Ancestors
  import Ledger
  import opened Client
  import ClientProps
  import Provenance
  import opened RebaseOrder

  ghost predicate LivesAt(c: ClientState, addr: OctAddr, link: ParentLink) {
    c.local.address == Some(addr) && c.local.parent == Some(link)
  }

  /** The step is the approval that names the address, or a newer rebase notice from the parent that does. */
  ghost predicate Assigns(env: Env, c: ClientState, s: Step, addr: OctAddr, link: ParentLink) {
    || (Provenance.InstallsLink(env, c, s) && s.frame.request.approval.address == addr
        && link == ParentLink(s.frame.origin, s.frame.request.approval.slot))
    || (&& s.Control? && s.frame.request.Rebase? && c.local.parent == Some(link)
        && Admissible(env, link, Arrival(s.frame, s.now))
        && s.frame.request.notice.generation > Mark(c)
        && s.frame.request.notice.addr == addr)
  }

  lemma ControlAddress(env: Env, c: ClientState, f: Frame, now: nat, addr: OctAddr, link: ParentLink)
    requires !LivesAt(c, addr, link) && LivesAt(HandleFrame(env, c, f, now).0, addr, link)
    ensures Assigns(env, c, Control(f, now), addr, link)
  {
    if f.request.Rebase? && c.local.parent.Some? {
      OneRebase(env, c, Arrival(f, now));
    }
  }

  lemma AddressStep(env: Env, c: ClientState, s: Step, addr: OctAddr, link: ParentLink)
    requires !LivesAt(c, addr, link) && LivesAt(ApplyStep(env, c, s), addr, link)
    ensures Assigns(env, c, s, addr, link)
  {
    if s.Control? { ControlAddress(env, c, s.frame, s.now, addr, link); }
  }

  /**
   Over every run the current address was assigned, under the current link, by the
   approval that installed it or by a rebase notice from that parent newer than any
   applied before; it has not changed since. A rebased address is the parent's
   address with the client's own slot.
   */
  lemma AddressWasAssigned(env: Env, steps: seq<Step>) returns (i: nat)
    requires Run(env, steps).local.address.Some?
    ensures var c := Run(env, steps);
            && c.local.parent.Some?
            && i < |steps|
            && Assigns(env, Run(env, steps[..i]), steps[i], c.local.address.value, c.local.parent.value)
            && forall j :: i < j <= |steps| ==>
                 LivesAt(Run(env, steps[..j]), c.local.address.value, c.local.parent.value)
  {
    ClientProps.ReachableIsBound(env, steps);
    var addr, link := Run(env, steps).local.address.value, Run(env, steps).local.parent.value;
    i := Since(env, steps, (c: ClientState) => LivesAt(c, addr, link));
    assert LivesAt(Run(env, steps[..i + 1]), addr, link);
    AddressStep(env, Run(env, steps[..i]), steps[i], addr, link);
  }

  /**
   An applied approval starts over: its address and link, its ledger key confirmed
   as the routing pin, and nothing left of the balance, the orders, the cache or
   the rebase mark of the edge before.
   */
  lemma ApprovalStartsOver(env: Env, c: ClientState, s: Step)
    requires Provenance.InstallsLink(env, c, s)
    ensures var a := s.frame.request.approval;
            var c1 := ApplyStep(env, c, s);
            && LivesAt(c1, a.address, ParentLink(s.frame.origin, a.slot))
            && c1.local.outbound.None?
            && c1.ledger.pinned == Some(a.parentLedger) && c1.ledger.pinnedTrust == Ledger.Confirmed
            && c1.ledger.balance.None? && c1.ledger.pending == [] && c1.cache.None? && Mark(c1) == 0
            && c1.ledger.pins == c.ledger.pins && c1.ledger.settlements == c.ledger.settlements
            && c1.ledger.activity == c.ledger.activity
  {
  }
}
