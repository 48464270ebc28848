/** What the ancestor cache of a reachable client holds, and what it resolves to. */
module CacheProps {
  import opened Common
  import opened Ancestors
  import opened Client

  /** A cache comes from a completed walk under its own key. */
  ghost predicate CacheOk(c: ClientState) {
    c.cache.Some? ==>
      && ValidAddr(c.cache.value.selfAddr) && |c.cache.value.selfAddr| > 1
      && c.cache.value.entries != []
      && c.cache.value.entries[0].node == c.cache.value.parent
      && WalkShape(c.cache.value.selfAddr, c.cache.value.entries, 1)
  }

  lemma StepKeepsCache(env: Env, c: ClientState, s: Step)
    requires CacheOk(c)
    ensures CacheOk(ApplyStep(env, c, s))
  {
    if s.WalkDone? {
      if ValidAddr(s.selfAddr) && |s.selfAddr| > 1 { WalkIsSound(s.selfAddr, s.parent, s.endpoint, s.ask); }
    } else {
      CacheOnlyDropped(env, c, s);
    }
  }

  lemma CacheOnlyDropped(env: Env, c: ClientState, s: Step)
    requires !s.WalkDone?
    ensures var c1 := ApplyStep(env, c, s); c1.cache == c.cache || c1.cache.None?
  {
  }

  /** The cache was filled for the current address and parent. */
  predicate CacheCurrent(c: ClientState) {
    && c.local.address.Some? && c.local.parent.Some? && c.cache.Some?
    && c.cache.value.selfAddr == c.local.address.value && c.cache.value.parent == c.local.parent.value.node
  }

  /** The cache is current and lists `target`. */
  ghost predicate Listed(c: ClientState, target: NodeId) {
    CacheCurrent(c) && exists i :: 0 <= i < |c.cache.value.entries| && c.cache.value.entries[i].node == target
  }

  /** What `target` resolves to while the client is joined. */
  function Resolved(c: ClientState, target: NodeId): Result<OctAddr, ResolveFault>
    requires c.local.address.Some? && c.local.parent.Some?
  {
    ResolveTarget(target, c.local.address.value, c.local.parent.value, c.cache)
  }

  lemma {:induction false} ReachableCacheOk(env: Env, steps: seq<Step>)
    ensures CacheOk(Run(env, steps))
  {
    if steps != [] {
      ReachableCacheOk(env, steps[..|steps| - 1]);
      StepKeepsCache(env, Run(env, steps[..|steps| - 1]), steps[|steps| - 1]);
    }
  }

  lemma ListedResolves(c: ClientState, target: NodeId)
    requires CacheOk(c) && Listed(c, target)
    ensures var es := c.cache.value.entries;
            && FindNode(es, target) < |es|
            && Resolved(c, target) == Ok(es[FindNode(es, target)].addr)
  {
    var es := c.cache.value.entries;
    var i :| 0 <= i < |es| && es[i].node == target;
    ShapedResolves(c.local.address.value, c.local.parent.value, es, i);
  }

  lemma UnlistedIsRefused(c: ClientState, target: NodeId)
    requires c.local.address.Some? && c.local.parent.Some?
    requires target != c.local.parent.value.node && !Listed(c, target)
    ensures Resolved(c, target).Err?
  {
  }

  /**
   Over every run, including walks that finish after their link is gone: while the
   client is joined an admin target resolves only to a proper prefix of the current
   address; a node other than the parent resolves exactly when the cache was filled
   for the current address and parent and lists it, and then to the address of its
   first entry. After a move every higher ancestor is refused until the key matches again.
   */
  lemma ReachableTargets(env: Env, steps: seq<Step>, target: NodeId)
    requires Run(env, steps).local.address.Some? && Run(env, steps).local.parent.Some?
    ensures var c := Run(env, steps);
            && (Resolved(c, target).Ok? ==> IsAncestorOf(Resolved(c, target).value, c.local.address.value))
            && (target == c.local.parent.value.node ==>
                  Resolved(c, target) == (var a := c.local.address.value;
                                          if |a| > 1 then Ok(a[..|a| - 1]) else Err(NoParentToAdminister)))
            && (target != c.local.parent.value.node ==> (Resolved(c, target).Ok? <==> Listed(c, target)))
            && (Listed(c, target) ==>
                  && FindNode(c.cache.value.entries, target) < |c.cache.value.entries|
                  && Resolved(c, target) == Ok(c.cache.value.entries[FindNode(c.cache.value.entries, target)].addr))
  {
    var c := Run(env, steps);
    ReachableCacheOk(env, steps);
    ResolvedIsAncestor(target, c.local.address.value, c.local.parent.value, c.cache);
    if Listed(c, target) { ListedResolves(c, target); }
    else if target != c.local.parent.value.node { UnlistedIsRefused(c, target); }
  }
}
