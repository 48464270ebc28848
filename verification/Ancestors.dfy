/**
 Ancestor discovery: a walk up the routing tree driven by untrusted replies, and
 the cache it fills, which must never disagree with the addresses derivable from
 the client's own assigned address.
 */
module Ancestors {
  import opened Common

  datatype AncestorEntry = AncestorEntry(node: NodeId, addr: OctAddr, depth: nat, isRoot: bool)

  datatype AncestorCache = AncestorCache(selfAddr: OctAddr, parent: NodeId, entries: seq<AncestorEntry>)

  datatype ParentLink = ParentLink(node: NodeId, slot: nat)

  datatype ParentSnapshot = ParentSnapshot(node: NodeId, addr: OctAddr)

  datatype Snapshot = Snapshot(node: NodeId, addr: Option<OctAddr>, parent: Option<ParentSnapshot>)

  datatype WalkReply = SnapshotReply(snapshot: Snapshot) | Refusal | OtherReply

  datatype WalkFault =
    | NotAnEndpoint | ExchangeFailed | WrongResponder | WrongNode | NotAStrictAncestor
    | AddressMismatch | RootAtNonRootAddress | ParentBeyondRoot | ParentAddressMismatch
    | RefusedAtParent | UnexpectedReply | JoinedAtRoot

  datatype ResolveFault = NoParentToAdminister | NotAnAncestor | StaleCache | NotDerivable

  // ---- Derivation from the client's own address ----

  /** The address `depth` levels above `self`; `None` unless that is a strict ancestor. */
  function AncestorAt(self: OctAddr, depth: nat): Option<OctAddr> {
    if depth == 0 || depth >= |self| then None
    else
      var digits := self[..|self| - depth];
      if ValidAddr(digits) then Some(digits) else None
  }

  /** Every strict ancestor address, nearest first. */
  function AncestorAddresses(self: OctAddr): (r: seq<OctAddr>)
    requires ValidAddr(self)
    ensures |r| == |self| - 1
    ensures forall d :: 1 <= d < |self| ==> AncestorAt(self, d) == Some(r[d - 1])
  {
    seq(|self| - 1, i requires 0 <= i < |self| - 1 => self[..|self| - (i + 1)])
  }

  lemma AncestorAtIsAncestor(self: OctAddr, depth: nat)
    requires ValidAddr(self)
    ensures AncestorAt(self, depth).Some? <==> 1 <= depth < |self|
    ensures var a := AncestorAt(self, depth);
            a.Some? ==> IsAncestorOf(a.value, self) && |a.value| + depth == |self|
  {
  }

  // ---- One reply ----

  /** Check one reply and derive the next ancestor to query; `None` at the root. */
  function ValidateLink(self: OctAddr, depth: nat, expected: NodeId, responder: NodeId, s: Snapshot):
    Result<Option<AncestorEntry>, WalkFault>
    requires ValidAddr(self)
  {
    if responder != expected then Err(WrongResponder)
    else if s.node != expected then Err(WrongNode)
    else
      var derived := AncestorAddresses(self);
      if depth == 0 || depth - 1 >= |derived| then Err(NotAStrictAncestor)
      else if s.addr != Some(derived[depth - 1]) then Err(AddressMismatch)
      else if s.parent.None? then
        if |derived[depth - 1]| != 1 then Err(RootAtNonRootAddress) else Ok(None)
      else if depth >= |derived| then Err(ParentBeyondRoot)
      else if s.parent.value.addr != derived[depth] then Err(ParentAddressMismatch)
      else Ok(Some(AncestorEntry(s.parent.value.node, s.parent.value.addr, depth + 1, false)))
  }

  /** Classify one reply: the next ancestor to query, and the entries with the answered one appended. */
  function WalkStep(self: OctAddr, depth: nat, expected: NodeId, reply: WalkReply, entries: seq<AncestorEntry>):
    Result<(Option<AncestorEntry>, seq<AncestorEntry>), WalkFault>
    requires ValidAddr(self)
  {
    match reply
    case SnapshotReply(s) =>
      var next := ValidateLink(self, depth, expected, expected, s);
      if next.Err? then Err(next.error)
      else
        var addr := AncestorAt(self, depth);
        if addr.None? then Err(NotAStrictAncestor)
        else Ok((next.value, entries + [AncestorEntry(expected, addr.value, depth, next.value.None?)]))
    case Refusal => if depth > 1 then Ok((None, entries)) else Err(RefusedAtParent)
    case OtherReply => Err(UnexpectedReply)
  }

  // ---- The walk ----

  /** The routed exchanges of one walk: the reply to the `i`-th query, or a transport failure. */
  type Replies = nat -> Result<WalkReply, ()>

  /** `es` is what answers `from..` of the walk establish, starting at `node` and `depth == from + 1`. */
  ghost predicate Established(self: OctAddr, node: NodeId, depth: nat, ask: Replies, es: seq<AncestorEntry>)
    decreases es
  {
    es != [] ==>
      && depth >= 1
      && es[0].node == node && es[0].depth == depth && AncestorAt(self, depth) == Some(es[0].addr)
      && ask(depth - 1).Ok? && ask(depth - 1).value.SnapshotReply?
      && var s := ask(depth - 1).value.snapshot;
         && s.node == node && s.addr == Some(es[0].addr)
         && (es[0].isRoot <==> s.parent.None?)
         && (es[0].isRoot ==> |es| == 1 && es[0].addr == [0])
         && (!es[0].isRoot ==> s.parent.value.addr == self[..|self| - depth - 1]
                               && Established(self, s.parent.value.node, depth + 1, ask, es[1..]))
  }

  /** Where the walk stands after establishing `es`: the node and depth it queries next. */
  ghost function NextNode(node: NodeId, es: seq<AncestorEntry>, depth: nat, ask: Replies): NodeId
    decreases es
  {
    if es == [] || depth == 0 then node
    else
      match ask(depth - 1)
      case Ok(SnapshotReply(s)) =>
        if s.parent.Some? then NextNode(s.parent.value.node, es[1..], depth + 1, ask) else node
      case _ => node
  }

  /** The recursive meaning of the walk from `node` at `depth`: the entries it keeps and the queries it makes. */
  function Walk(self: OctAddr, node: NodeId, depth: nat, endpoint: NodeId -> bool, ask: Replies):
    (r: (Result<seq<AncestorEntry>, WalkFault>, nat))
    requires ValidAddr(self) && 1 <= depth < |self|
    ensures r.1 <= |self| - depth
    ensures r.0.Ok? ==> Established(self, node, depth, ask, r.0.value) && |r.0.value| <= |self| - depth
    decreases |self| - depth
  {
    if !endpoint(node) then (Err(NotAnEndpoint), 0)
    else if ask(depth - 1).Err? then (Err(ExchangeFailed), 1)
    else
      var step := WalkStep(self, depth, node, ask(depth - 1).value, []);
      if step.Err? then (Err(step.error), 1)
      else if step.value.0.None? then (Ok(step.value.1), 1)
      else
        var next := step.value.0.value;
        var (rest, n) := Walk(self, next.node, depth + 1, endpoint, ask);
        var es := if rest.Ok? then step.value.1 + rest.value else [];
        assert rest.Ok? ==> es[1..] == rest.value;
        (if rest.Err? then rest else Ok(es), n + 1)
  }

  /** The walk as the client runs it: a loop over `depth`, the expected node and the entries found so far. */
  method DiscoverAncestors(self: OctAddr, parent: NodeId, endpoint: NodeId -> bool, ask: Replies)
    returns (result: Result<AncestorCache, WalkFault>, queries: nat)
    requires ValidAddr(self)
    ensures |self| == 1 ==> result == Err(JoinedAtRoot) && queries == 0
    ensures |self| > 1 ==>
              var (es, n) := Walk(self, parent, 1, endpoint, ask);
              && queries == n <= |self| - 1
              && result == if es.Ok? then Ok(AncestorCache(self, parent, es.value)) else Err(es.error)
  {
    queries := 0;
    if ParentAddr(self).None? { return Err(JoinedAtRoot), 0; }
    var entries: seq<AncestorEntry> := [];
    var depth := 1;
    var expected := parent;
    SpliceNothing(Walk(self, parent, 1, endpoint, ask));
    while true
      invariant 1 <= depth < |self| && queries == depth - 1
      invariant Splice(entries, Walk(self, expected, depth, endpoint, ask), queries)
             == Walk(self, parent, 1, endpoint, ask)
      decreases |self| - depth
    {
      WalkStops(self, expected, depth, endpoint, ask, entries, queries);
      if !endpoint(expected) { return Err(NotAnEndpoint), queries; }
      var reply := ask(queries);
      queries := queries + 1;
      if reply.Err? { return Err(ExchangeFailed), queries; }
      WalkUnfold(self, expected, depth, endpoint, ask, entries, queries - 1);
      var step := WalkStep(self, depth, expected, reply.value, entries);
      if step.Err? { return Err(step.error), queries; }
      entries := step.value.1;
      if step.value.0.None? { break; }
      expected := step.value.0.value.node;
      depth := depth + 1;
    }
    result := Ok(AncestorCache(self, parent, entries));
  }

  /** A walk continued after `entries` were kept and `q` queries made. */
  ghost function Splice(entries: seq<AncestorEntry>, tail: (Result<seq<AncestorEntry>, WalkFault>, nat), q: nat):
    (Result<seq<AncestorEntry>, WalkFault>, nat)
  {
    (if tail.0.Ok? then Ok(entries + tail.0.value) else tail.0, q + tail.1)
  }

  lemma SpliceNothing(tail: (Result<seq<AncestorEntry>, WalkFault>, nat))
    ensures Splice([], tail, 0) == tail
  {
    if tail.0.Ok? { assert [] + tail.0.value == tail.0.value; }
  }

  /** A walk whose next query cannot be made or fails. */
  lemma WalkStops(self: OctAddr, node: NodeId, depth: nat, endpoint: NodeId -> bool, ask: Replies,
                  entries: seq<AncestorEntry>, q: nat)
    requires ValidAddr(self) && 1 <= depth < |self|
    ensures !endpoint(node) ==> Splice(entries, Walk(self, node, depth, endpoint, ask), q) == (Err(NotAnEndpoint), q)
    ensures endpoint(node) && ask(depth - 1).Err? ==>
              Splice(entries, Walk(self, node, depth, endpoint, ask), q) == (Err(ExchangeFailed), q + 1)
  {
  }

  /** A walk whose next query is answered: the step decides whether it goes on. */
  lemma WalkUnfold(self: OctAddr, node: NodeId, depth: nat, endpoint: NodeId -> bool, ask: Replies,
                   entries: seq<AncestorEntry>, q: nat)
    requires ValidAddr(self) && 1 <= depth < |self|
    requires endpoint(node) && ask(depth - 1).Ok?
    ensures var whole := Splice(entries, Walk(self, node, depth, endpoint, ask), q);
            var step := WalkStep(self, depth, node, ask(depth - 1).value, entries);
            && (step.Err? ==> whole == (Err(step.error), q + 1))
            && (step.Ok? && step.value.0.None? ==> whole == (Ok(step.value.1), q + 1))
            && (step.Ok? && step.value.0.Some? ==>
                  && depth + 1 < |self|
                  && whole == Splice(step.value.1, Walk(self, step.value.0.value.node, depth + 1, endpoint, ask),
                                     q + 1))
  {
    StepAppends(self, depth, node, ask(depth - 1).value, entries);
    var step := WalkStep(self, depth, node, ask(depth - 1).value, []);
    if step.Ok? && step.value.0.Some? {
      SpliceTwice(entries, step.value.1, Walk(self, step.value.0.value.node, depth + 1, endpoint, ask), q);
    }
  }

  lemma SpliceTwice(entries: seq<AncestorEntry>, more: seq<AncestorEntry>,
                    tail: (Result<seq<AncestorEntry>, WalkFault>, nat), q: nat)
    ensures Splice(entries, Splice(more, tail, 1), q) == Splice(entries + more, tail, q + 1)
  {
    if tail.0.Ok? { assert entries + (more + tail.0.value) == (entries + more) + tail.0.value; }
  }

  lemma StepAppends(self: OctAddr, depth: nat, node: NodeId, reply: WalkReply, entries: seq<AncestorEntry>)
    requires ValidAddr(self)
    ensures var a := WalkStep(self, depth, node, reply, []);
            var b := WalkStep(self, depth, node, reply, entries);
            && a.Ok? == b.Ok?
            && (a.Err? ==> a.error == b.error)
            && (a.Ok? ==> a.value.0 == b.value.0 && b.value.1 == entries + a.value.1)
  {
  }

  // ---- What every walk establishes ----

  /** Depths `1..k` in order, each at exactly the derived prefix; only the last may be the root, at `0`. */
  ghost predicate WalkShape(self: OctAddr, entries: seq<AncestorEntry>, from: nat) {
    forall i :: 0 <= i < |entries| ==>
      && entries[i].depth == from + i
      && AncestorAt(self, from + i) == Some(entries[i].addr)
      && (entries[i].isRoot ==> i == |entries| - 1 && entries[i].addr == [0])
  }

  lemma {:induction false} EstablishedShape(self: OctAddr, node: NodeId, depth: nat, ask: Replies,
                                            es: seq<AncestorEntry>)
    requires Established(self, node, depth, ask, es)
    ensures WalkShape(self, es, depth)
    decreases es
  {
    if es != [] && !es[0].isRoot {
      var s := ask(depth - 1).value.snapshot;
      EstablishedShape(self, s.parent.value.node, depth + 1, ask, es[1..]);
      forall i | 0 <= i < |es|
        ensures es[i].depth == depth + i && AncestorAt(self, depth + i) == Some(es[i].addr)
        ensures es[i].isRoot ==> i == |es| - 1 && es[i].addr == [0]
      {
        if i > 0 { assert es[i] == es[1..][i - 1]; }
      }
    }
  }

  /**
   For every sequence of replies the walk stops within depth-1 queries, and a walk
   that completes holds depths 1..k in order, each at the prefix derived from the
   client's own address; at most the last is the root, and then it sits at `0`.
   */
  lemma WalkIsSound(self: OctAddr, parent: NodeId, endpoint: NodeId -> bool, ask: Replies)
    requires ValidAddr(self) && |self| > 1
    ensures var (es, n) := Walk(self, parent, 1, endpoint, ask);
            && n <= |self| - 1
            && (es.Ok? ==>
                  && es.value != []
                  && es.value[0].node == parent
                  && WalkShape(self, es.value, 1))
  {
    var (es, n) := Walk(self, parent, 1, endpoint, ask);
    if es.Ok? { EstablishedShape(self, parent, 1, ask, es.value); }
  }

  ghost predicate AllEndpoints(es: seq<AncestorEntry>, endpoint: NodeId -> bool) {
    forall i :: 0 <= i < |es| ==> endpoint(es[i].node)
  }

  lemma EndpointsTail(es: seq<AncestorEntry>, endpoint: NodeId -> bool)
    requires es != [] && AllEndpoints(es, endpoint)
    ensures endpoint(es[0].node) && AllEndpoints(es[1..], endpoint)
  {
  }

  /**
   A refusal above depth 1 keeps the prefix found so far: whenever answers establish
   `es` and the next query is refused, the walk completes with exactly `es`.
   */
  lemma {:induction false} RefusalKeepsPrefix(self: OctAddr, node: NodeId, depth: nat, endpoint: NodeId -> bool,
                                              ask: Replies,
                                              es: seq<AncestorEntry>)
    requires ValidAddr(self) && 1 <= depth && depth + |es| < |self|
    requires depth > 1 || es != []
    requires Established(self, node, depth, ask, es)
    requires AllEndpoints(es, endpoint)
    requires endpoint(NextNode(node, es, depth, ask))
    requires es != [] ==> !es[|es| - 1].isRoot
    requires ask(depth + |es| - 1) == Ok(Refusal)
    ensures Walk(self, node, depth, endpoint, ask) == (Ok(es), |es| + 1)
    decreases es
  {
    if es != [] {
      var s := ask(depth - 1).value.snapshot;
      assert es[0].isRoot ==> |es| == 1;
      if |es| > 1 { assert es[1..][|es| - 2] == es[|es| - 1]; }
      assert depth + 1 + |es[1..]| - 1 == depth + |es| - 1;
      EndpointsTail(es, endpoint);
      RefusalKeepsPrefix(self, s.parent.value.node, depth + 1, endpoint, ask, es[1..]);
      AnsweredStep(self, node, depth, s);
      assert [es[0]] + es[1..] == es;
    }
  }

  /** An answer at the derived addresses that names a parent is kept, and the walk goes on to that parent. */
  lemma AnsweredStep(self: OctAddr, node: NodeId, depth: nat, s: Snapshot)
    requires ValidAddr(self) && 1 <= depth && depth + 1 < |self|
    requires s.node == node && s.addr.Some? && AncestorAt(self, depth) == s.addr
    requires s.parent.Some? && s.parent.value.addr == self[..|self| - depth - 1]
    ensures WalkStep(self, depth, node, SnapshotReply(s), [])
         == Ok((Some(AncestorEntry(s.parent.value.node, s.parent.value.addr, depth + 1, false)),
                [AncestorEntry(node, s.addr.value, depth, false)]))
  {
    assert AncestorAt(self, depth + 1) == Some(AncestorAddresses(self)[depth]);
    assert ValidateLink(self, depth, node, node, s)
        == Ok(Some(AncestorEntry(s.parent.value.node, s.parent.value.addr, depth + 1, false)));
    assert [] + [AncestorEntry(node, s.addr.value, depth, false)] == [AncestorEntry(node, s.addr.value, depth, false)];
  }

  // ---- What is accepted ----

  /** A snapshot of the queried node at its derived address, at the root or naming a parent at the next one up. */
  predicate Answers(self: OctAddr, depth: nat, node: NodeId, s: Snapshot) {
    && 1 <= depth < |self|
    && s.node == node && s.addr == Some(self[..|self| - depth])
    && if s.parent.None? then |self| - depth == 1
       else |self| - depth > 1 && s.parent.value.addr == self[..|self| - depth - 1]
  }

  /**
   One reply is accepted exactly when it answers, and the answered ancestor is then
   kept and its parent queried next, or when it is a refusal above depth 1, which ends
   the walk with what was found.
   */
  lemma StepExact(self: OctAddr, depth: nat, node: NodeId, reply: WalkReply, entries: seq<AncestorEntry>)
    requires ValidAddr(self)
    ensures var step := WalkStep(self, depth, node, reply, entries);
            && (step.Ok? <==>
                  || (reply.SnapshotReply? && Answers(self, depth, node, reply.snapshot))
                  || (reply.Refusal? && depth > 1))
            && (step.Ok? && reply.Refusal? ==> step.value == (None, entries))
            && (step.Ok? && reply.SnapshotReply? ==>
                  var parent := reply.snapshot.parent;
                  && step.value.1
                     == entries + [AncestorEntry(node, self[..|self| - depth], depth, parent.None?)]
                  && step.value.0
                     == if parent.None? then None
                        else Some(AncestorEntry(parent.value.node, parent.value.addr, depth + 1, false)))
  {
    if 1 <= depth < |self| {
      assert AncestorAt(self, depth) == Some(self[..|self| - depth]);
      assert AncestorAddresses(self)[depth - 1] == self[..|self| - depth];
      if depth + 1 < |self| { assert AncestorAddresses(self)[depth] == self[..|self| - depth - 1]; }
    }
  }

  /** The honest answer of the `k`-th ancestor of `chain`, nearest first: at its own prefix, naming the next one up. */
  function HonestAnswer(self: OctAddr, chain: seq<NodeId>, k: nat): Snapshot
    requires k < |chain| < |self|
  {
    Snapshot(chain[k], Some(self[..|self| - k - 1]),
             if k == |chain| - 1 then None else Some(ParentSnapshot(chain[k + 1], self[..|self| - k - 2])))
  }

  ghost predicate HonestFrom(self: OctAddr, chain: seq<NodeId>, ask: Replies, k: nat) {
    && |chain| == |self| - 1
    && forall i: nat :: k <= i < |chain| ==> ask(i) == Ok(SnapshotReply(HonestAnswer(self, chain, i)))
  }

  function ChainEntries(self: OctAddr, chain: seq<NodeId>, k: nat): (es: seq<AncestorEntry>)
    requires k <= |chain| < |self|
    ensures |es| == |chain| - k
    decreases |chain| - k
  {
    if k == |chain| then []
    else [AncestorEntry(chain[k], self[..|self| - k - 1], k + 1, k == |chain| - 1)] + ChainEntries(self, chain, k + 1)
  }

  /**
   Honest ancestors complete the walk: with one query each it holds all of them, each
   at its own prefix, the last one the root.
   */
  lemma {:induction false} HonestWalk(self: OctAddr, chain: seq<NodeId>, endpoint: NodeId -> bool, ask: Replies, k: nat)
    requires ValidAddr(self) && k < |chain| && HonestFrom(self, chain, ask, k)
    requires forall i :: k <= i < |chain| ==> endpoint(chain[i])
    ensures Walk(self, chain[k], k + 1, endpoint, ask) == (Ok(ChainEntries(self, chain, k)), |chain| - k)
    decreases |chain| - k
  {
    var s := HonestAnswer(self, chain, k);
    StepExact(self, k + 1, chain[k], SnapshotReply(s), []);
    assert Answers(self, k + 1, chain[k], s);
    var here := AncestorEntry(chain[k], self[..|self| - k - 1], k + 1, k == |chain| - 1);
    assert [] + [here] == [here];
    if k + 1 < |chain| {
      HonestWalk(self, chain, endpoint, ask, k + 1);
    } else {
      assert [here] + ChainEntries(self, chain, k + 1) == [here];
    }
  }

  // ---- The cache ----

  /** Resolve an admin target: the parent from the link, higher ancestors from a cache keyed to this link. */
  function ResolveTarget(target: NodeId, self: OctAddr, link: ParentLink, cache: Option<AncestorCache>):
    Result<OctAddr, ResolveFault>
  {
    if target == link.node then
      var p := ParentAddr(self);
      if p.None? then Err(NoParentToAdminister) else Ok(p.value)
    else if cache.None? then Err(NotAnAncestor)
    else if cache.value.selfAddr != self || cache.value.parent != link.node then Err(StaleCache)
    else
      var i := FindNode(cache.value.entries, target);
      if i == |cache.value.entries| then Err(NotAnAncestor)
      else
        var e := cache.value.entries[i];
        var expected := AncestorAt(self, e.depth);
        if expected.None? then Err(NotAnAncestor)
        else if e.addr != expected.value then Err(NotDerivable)
        else Ok(e.addr)
  }

  function FindNode(es: seq<AncestorEntry>, node: NodeId): (i: nat)
    ensures i <= |es|
    ensures i < |es| ==> es[i].node == node
    ensures forall j :: 0 <= j < i ==> es[j].node != node
  {
    if es == [] then 0 else if es[0].node == node then 0 else 1 + FindNode(es[1..], node)
  }

  /** Whatever the cache holds, a resolved target is a proper prefix of the current address. */
  lemma ResolvedIsAncestor(target: NodeId, self: OctAddr, link: ParentLink, cache: Option<AncestorCache>)
    ensures var r := ResolveTarget(target, self, link, cache);
            r.Ok? ==> IsAncestorOf(r.value, self) && r.value != []
  {
  }

  ghost predicate DistinctNodes(es: seq<AncestorEntry>) {
    forall i, j :: 0 <= i < j < |es| ==> es[i].node != es[j].node
  }

  /** The cache of a completed walk resolves every entry to its own address exactly when node ids are distinct. */
  lemma WalkCacheResolves(self: OctAddr, link: ParentLink, endpoint: NodeId -> bool, ask: Replies)
    requires ValidAddr(self) && |self| > 1
    requires Walk(self, link.node, 1, endpoint, ask).0.Ok?
    ensures var es := Walk(self, link.node, 1, endpoint, ask).0.value;
            var cache := Some(AncestorCache(self, link.node, es));
            DistinctNodes(es)
            <==> forall i :: 0 <= i < |es| ==> ResolveTarget(es[i].node, self, link, cache) == Ok(es[i].addr)
  {
    WalkIsSound(self, link.node, endpoint, ask);
    var es := Walk(self, link.node, 1, endpoint, ask).0.value;
    ShapedCacheResolves(self, link, es);
  }

  lemma ShapedCacheResolves(self: OctAddr, link: ParentLink, es: seq<AncestorEntry>)
    requires ValidAddr(self) && |self| > 1 && WalkShape(self, es, 1) && es != [] && es[0].node == link.node
    ensures var cache := Some(AncestorCache(self, link.node, es));
            DistinctNodes(es)
            <==> forall i :: 0 <= i < |es| ==> ResolveTarget(es[i].node, self, link, cache) == Ok(es[i].addr)
  {
    var cache := Some(AncestorCache(self, link.node, es));
    if DistinctNodes(es) {
      forall i | 0 <= i < |es| ensures ResolveTarget(es[i].node, self, link, cache) == Ok(es[i].addr) {
        DistinctFinds(es, i);
        ShapedResolves(self, link, es, i);
      }
    } else {
      var i, j :| 0 <= i < j < |es| && es[i].node == es[j].node;
      RepeatedMisleads(self, link, es, i, j);
    }
  }

  lemma DistinctFinds(es: seq<AncestorEntry>, i: nat)
    requires DistinctNodes(es) && i < |es|
    ensures FindNode(es, es[i].node) == i
  {
  }

  /** The later of two entries for one node does not resolve to its own address. */
  lemma RepeatedMisleads(self: OctAddr, link: ParentLink, es: seq<AncestorEntry>, i: nat, j: nat)
    requires ValidAddr(self) && |self| > 1 && WalkShape(self, es, 1) && es != [] && es[0].node == link.node
    requires i < j < |es| && es[i].node == es[j].node
    ensures ResolveTarget(es[j].node, self, link, Some(AncestorCache(self, link.node, es))) != Ok(es[j].addr)
  {
    ShapedResolves(self, link, es, j);
    AddressesDiffer(self, es, FindNode(es, es[j].node), j);
  }

  lemma AddressesDiffer(self: OctAddr, es: seq<AncestorEntry>, i: nat, j: nat)
    requires ValidAddr(self) && WalkShape(self, es, 1) && i < j < |es|
    ensures es[i].addr != es[j].addr
  {
    assert |es[i].addr| != |es[j].addr|;
  }

  /** In a walk's cache every listed node resolves, to the address of its first entry. */
  lemma ShapedResolves(self: OctAddr, link: ParentLink, es: seq<AncestorEntry>, i: nat)
    requires ValidAddr(self) && |self| > 1 && WalkShape(self, es, 1) && i < |es| && es[0].node == link.node
    ensures FindNode(es, es[i].node) < |es|
    ensures ResolveTarget(es[i].node, self, link, Some(AncestorCache(self, link.node, es)))
         == Ok(es[FindNode(es, es[i].node)].addr)
  {
    var f := FindNode(es, es[i].node);
    assert f <= i;
    assert es[f].depth == 1 + f && AncestorAt(self, 1 + f) == Some(es[f].addr);
    if es[i].node == link.node {
      assert f == 0;
      ParentIsFirstAncestor(self);
    }
  }

  lemma ParentIsFirstAncestor(self: OctAddr)
    requires ValidAddr(self) && |self| > 1
    ensures AncestorAt(self, 1) == ParentAddr(self)
  {
  }
}
