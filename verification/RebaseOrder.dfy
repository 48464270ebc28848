/**
 Rebase convergence: whatever order rebase notices arrive in, and however often,
 the client ends at the address of the greatest generation.
 */
module RebaseOrder {
  import opened Common
  import opened Ancestors
  import opened Client

  datatype Arrival = Arrival(frame: Frame, now: nat)

  function HandleAll(env: Env, c: ClientState, arrivals: seq<Arrival>): ClientState {
    if arrivals == [] then c
    else
      var last := arrivals[|arrivals| - 1];
      HandleFrame(env, HandleAll(env, c, arrivals[..|arrivals| - 1]), last.frame, last.now).0
  }

  /** A rebase notice the client acts on while linked by `link`: authentic, current, for this client and slot. */
  predicate Admissible(env: Env, link: ParentLink, a: Arrival) {
    && a.frame.request.Rebase?
    && env.supported(a.frame.version) && a.now <= a.frame.expiry && env.signed(a.frame)
    && |a.frame.request.notice.node.text| <= MAX_NODE_ID_LEN
    && a.frame.request.notice.generation >= 1
    && a.frame.request.notice.node == env.self
    && a.frame.origin == link.node && OriginBinds(env, a.frame)
    && a.frame.request.notice.addr == ChildAddr(a.frame.request.notice.parentAddr, link.slot)
  }

  /** The generation a notice must exceed to move the client. */
  function Mark(c: ClientState): nat {
    if c.local.parent.Some? && c.guard.parent == Some(c.local.parent.value.node) then c.guard.generation else 0
  }

  function Generation(a: Arrival): nat
    requires a.frame.request.Rebase?
  {
    a.frame.request.notice.generation
  }

  function Target(a: Arrival): OctAddr
    requires a.frame.request.Rebase?
  {
    a.frame.request.notice.addr
  }

  ghost predicate AllRebases(arrivals: seq<Arrival>) {
    forall i :: 0 <= i < |arrivals| ==> arrivals[i].frame.request.Rebase?
  }

  /** One notice: an inadmissible one changes nothing, an admissible one moves the client iff it is newer. */
  lemma OneRebase(env: Env, c: ClientState, a: Arrival)
    requires a.frame.request.Rebase? && c.local.parent.Some?
    ensures var c1 := HandleFrame(env, c, a.frame, a.now).0;
            && c1.local.parent == c.local.parent && c1.local.outbound == c.local.outbound
            && c1.ledger == c.ledger && c1.cache == c.cache
            && (!Admissible(env, c.local.parent.value, a) ==> c1 == c)
            && (Admissible(env, c.local.parent.value, a) ==>
                  && Mark(c1) == (if Generation(a) > Mark(c) then Generation(a) else Mark(c))
                  && c1.local.address == (if Generation(a) > Mark(c) then Some(Target(a)) else c.local.address))
  {
  }

  /** Position `i` is the first admissible arrival of generation `g`, and none before it is newer. */
  ghost predicate FirstOf(env: Env, link: ParentLink, arrivals: seq<Arrival>, i: nat, g: nat) {
    && i < |arrivals| && Admissible(env, link, arrivals[i]) && Generation(arrivals[i]) == g
    && forall j :: 0 <= j < i && Admissible(env, link, arrivals[j]) ==> Generation(arrivals[j]) < g
  }

  /**
   What `arrivals` leave: no admissible generation above the final `mark`, and the
   address of the first arrival of that generation, or the old one when the mark
   did not move.
   */
  ghost predicate EndsAt(env: Env, link: ParentLink, arrivals: seq<Arrival>, mark0: nat, addr0: Option<OctAddr>,
                         mark: nat, addr: Option<OctAddr>) {
    && mark >= mark0
    && (forall i :: 0 <= i < |arrivals| && Admissible(env, link, arrivals[i]) ==> Generation(arrivals[i]) <= mark)
    && (mark == mark0 ==> addr == addr0)
    && (mark > mark0 ==> exists i: nat :: FirstOf(env, link, arrivals, i, mark) && addr == Some(Target(arrivals[i])))
  }

  /** Any sequence of rebase notices, admissible or not, ends at the greatest admissible generation. */
  lemma {:induction false} RebaseOutcome(env: Env, c: ClientState, arrivals: seq<Arrival>)
    requires c.local.parent.Some? && AllRebases(arrivals)
    ensures var r := HandleAll(env, c, arrivals);
            && r.local.parent == c.local.parent && r.local.outbound == c.local.outbound
            && r.ledger == c.ledger && r.cache == c.cache
            && EndsAt(env, c.local.parent.value, arrivals, Mark(c), c.local.address, Mark(r), r.local.address)
  {
    if arrivals != [] {
      var init := arrivals[..|arrivals| - 1];
      var last := arrivals[|arrivals| - 1];
      RebaseOutcome(env, c, init);
      var r0 := HandleAll(env, c, init);
      OneRebase(env, r0, last);
      var r := HandleAll(env, c, arrivals);
      assert arrivals == init + [last];
      EndsAtStep(env, c.local.parent.value, init, last, Mark(c), c.local.address, Mark(r0), r0.local.address,
                 Mark(r), r.local.address);
    }
  }

  lemma EndsAtStep(env: Env, link: ParentLink, init: seq<Arrival>, last: Arrival, mark0: nat, addr0: Option<OctAddr>,
                   mark: nat, addr: Option<OctAddr>, mark1: nat, addr1: Option<OctAddr>)
    requires EndsAt(env, link, init, mark0, addr0, mark, addr)
    requires !Admissible(env, link, last) ==> mark1 == mark && addr1 == addr
    requires Admissible(env, link, last) ==>
               && mark1 == (if Generation(last) > mark then Generation(last) else mark)
               && addr1 == (if Generation(last) > mark then Some(Target(last)) else addr)
    ensures EndsAt(env, link, init + [last], mark0, addr0, mark1, addr1)
  {
    var arrivals := init + [last];
    if mark1 > mark {
      assert FirstOf(env, link, arrivals, |init|, mark1);
    } else if mark > mark0 {
      var i: nat :| FirstOf(env, link, init, i, mark) && addr == Some(Target(init[i]));
      assert arrivals[i] == init[i];
      assert FirstOf(env, link, arrivals, i, mark1);
    }
  }

  /** The two sequences bring the same admissible notices, each any number of times and in any order. */
  ghost predicate SameNotices(env: Env, link: ParentLink, xs: seq<Arrival>, ys: seq<Arrival>) {
    AllBrought(env, link, xs, ys) && AllBrought(env, link, ys, xs)
  }

  ghost predicate AllBrought(env: Env, link: ParentLink, xs: seq<Arrival>, ys: seq<Arrival>) {
    forall i :: 0 <= i < |xs| && Admissible(env, link, xs[i]) ==> Brings(env, link, ys, xs[i])
  }

  ghost predicate Brings(env: Env, link: ParentLink, xs: seq<Arrival>, a: Arrival) {
    exists j :: 0 <= j < |xs| && Admissible(env, link, xs[j]) && xs[j].frame.request == a.frame.request
  }

  /** Position `i` holds an admissible notice of the greatest admissible generation. */
  ghost predicate IsGreatest(env: Env, link: ParentLink, xs: seq<Arrival>, i: nat) {
    && i < |xs| && Admissible(env, link, xs[i])
    && forall j :: 0 <= j < |xs| && Admissible(env, link, xs[j]) ==> Generation(xs[j]) <= Generation(xs[i])
  }

  /** The greatest admissible generation, if it is above the mark, names one address. */
  ghost predicate GreatestNamesOne(env: Env, link: ParentLink, xs: seq<Arrival>, mark: nat) {
    forall i: nat, j: nat ::
      IsGreatest(env, link, xs, i) && IsGreatest(env, link, xs, j) && Generation(xs[i]) > mark ==>
          Target(xs[i]) == Target(xs[j])
  }

  /** Any order and any duplication of the same notices ends with the same mark and the same address. */
  lemma RebaseConverges(env: Env, c: ClientState, xs: seq<Arrival>, ys: seq<Arrival>)
    requires c.local.parent.Some? && AllRebases(xs) && AllRebases(ys)
    requires SameNotices(env, c.local.parent.value, xs, ys)
    requires GreatestNamesOne(env, c.local.parent.value, xs, Mark(c))
    ensures SameEnding(env, c, xs, ys)
  {
    var link := c.local.parent.value;
    RebaseOutcome(env, c, xs);
    RebaseOutcome(env, c, ys);
    var rx, ry := HandleAll(env, c, xs), HandleAll(env, c, ys);
    SameEnd(env, link, xs, ys, Mark(c), c.local.address, Mark(rx), rx.local.address, Mark(ry), ry.local.address);
  }

  ghost predicate SameEnding(env: Env, c: ClientState, xs: seq<Arrival>, ys: seq<Arrival>) {
    var rx, ry := HandleAll(env, c, xs), HandleAll(env, c, ys);
    Mark(rx) == Mark(ry) && rx.local.address == ry.local.address
  }

  lemma SameEnd(env: Env, link: ParentLink, xs: seq<Arrival>, ys: seq<Arrival>, mark0: nat, addr0: Option<OctAddr>,
                markX: nat, addrX: Option<OctAddr>, markY: nat, addrY: Option<OctAddr>)
    requires SameNotices(env, link, xs, ys) && GreatestNamesOne(env, link, xs, mark0)
    requires EndsAt(env, link, xs, mark0, addr0, markX, addrX) && EndsAt(env, link, ys, mark0, addr0, markY, addrY)
    ensures markX == markY && addrX == addrY
  {
    MarkAtMost(env, link, xs, ys, mark0, addr0, markX, addrX, markY, addrY);
    MarkAtMost(env, link, ys, xs, mark0, addr0, markY, addrY, markX, addrX);
    if markX > mark0 {
      var i := Winner(env, link, xs, mark0, addr0, markX, addrX);
      var j := Winner(env, link, ys, mark0, addr0, markY, addrY);
      SameTarget(env, link, xs, i, ys[j], mark0);
    }
  }

  lemma Winner(env: Env, link: ParentLink, xs: seq<Arrival>, mark0: nat, addr0: Option<OctAddr>, mark: nat,
               addr: Option<OctAddr>)
    returns (i: nat)
    requires EndsAt(env, link, xs, mark0, addr0, mark, addr) && mark > mark0
    ensures FirstOf(env, link, xs, i, mark) && addr == Some(Target(xs[i]))
    ensures forall ys :: AllBrought(env, link, xs, ys) ==> Brings(env, link, ys, xs[i])
  {
    i :| FirstOf(env, link, xs, i, mark) && addr == Some(Target(xs[i]));
  }

  lemma SameTarget(env: Env, link: ParentLink, xs: seq<Arrival>, i: nat, a: Arrival, mark0: nat)
    requires GreatestNamesOne(env, link, xs, mark0) && Brings(env, link, xs, a) && a.frame.request.Rebase?
    requires IsGreatest(env, link, xs, i) && Generation(xs[i]) == Generation(a) > mark0
    ensures Target(xs[i]) == Target(a)
  {
    var k :| 0 <= k < |xs| && Admissible(env, link, xs[k]) && xs[k].frame.request == a.frame.request;
    assert IsGreatest(env, link, xs, k);
  }

  lemma MarkAtMost(env: Env, link: ParentLink, xs: seq<Arrival>, ys: seq<Arrival>, mark0: nat, addr0: Option<OctAddr>,
                   markX: nat, addrX: Option<OctAddr>, markY: nat, addrY: Option<OctAddr>)
    requires SameNotices(env, link, xs, ys)
    requires EndsAt(env, link, xs, mark0, addr0, markX, addrX) && EndsAt(env, link, ys, mark0, addr0, markY, addrY)
    ensures markX <= markY
  {
    if markX > mark0 {
      var i := Winner(env, link, xs, mark0, addr0, markX, addrX);
      Carried(env, link, ys, xs[i], markY);
    }
  }

  lemma Carried(env: Env, link: ParentLink, ys: seq<Arrival>, a: Arrival, mark: nat)
    requires Brings(env, link, ys, a) && a.frame.request.Rebase?
    requires forall i :: 0 <= i < |ys| && Admissible(env, link, ys[i]) ==> Generation(ys[i]) <= mark
    ensures Generation(a) <= mark
  {
  }

  /** An arrival of the greatest generation, put in front, brings nothing new and names the final address. */
  lemma FrontWins(env: Env, c: ClientState, xs: seq<Arrival>, i: nat)
    requires c.local.parent.Some? && AllRebases(xs)
    requires IsGreatest(env, c.local.parent.value, xs, i) && Generation(xs[i]) > Mark(c)
    ensures var ys := [xs[i]] + xs;
            && AllRebases(ys) && SameNotices(env, c.local.parent.value, xs, ys)
            && HandleAll(env, c, ys).local.address == Some(Target(xs[i]))
  {
    var link, ys := c.local.parent.value, [xs[i]] + xs;
    FrontBringsSame(env, link, xs, i);
    RebaseOutcome(env, c, ys);
    var r := HandleAll(env, c, ys);
    assert Admissible(env, link, ys[0]);
    var w := Winner(env, link, ys, Mark(c), c.local.address, Mark(r), r.local.address);
    FirstIsFront(env, link, xs, i, w, Mark(r));
  }

  lemma FrontBringsSame(env: Env, link: ParentLink, xs: seq<Arrival>, i: nat)
    requires i < |xs| && Admissible(env, link, xs[i])
    ensures SameNotices(env, link, xs, [xs[i]] + xs)
  {
    var ys := [xs[i]] + xs;
    forall j | 0 <= j < |xs| && Admissible(env, link, xs[j]) ensures Brings(env, link, ys, xs[j]) {
      assert ys[j + 1] == xs[j];
    }
    forall j | 0 <= j < |ys| && Admissible(env, link, ys[j]) ensures Brings(env, link, xs, ys[j]) {
      assert ys[j] == if j == 0 then xs[i] else xs[j - 1];
    }
  }

  lemma FirstIsFront(env: Env, link: ParentLink, xs: seq<Arrival>, i: nat, w: nat, g: nat)
    requires IsGreatest(env, link, xs, i) && FirstOf(env, link, [xs[i]] + xs, w, g)
    ensures w == 0
  {
    var ys := [xs[i]] + xs;
    assert ys[0] == xs[i];
  }

  lemma TwoTargets(env: Env, link: ParentLink, xs: seq<Arrival>, mark: nat, addr: Option<OctAddr>) returns (k: nat)
    requires !GreatestNamesOne(env, link, xs, mark)
    ensures IsGreatest(env, link, xs, k) && Generation(xs[k]) > mark && Some(Target(xs[k])) != addr
  {
    var i: nat, j: nat :| IsGreatest(env, link, xs, i) && IsGreatest(env, link, xs, j)
                          && Generation(xs[i]) > mark && Target(xs[i]) != Target(xs[j]);
    k := if addr == Some(Target(xs[i])) then j else i;
  }

  /**
   Where the greatest generation names two addresses, one of them can be brought to the front to change the
   ending.
  */
  lemma OtherEnding(env: Env, c: ClientState, xs: seq<Arrival>) returns (ys: seq<Arrival>)
    requires c.local.parent.Some? && AllRebases(xs)
    requires !GreatestNamesOne(env, c.local.parent.value, xs, Mark(c))
    ensures AllRebases(ys) && SameNotices(env, c.local.parent.value, xs, ys) && !SameEnding(env, c, xs, ys)
  {
    var k := TwoTargets(env, c.local.parent.value, xs, Mark(c), HandleAll(env, c, xs).local.address);
    FrontWins(env, c, xs, k);
    ys := [xs[k]] + xs;
  }

  /**
   Exactly when any order and any duplication of the notices `xs` ends alike: the
   greatest admissible generation above the mark names one address. Generations it
   supersedes may disagree with themselves as they like.
   */
  lemma ConvergesExactly(env: Env, c: ClientState, xs: seq<Arrival>)
    requires c.local.parent.Some? && AllRebases(xs)
    ensures GreatestNamesOne(env, c.local.parent.value, xs, Mark(c)) <==>
            forall ys :: AllRebases(ys) && SameNotices(env, c.local.parent.value, xs, ys) ==> SameEnding(env, c, xs, ys)
  {
    var link := c.local.parent.value;
    if GreatestNamesOne(env, link, xs, Mark(c)) {
      forall ys | AllRebases(ys) && SameNotices(env, link, xs, ys) ensures SameEnding(env, c, xs, ys) {
        RebaseConverges(env, c, xs, ys);
      }
    } else {
      var ys := OtherEnding(env, c, xs);
      assert AllRebases(ys) && SameNotices(env, link, xs, ys) && !SameEnding(env, c, xs, ys);
    }
  }

  /** A rebase leaves every higher cached ancestor refused until the walk is done again. */
  lemma RebaseRetiresCache(env: Env, c: ClientState, a: Arrival, target: NodeId)
    requires c.local.parent.Some? && c.cache.Some? && c.local.address == Some(c.cache.value.selfAddr)
    requires Admissible(env, c.local.parent.value, a)
    requires Generation(a) > Mark(c) && Some(Target(a)) != c.local.address
    requires target != c.local.parent.value.node
    ensures var c1 := HandleFrame(env, c, a.frame, a.now).0;
            && c1.local.address == Some(Target(a))
            && ResolveTarget(target, Target(a), c1.local.parent.value, c1.cache) == Err(StaleCache)
  {
    OneRebase(env, c, a);
  }
}
