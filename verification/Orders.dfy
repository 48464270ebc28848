/**
 Order conservation: every payment ever pushed is still pending, was resolved
 once, was evicted as the oldest of a full ring, or was cleared with its parent.
 Pushes are numbered; the book follows each number to its fate.
 */
module Orders {
  import opened Common
  import Rings
  import opened Ledger
  import LedgerProps
  import opened Client
  import ClientProps
  import Provenance

  /** Tickets are indices into `pushed`; `held` are those of the pending orders, in ring order. */
  datatype Book = Book(pushed: seq<Pending>, held: seq<nat>, resolved: seq<nat>, evicted: seq<nat>, cleared: seq<nat>)

  const NEW_BOOK := Book([], [], [], [], [])

  /** The order hash a result step resolves, if it is one. */
  function ResultHash(s: Step): Option<Hash> {
    match s
    case OrderResultIn(o, now) => Some(o.orderHash)
    case SettlementV2In(r) => Some(r.orderHash)
    case SettlementV3In(r) => Some(r.orderHash)
    case _ => None
  }

  predicate ResultApplied(env: Env, c: ClientState, s: Step) {
    ResultHash(s).Some? && c.local.parent.Some? && LedgerIn(env, c.ledger, s, c.local.parent.value.node).1
  }

  /** The parent scope ends: a link is installed or dropped, or the ledger is discarded. */
  predicate ScopeEnds(env: Env, c: ClientState, s: Step) {
    Provenance.InstallsLink(env, c, s) || (c.local.parent.Some? && ApplyStep(env, c, s).local.parent.None?)
        || s.DiscardLedger?
  }

  /** A new ticket at the back; the oldest beyond the ring's capacity are evicted. */
  function BookPush(b: Book, p: Pending): Book {
    var held := b.held + [|b.pushed|];
    var gone := if |held| > MAX_PENDING_ORDERS then |held| - MAX_PENDING_ORDERS else 0;
    b.(pushed := b.pushed + [p], held := held[gone..], evicted := b.evicted + held[..gone])
  }

  function BookResolve(b: Book, i: nat): Book
    requires i < |b.held|
  {
    b.(held := b.held[..i] + b.held[i + 1..], resolved := b.resolved + [b.held[i]])
  }

  function BookClear(b: Book): Book {
    b.(held := [], cleared := b.cleared + b.held)
  }

  /** Follow one step: what it pushes, resolves, evicts or clears. */
  function Keep(env: Env, c: ClientState, s: Step, b: Book): Book {
    if PaymentSent(env, c, s) then
      BookPush(b, PaymentOrder(env, c.local.address.value, s.to, s.amount, s.nonce, s.now, s.auth, s.payee))
    else if ResultApplied(env, c, s) then
      var i := PendingIndex(env.checks, c.ledger, ResultHash(s).value);
      if i < |b.held| then BookResolve(b, i) else b
    else if ScopeEnds(env, c, s) then BookClear(b)
    else b
  }

  function Fates(b: Book, t: nat): nat {
    multiset(b.held)[t] + multiset(b.resolved)[t] + multiset(b.evicted)[t] + multiset(b.cleared)[t]
  }

  ghost predicate Ascending(s: seq<nat>) {
    forall i, j :: 0 <= i < j < |s| ==> s[i] < s[j]
  }

  /** The pending ring lists the held tickets' orders, in push order. */
  ghost predicate Listed(pending: seq<Pending>, b: Book) {
    && |b.held| == |pending| <= MAX_PENDING_ORDERS
    && Ascending(b.held)
    && forall i :: 0 <= i < |b.held| ==> b.held[i] < |b.pushed| && pending[i] == b.pushed[b.held[i]]
  }

  /** Every ticket has exactly one fate. */
  ghost predicate Partitioned(b: Book) {
    && (forall t: nat :: Fates(b, t) == if t < |b.pushed| then 1 else 0)
    && |b.held| + |b.resolved| + |b.evicted| + |b.cleared| == |b.pushed|
  }

  ghost predicate EvictedAreOlder(b: Book) {
    forall e, i :: 0 <= e < |b.evicted| && 0 <= i < |b.held| ==> b.evicted[e] < b.held[i]
  }

  ghost predicate Balanced(pending: seq<Pending>, b: Book) {
    Listed(pending, b) && Partitioned(b) && EvictedAreOlder(b)
  }

  lemma SplitCount(s: seq<nat>, k: nat, t: nat)
    requires k <= |s|
    ensures multiset(s)[t] == multiset(s[..k])[t] + multiset(s[k..])[t]
  {
    assert s == s[..k] + s[k..];
  }

  lemma RemoveCount(s: seq<nat>, k: nat, t: nat)
    requires k < |s|
    ensures multiset(s)[t] == multiset(s[..k] + s[k + 1..])[t] + (if s[k] == t then 1 else 0)
  {
    assert s == s[..k] + [s[k]] + s[k + 1..];
  }

  // ---- The three movements ----

  lemma PushListed(pending: seq<Pending>, b: Book, p: Pending)
    requires Listed(pending, b)
    ensures Listed(Rings.Push(pending, p, MAX_PENDING_ORDERS), BookPush(b, p))
  {
  }

  lemma PushPartitioned(b: Book, p: Pending)
    requires Partitioned(b)
    ensures Partitioned(BookPush(b, p))
  {
    var b1 := BookPush(b, p);
    var held := b.held + [|b.pushed|];
    forall t: nat ensures Fates(b1, t) == if t < |b1.pushed| then 1 else 0 {
      assert Fates(b, t) == if t < |b.pushed| then 1 else 0;
      PushMoves(b.held, b.evicted, |b.pushed|, |held| - |b1.held|, t);
    }
  }

  /** A new ticket counts once among those held or evicted; every other one as often as before. */
  lemma PushMoves(held: seq<nat>, evicted: seq<nat>, ticket: nat, gone: nat, t: nat)
    requires gone <= |held| + 1
    ensures var all := held + [ticket];
            multiset(all[gone..])[t] + multiset(evicted + all[..gone])[t]
            == multiset(held)[t] + multiset(evicted)[t] + if t == ticket then 1 else 0
  {
    var all := held + [ticket];
    SplitCount(all, gone, t);
    assert multiset(evicted + all[..gone])[t] == multiset(evicted)[t] + multiset(all[..gone])[t];
  }

  lemma PushOlder(pending: seq<Pending>, b: Book, p: Pending)
    requires Listed(pending, b) && Partitioned(b) && EvictedAreOlder(b)
    ensures EvictedAreOlder(BookPush(b, p))
  {
    var b1 := BookPush(b, p);
    var held := b.held + [|b.pushed|];
    forall e, i | 0 <= e < |b1.evicted| && 0 <= i < |b1.held| ensures b1.evicted[e] < b1.held[i] {
      assert b1.held[i] == held[|held| - |b1.held| + i];
      if e < |b.evicted| {
        assert b1.evicted[e] == b.evicted[e];
        EvictedWasPushed(b, e);
      } else {
        assert b1.evicted[e] == held[e - |b.evicted|];
      }
    }
  }

  lemma EvictedWasPushed(b: Book, e: nat)
    requires Partitioned(b) && e < |b.evicted|
    ensures b.evicted[e] < |b.pushed|
  {
    assert Fates(b, b.evicted[e]) >= 1;
  }

  lemma ResolvePartitioned(b: Book, i: nat)
    requires Partitioned(b) && i < |b.held|
    ensures Partitioned(BookResolve(b, i))
  {
    var b1 := BookResolve(b, i);
    forall t: nat ensures Fates(b1, t) == if t < |b1.pushed| then 1 else 0 {
      RemoveCount(b.held, i, t);
      assert Fates(b, t) == if t < |b.pushed| then 1 else 0;
      assert multiset(b1.resolved)[t] == multiset(b.resolved)[t] + (if b.held[i] == t then 1 else 0);
    }
  }

  lemma ResolveListed(pending: seq<Pending>, b: Book, i: nat)
    requires Listed(pending, b) && EvictedAreOlder(b) && i < |b.held|
    ensures Listed(pending[..i] + pending[i + 1..], BookResolve(b, i))
    ensures EvictedAreOlder(BookResolve(b, i))
  {
    var held := BookResolve(b, i).held;
    var rest := pending[..i] + pending[i + 1..];
    forall j | 0 <= j < |held|
      ensures held[j] == b.held[if j < i then j else j + 1] && rest[j] == pending[if j < i then j else j + 1] {}
  }

  lemma ClearBalanced(pending: seq<Pending>, b: Book)
    requires Balanced(pending, b)
    ensures Balanced([], BookClear(b))
  {
    var b1 := BookClear(b);
    forall t: nat ensures Fates(b1, t) == if t < |b1.pushed| then 1 else 0 {
      assert Fates(b, t) == if t < |b.pushed| then 1 else 0;
      assert multiset(b1.cleared)[t] == multiset(b.cleared)[t] + multiset(b.held)[t];
    }
  }

  // ---- What each step does to the ring ----

  /** An applied result removes exactly the first pending order with its hash; a refused one removes none. */
  ghost predicate RemovesFirst(ck: Checks, st: LedgerState, st1: LedgerState, h: Hash) {
    var i := PendingIndex(ck, st, h);
    i < |st.pending| && st1.pending == st.pending[..i] + st.pending[i + 1..]
  }

  lemma ResultRemovesOne(env: Env, st: LedgerState, s: Step, parent: NodeId)
    ensures var (st1, applied) := LedgerIn(env, st, s, parent);
            if applied && ResultHash(s).Some? then RemovesFirst(env.checks, st, st1, ResultHash(s).value)
            else st1.pending == st.pending
  {
    if s.OrderResultIn? {
      OrderPending(env.checks, st, s.order, env.self, parent, s.now);
    } else if s.SettlementV2In? {
      SettlementPending(env.checks, st, WithoutProof(s.settlement), env.self, parent);
    } else if s.SettlementV3In? {
      SettlementPending(env.checks, st, s.settlement, env.self, parent);
    }
  }

  lemma OrderPending(ck: Checks, st: LedgerState, o: OrderResult, self: NodeId, parent: NodeId, now: nat)
    ensures var (st1, v) := ApplyOrderResult(ck, st, o, self, parent, now);
            if v.Ok? then RemovesFirst(ck, st, st1, o.orderHash) else st1.pending == st.pending
  {
    LedgerProps.OfferedFrame(ck, st, o.balance, self, parent);
  }

  lemma SettlementPending(ck: Checks, st: LedgerState, r: SettlementResult, self: NodeId, parent: NodeId)
    ensures var (st1, v) := ApplySettlement(ck, st, r, self, parent);
            if v.Ok? then RemovesFirst(ck, st, st1, r.orderHash) else st1.pending == st.pending
  {
    var i := PendingIndex(ck, st, r.orderHash);
    LedgerProps.OfferedFrame(ck, st, r.balance, self, parent);
    if i < |st.pending| {
      LedgerProps.OutcomeFrame(ck, VerifyOffered(ck, st, r.balance, self, parent).0, st.pending[i], r);
    }
  }

  lemma OtherStepPending(env: Env, c: ClientState, s: Step)
    requires ClientProps.Bound(c) && !PaymentSent(env, c, s) && ReceiptlessStep(s)
    ensures ApplyStep(env, c, s).ledger.pending == if ScopeEnds(env, c, s) then [] else c.ledger.pending
  {
  }

  lemma SentStepBalanced(env: Env, c: ClientState, s: Step, b: Book)
    requires Balanced(c.ledger.pending, b) && PaymentSent(env, c, s)
    ensures Balanced(ApplyStep(env, c, s).ledger.pending, Keep(env, c, s, b))
  {
    var p := PaymentOrder(env, c.local.address.value, s.to, s.amount, s.nonce, s.now, s.auth, s.payee);
    PushListed(c.ledger.pending, b, p);
    PushPartitioned(b, p);
    PushOlder(c.ledger.pending, b, p);
  }

  lemma ResolveBalanced(pending: seq<Pending>, b: Book, i: nat)
    requires Balanced(pending, b) && i < |pending|
    ensures Balanced(pending[..i] + pending[i + 1..], BookResolve(b, i))
  {
    ResolvePartitioned(b, i);
    ResolveListed(pending, b, i);
  }

  /** A message ends no parent scope and pushes nothing. */
  lemma MessageKept(env: Env, c: ClientState, s: Step, b: Book)
    requires !ReceiptlessStep(s)
    ensures Keep(env, c, s, b)
         == if ResultApplied(env, c, s) && PendingIndex(env.checks, c.ledger, ResultHash(s).value) < |b.held|
            then BookResolve(b, PendingIndex(env.checks, c.ledger, ResultHash(s).value)) else b
  {
    MessageStep(env, c, s);
  }

  lemma ResultStepBalanced(env: Env, c: ClientState, s: Step, b: Book)
    requires Balanced(c.ledger.pending, b) && !ReceiptlessStep(s)
    ensures Balanced(ApplyStep(env, c, s).ledger.pending, Keep(env, c, s, b))
  {
    MessageStep(env, c, s);
    MessageKept(env, c, s, b);
    if c.local.parent.Some? {
      ResultRemovesOne(env, c.ledger, s, c.local.parent.value.node);
      if ResultApplied(env, c, s) {
        ResolveBalanced(c.ledger.pending, b, PendingIndex(env.checks, c.ledger, ResultHash(s).value));
      }
    }
  }

  lemma StepBalanced(env: Env, c: ClientState, s: Step, b: Book)
    requires ClientProps.Bound(c) && Balanced(c.ledger.pending, b)
    ensures Balanced(ApplyStep(env, c, s).ledger.pending, Keep(env, c, s, b))
  {
    if PaymentSent(env, c, s) {
      SentStepBalanced(env, c, s, b);
    } else if ReceiptlessStep(s) {
      OtherStepPending(env, c, s);
      ClearBalanced(c.ledger.pending, b);
    } else {
      ResultStepBalanced(env, c, s, b);
    }
  }

  /** The book of a whole run. */
  ghost function Ledgered(env: Env, steps: seq<Step>): (b: Book)
    ensures Balanced(Run(env, steps).ledger.pending, b)
  {
    if steps == [] then NEW_BOOK
    else
      var init := steps[..|steps| - 1];
      ClientProps.ReachableIsBound(env, init);
      StepBalanced(env, Run(env, init), steps[|steps| - 1], Ledgered(env, init));
      Keep(env, Run(env, init), steps[|steps| - 1], Ledgered(env, init))
  }

  /**
   Over every run each pushed order has exactly one fate, the fates add up to the
   pushes, the pending ring lists its orders in the order they were pushed, and
   every evicted order is older than every pending one.
   */
  lemma OrdersAreConserved(env: Env, steps: seq<Step>)
    ensures var b := Ledgered(env, steps);
            var pending := Run(env, steps).ledger.pending;
            && |pending| + |b.resolved| + |b.evicted| + |b.cleared| == |b.pushed|
            && (forall t: nat :: t < |b.pushed| ==>
                  multiset(b.held)[t] + multiset(b.resolved)[t] + multiset(b.evicted)[t] + multiset(b.cleared)[t] == 1)
            && |b.held| == |pending| && Ascending(b.held)
            && (forall i :: 0 <= i < |pending| ==> b.held[i] < |b.pushed| && pending[i] == b.pushed[b.held[i]])
            && (forall e, i :: 0 <= e < |b.evicted| && 0 <= i < |b.held| ==> b.evicted[e] < b.held[i])
  {
    var b := Ledgered(env, steps);
    forall t: nat | t < |b.pushed|
      ensures multiset(b.held)[t] + multiset(b.resolved)[t] + multiset(b.evicted)[t] + multiset(b.cleared)[t] == 1
    {
      assert Fates(b, t) == 1;
    }
  }
}
