/**
 The bounded rings of the client ledger state: vectors that evict their oldest
 entry when over capacity. Two flavours are keyed (an update keeps its position,
 or a repeat is dropped), one is a plain queue.
 */
module Rings {
  import opened Common

  /** The last `n` elements of `s`, in order. */
  function LastN<T>(s: seq<T>, n: nat): seq<T> {
    if |s| <= n then s else s[|s| - n..]
  }

  function Push<T>(s: seq<T>, x: T, cap: nat): seq<T> {
    LastN(s + [x], cap)
  }

  /** The first index whose key is `k`, or `|s|` when there is none. */
  function Find<T, K(==)>(s: seq<T>, key: T -> K, k: K): (i: nat)
    ensures i <= |s|
    ensures i < |s| ==> key(s[i]) == k
    ensures forall j :: 0 <= j < i ==> key(s[j]) != k
  {
    if s == [] then 0
    else if key(s[0]) == k then 0
    else 1 + Find(s[1..], key, k)
  }

  predicate Holds<T, K(==)>(s: seq<T>, key: T -> K, k: K) {
    Find(s, key, k) < |s|
  }

  /** Replace the entry with the same key in place, or push a new one. */
  function Upsert<T, K(==)>(s: seq<T>, key: T -> K, x: T, cap: nat): seq<T> {
    var i := Find(s, key, key(x));
    if i < |s| then s[i := x] else Push(s, x, cap)
  }

  /** Drop `x` when an entry with its key is held, else push it. */
  function KeepFirst<T, K(==)>(s: seq<T>, key: T -> K, x: T, cap: nat): seq<T> {
    if Holds(s, key, key(x)) then s else Push(s, x, cap)
  }

  /** Keep only the entries whose key is not `k`. */
  function Without<T, K(==)>(s: seq<T>, key: T -> K, k: K): seq<T> {
    if s == [] then []
    else if key(s[0]) == k then Without(s[1..], key, k)
    else [s[0]] + Without(s[1..], key, k)
  }

  ghost predicate Unique<T, K>(s: seq<T>, key: T -> K) {
    forall i, j :: 0 <= i < j < |s| ==> key(s[i]) != key(s[j])
  }

  /** Evict the oldest entries one at a time until `cap` are left. */
  method EvictOldest<T>(s: seq<T>, cap: nat) returns (r: seq<T>)
    ensures r == LastN(s, cap)
  {
    r := s;
    while |r| > cap
      invariant |r| <= |s| && r == s[|s| - |r|..]
      invariant |r| < |s| ==> |r| >= cap
    {
      r := r[1..];
    }
  }

  /** Linear search, as `iter().position(..)` does it. */
  method Position<T, K(==)>(s: seq<T>, key: T -> K, k: K) returns (i: nat)
    ensures i == Find(s, key, k)
  {
    i := 0;
    while i < |s| && key(s[i]) != k
      invariant 0 <= i <= |s|
      invariant forall j :: 0 <= j < i ==> key(s[j]) != k
    {
      i := i + 1;
    }
    FindIs(s, key, k, i);
  }

  /** `Vec::retain` of the entries whose key is not `k`. */
  method Retain<T, K(==)>(s: seq<T>, key: T -> K, k: K) returns (r: seq<T>)
    ensures r == Without(s, key, k)
  {
    r := [];
    var i := |s|;
    while i > 0
      invariant 0 <= i <= |s|
      invariant r == Without(s[i..], key, k)
    {
      i := i - 1;
      assert s[i..][1..] == s[i + 1..];
      if key(s[i]) != k { r := [s[i]] + r; }
    }
    assert s[0..] == s;
  }

  lemma FindIs<T, K>(s: seq<T>, key: T -> K, k: K, i: nat)
    requires i <= |s|
    requires i < |s| ==> key(s[i]) == k
    requires forall j :: 0 <= j < i ==> key(s[j]) != k
    ensures Find(s, key, k) == i
  {
  }

  lemma {:induction false} WithoutElements<T, K>(s: seq<T>, key: T -> K, k: K)
    ensures forall x :: x in Without(s, key, k) ==> x in s && key(x) != k
    ensures forall x :: x in s && key(x) != k ==> x in Without(s, key, k)
    ensures |Without(s, key, k)| <= |s|
  {
    if s != [] {
      WithoutElements(s[1..], key, k);
      assert s == [s[0]] + s[1..];
    }
  }

  lemma {:induction false} WithoutUnique<T, K>(s: seq<T>, key: T -> K, k: K)
    requires Unique(s, key)
    ensures Unique(Without(s, key, k), key)
  {
    if s != [] {
      WithoutUnique(s[1..], key, k);
      WithoutElements(s[1..], key, k);
      var r := Without(s[1..], key, k);
      forall j | 0 <= j < |r| ensures key(r[j]) != key(s[0]) {
        var y := r[j];
        assert y in s[1..];
        var l :| 0 <= l < |s| - 1 && s[1..][l] == y;
        assert key(s[0]) != key(s[1 + l]);
      }
    }
  }

  lemma UpsertUnique<T, K>(s: seq<T>, key: T -> K, x: T, cap: nat)
    requires Unique(s, key)
    ensures Unique(Upsert(s, key, x, cap), key)
  {
    var i := Find(s, key, key(x));
    if i < |s| {
      var r := s[i := x];
      forall a, b | 0 <= a < b < |r| ensures key(r[a]) != key(r[b]) {
        assert key(s[a]) != key(s[b]);
      }
    }
  }

  // ---- Refinement of the bounded first-in-first-out map ----

  /** The ring after upserting `xs` in order into an empty ring. */
  function UpsertAll<T, K(==)>(xs: seq<T>, key: T -> K, cap: nat): seq<T> {
    if xs == [] then []
    else Upsert(UpsertAll(xs[..|xs| - 1], key, cap), key, xs[|xs| - 1], cap)
  }

  /** The keys of `xs` that were not held when they arrived, in arrival order. */
  function Insertions<T, K(==)>(xs: seq<T>, key: T -> K, cap: nat): seq<K> {
    if xs == [] then []
    else
      var init := xs[..|xs| - 1];
      var x := xs[|xs| - 1];
      var log := Insertions(init, key, cap);
      if Holds(UpsertAll(init, key, cap), key, key(x)) then log else log + [key(x)]
  }

  /** The last element of `xs` with key `k`. */
  ghost predicate IsLatest<T, K>(xs: seq<T>, key: T -> K, x: T) {
    exists j :: 0 <= j < |xs| && xs[j] == x &&
                forall l :: j < l < |xs| ==> key(xs[l]) != key(x)
  }

  ghost predicate KeysAre<T, K>(s: seq<T>, key: T -> K, ks: seq<K>) {
    |s| == |ks| && forall i :: 0 <= i < |s| ==> key(s[i]) == ks[i]
  }

  lemma LatestKept<T, K>(xs: seq<T>, key: T -> K, y: T, x: T)
    requires IsLatest(xs, key, y) && key(y) != key(x)
    ensures IsLatest(xs + [x], key, y)
  {
    var j :| 0 <= j < |xs| && xs[j] == y && forall l :: j < l < |xs| ==> key(xs[l]) != key(y);
    var ys := xs + [x];
    assert ys[j] == y;
  }

  lemma LatestNew<T, K>(xs: seq<T>, key: T -> K, x: T)
    ensures IsLatest(xs + [x], key, x)
  {
    assert (xs + [x])[|xs|] == x;
  }

  /**
   An upserting ring refines a bounded first-in-first-out map: keys are unique,
   the survivors are exactly the latest `cap` insertions in insertion order, and
   every survivor carries the latest value written under its key.
   */
  lemma {:induction false} UpsertRefinesFifoMap<T, K>(xs: seq<T>, key: T -> K, cap: nat)
    ensures var r := UpsertAll(xs, key, cap);
            && |r| <= cap
            && Unique(r, key)
            && KeysAre(r, key, LastN(Insertions(xs, key, cap), cap))
            && forall i :: 0 <= i < |r| ==> IsLatest(xs, key, r[i])
  {
    if xs != [] {
      var init := xs[..|xs| - 1];
      var x := xs[|xs| - 1];
      assert xs == init + [x];
      UpsertRefinesFifoMap(init, key, cap);
      var s := UpsertAll(init, key, cap);
      var r := Upsert(s, key, x, cap);
      UpsertUnique(s, key, x, cap);
      LatestNew(init, key, x);
      var log := Insertions(init, key, cap);
      PushKeys(s, key, log, x, cap);
      forall i | 0 <= i < |r| ensures IsLatest(xs, key, r[i]) {
        if key(r[i]) == key(x) {
          UpsertValue(s, key, x, cap, i);
        } else {
          UpsertSurvivor(s, key, x, cap, i);
          LatestKept(init, key, r[i], x);
        }
      }
    }
  }

  lemma PushKeys<T, K>(s: seq<T>, key: T -> K, log: seq<K>, x: T, cap: nat)
    requires KeysAre(s, key, LastN(log, cap))
    ensures KeysAre(Push(s, x, cap), key, LastN(log + [key(x)], cap))
    ensures Find(s, key, key(x)) < |s| ==> KeysAre(s[Find(s, key, key(x)) := x], key, LastN(log, cap))
  {
    var p, l := Push(s, x, cap), LastN(log + [key(x)], cap);
    assert |p| == |l|;
    forall i | 0 <= i < |p| ensures key(p[i]) == l[i] {
      if i < |p| - 1 {
        assert p[i] == s[|s| + 1 - |p| + i];
      }
    }
  }

  lemma UpsertValue<T, K>(s: seq<T>, key: T -> K, x: T, cap: nat, i: nat)
    requires Unique(s, key)
    requires i < |Upsert(s, key, x, cap)| && key(Upsert(s, key, x, cap)[i]) == key(x)
    ensures Upsert(s, key, x, cap)[i] == x
  {
  }

  lemma UpsertSurvivor<T, K>(s: seq<T>, key: T -> K, x: T, cap: nat, i: nat)
    requires i < |Upsert(s, key, x, cap)| && key(Upsert(s, key, x, cap)[i]) != key(x)
    ensures Upsert(s, key, x, cap)[i] in s
  {
  }

  /** Feed `xs` to a ring that drops repeats. */
  function KeepAll<T, K(==)>(s: seq<T>, xs: seq<T>, key: T -> K, cap: nat): seq<T>
    decreases xs
  {
    if xs == [] then s else KeepAll(KeepFirst(s, key, xs[0], cap), xs[1..], key, cap)
  }

  /** The elements of `xs` that `KeepAll` pushes, in order. */
  function Pushed<T, K(==)>(s: seq<T>, xs: seq<T>, key: T -> K, cap: nat): (r: seq<T>)
    ensures |r| <= |xs|
    decreases xs
  {
    if xs == [] then []
    else
      var rest := Pushed(KeepFirst(s, key, xs[0], cap), xs[1..], key, cap);
      if Holds(s, key, key(xs[0])) then rest else [xs[0]] + rest
  }

  lemma LastNOfLastN<T>(s: seq<T>, t: seq<T>, cap: nat)
    ensures LastN(LastN(s, cap) + t, cap) == LastN(s + t, cap)
  {
  }

  lemma PushThenAppend<T>(s: seq<T>, x: T, rest: seq<T>, cap: nat)
    ensures LastN(Push(s, x, cap) + rest, cap) == LastN(s + ([x] + rest), cap)
  {
    LastNOfLastN(s + [x], rest, cap);
    assert s + ([x] + rest) == (s + [x]) + rest;
  }

  /** Feeding a repeat-dropping ring appends what was new and keeps the newest `cap`. */
  lemma {:induction false} KeepAllShape<T, K>(s: seq<T>, xs: seq<T>, key: T -> K, cap: nat)
    requires |s| <= cap
    ensures KeepAll(s, xs, key, cap) == LastN(s + Pushed(s, xs, key, cap), cap)
    ensures |KeepAll(s, xs, key, cap)| <= cap
    decreases xs
  {
    if xs == [] {
      assert s + [] == s;
    } else {
      var s1 := KeepFirst(s, key, xs[0], cap);
      KeepAllShape(s1, xs[1..], key, cap);
      PushThenAppend(s, xs[0], Pushed(s1, xs[1..], key, cap), cap);
    }
  }

  lemma {:induction false} KeepAllUnique<T, K>(s: seq<T>, xs: seq<T>, key: T -> K, cap: nat)
    requires Unique(s, key)
    ensures Unique(KeepAll(s, xs, key, cap), key)
    decreases xs
  {
    if xs != [] {
      KeepFirstUnique(s, key, xs[0], cap);
      KeepAllUnique(KeepFirst(s, key, xs[0], cap), xs[1..], key, cap);
    }
  }

  lemma KeepFirstUnique<T, K>(s: seq<T>, key: T -> K, x: T, cap: nat)
    requires Unique(s, key)
    ensures Unique(KeepFirst(s, key, x, cap), key)
  {
  }

  lemma HeldBy<T, K>(s: seq<T>, key: T -> K, i: nat)
    requires i < |s|
    ensures Holds(s, key, key(s[i]))
  {
  }

  /** The ring is unchanged exactly when everything fed to it was already held. */
  lemma {:induction false} KeepAllIdentity<T, K>(s: seq<T>, xs: seq<T>, key: T -> K, cap: nat)
    requires |s| <= cap && |xs| <= cap
    ensures KeepAll(s, xs, key, cap) == s <==> forall i :: 0 <= i < |xs| ==> Holds(s, key, key(xs[i]))
    decreases xs
  {
    if xs != [] {
      if Holds(s, key, key(xs[0])) {
        KeepAllIdentity(s, xs[1..], key, cap);
        assert forall i :: 0 < i < |xs| ==> xs[i] == xs[1..][i - 1];
        assert forall i :: 0 <= i < |xs| - 1 ==> xs[1..][i] == xs[i + 1];
      } else {
        KeepAllShape(s, xs, key, cap);
        var p := Pushed(s, xs, key, cap);
        var r := KeepAll(s, xs, key, cap);
        assert p[0] == xs[0];
        assert r[|r| - |p|] == xs[0];
        HeldBy(r, key, |r| - |p|);
      }
    }
  }

  lemma {:induction false} KeepAllHoldsEach<T, K>(s: seq<T>, xs: seq<T>, key: T -> K, cap: nat, k: K)
    requires |s| + |xs| <= cap
    ensures Holds(s, key, k) ==> Holds(KeepAll(s, xs, key, cap), key, k)
    ensures (exists i :: 0 <= i < |xs| && key(xs[i]) == k) ==> Holds(KeepAll(s, xs, key, cap), key, k)
    decreases xs
  {
    if xs != [] {
      var s1 := KeepFirst(s, key, xs[0], cap);
      PushHolds(s, key, xs[0], cap, k);
      KeepAllHoldsEach(s1, xs[1..], key, cap, k);
      if i :| 0 <= i < |xs| && key(xs[i]) == k {
        if i > 0 { assert xs[1..][i - 1] == xs[i]; }
      }
    }
  }

  lemma PushHolds<T, K>(s: seq<T>, key: T -> K, x: T, cap: nat, k: K)
    requires |s| < cap
    ensures Holds(s, key, k) ==> Holds(KeepFirst(s, key, x, cap), key, k)
    ensures Holds(KeepFirst(s, key, x, cap), key, key(x))
  {
    if !Holds(s, key, key(x)) {
      HeldBy(s + [x], key, |s|);
      if Holds(s, key, k) {
        var i := Find(s, key, k);
        assert (s + [x])[i] == s[i];
        HeldBy(s + [x], key, i);
      }
    }
  }

  // ---- A ring with removal ----

  /** What happens to a keyed ring: a value is written under its key, or a key is forgotten. */
  datatype Edit<T, K> = Put(value: T) | Drop(key: K)

  function Edit1<T, K(==)>(s: seq<T>, key: T -> K, e: Edit<T, K>, cap: nat): seq<T> {
    match e
    case Put(x) => Upsert(s, key, x, cap)
    case Drop(k) => Without(s, key, k)
  }

  /** The ring after the edits, in order, from an empty ring. */
  function Edited<T, K(==)>(log: seq<Edit<T, K>>, key: T -> K, cap: nat): seq<T> {
    if log == [] then [] else Edit1(Edited(log[..|log| - 1], key, cap), key, log[|log| - 1], cap)
  }

  function Minus<K(==)>(ks: seq<K>, k: K): seq<K> {
    if ks == [] then []
    else if ks[|ks| - 1] == k then Minus(ks[..|ks| - 1], k)
    else Minus(ks[..|ks| - 1], k) + [ks[|ks| - 1]]
  }

  /** The keys inserted and not forgotten since, in the order of their insertion. */
  function LiveKeys<T, K(==)>(log: seq<Edit<T, K>>, key: T -> K, cap: nat): seq<K> {
    if log == [] then []
    else
      var init, live := log[..|log| - 1], LiveKeys(log[..|log| - 1], key, cap);
      match log[|log| - 1]
      case Put(x) => if Holds(Edited(init, key, cap), key, key(x)) then live else live + [key(x)]
      case Drop(k) => Minus(live, k)
  }

  function Keys<T, K>(s: seq<T>, key: T -> K): (ks: seq<K>)
    ensures |ks| == |s| && forall i :: 0 <= i < |s| ==> ks[i] == key(s[i])
  {
    seq(|s|, i requires 0 <= i < |s| => key(s[i]))
  }

  lemma {:induction false} MinusConcat<K>(a: seq<K>, b: seq<K>, k: K)
    ensures Minus(a + b, k) == Minus(a, k) + Minus(b, k)
  {
    if b == [] {
      assert a + b == a && Minus(a, k) + [] == Minus(a, k);
    } else {
      assert (a + b)[..|a + b| - 1] == a + b[..|b| - 1];
      MinusConcat(a, b[..|b| - 1], k);
    }
  }

  lemma MinusSuffix<K>(a: seq<K>, b: seq<K>, k: K)
    requires IsSuffix(a, b)
    ensures IsSuffix(Minus(a, k), Minus(b, k))
  {
    var front := b[..|b| - |a|];
    assert b == front + a;
    MinusConcat(front, a, k);
  }

  lemma KeysFront<T, K>(x: T, rest: seq<T>, key: T -> K)
    ensures Keys([x] + rest, key) == [key(x)] + Keys(rest, key)
  {
  }

  lemma MinusFront<K>(h: K, rest: seq<K>, k: K)
    ensures Minus([h] + rest, k) == if h == k then Minus(rest, k) else [h] + Minus(rest, k)
  {
    MinusConcat([h], rest, k);
    assert [h][..0] == [] && Minus([h], k) == if h == k then [] else [h];
    assert [] + Minus(rest, k) == Minus(rest, k);
  }

  lemma {:induction false} WithoutKeys<T, K>(s: seq<T>, key: T -> K, k: K)
    ensures Keys(Without(s, key, k), key) == Minus(Keys(s, key), k)
  {
    if s != [] {
      var rest := s[1..];
      WithoutKeys(rest, key, k);
      assert s == [s[0]] + rest;
      KeysFront(s[0], rest, key);
      MinusFront(key(s[0]), Keys(rest, key), k);
      KeysFront(s[0], Without(rest, key, k), key);
    }
  }

  lemma PutKeys<T, K>(s: seq<T>, key: T -> K, x: T, cap: nat, live: seq<K>)
    requires IsSuffix(Keys(s, key), live)
    ensures IsSuffix(Keys(Upsert(s, key, x, cap), key), if Holds(s, key, key(x)) then live else live + [key(x)])
  {
    var r := Upsert(s, key, x, cap);
    if Holds(s, key, key(x)) {
      assert Keys(r, key) == Keys(s, key);
    } else {
      var all := live + [key(x)];
      var tail := all[|all| - |r|..];
      forall i | 0 <= i < |r| ensures tail[i] == key(r[i]) {
        if i < |r| - 1 {
          assert r[i] == s[|s| + 1 - |r| + i];
          assert live[|live| - |s|..][|s| + 1 - |r| + i] == key(r[i]);
        }
      }
      assert tail == Keys(r, key);
    }
  }

  /** `x` is the last value put under its key, and the key was not forgotten after it. */
  ghost predicate IsCurrent<T, K>(log: seq<Edit<T, K>>, key: T -> K, x: T) {
    exists j :: 0 <= j < |log| && log[j] == Put(x) && Untouched(log, key, j, key(x))
  }

  /** No edit after `j` is about `k`. */
  ghost predicate Untouched<T, K>(log: seq<Edit<T, K>>, key: T -> K, j: nat, k: K) {
    forall l :: j < l < |log| ==> About(log[l], key) != k
  }

  function About<T, K>(e: Edit<T, K>, key: T -> K): K {
    match e
    case Put(x) => key(x)
    case Drop(k) => k
  }

  lemma CurrentKept<T, K>(log: seq<Edit<T, K>>, key: T -> K, e: Edit<T, K>, x: T)
    requires IsCurrent(log, key, x) && About(e, key) != key(x)
    ensures IsCurrent(log + [e], key, x)
  {
    var j :| 0 <= j < |log| && log[j] == Put(x) && Untouched(log, key, j, key(x));
    var all := log + [e];
    assert all[j] == Put(x);
    assert Untouched(all, key, j, key(x));
  }

  lemma CurrentNew<T, K>(log: seq<Edit<T, K>>, key: T -> K, x: T)
    ensures IsCurrent(log + [Put(x)], key, x)
  {
    var all := log + [Put(x)];
    assert all[|log|] == Put(x) && Untouched(all, key, |log|, key(x));
  }

  ghost predicate AllCurrent<T, K>(s: seq<T>, log: seq<Edit<T, K>>, key: T -> K) {
    forall i :: 0 <= i < |s| ==> IsCurrent(log, key, s[i])
  }

  lemma EditKeepsCurrent<T, K>(s: seq<T>, log: seq<Edit<T, K>>, key: T -> K, e: Edit<T, K>, cap: nat)
    requires Unique(s, key) && AllCurrent(s, log, key)
    ensures AllCurrent(Edit1(s, key, e, cap), log + [e], key)
  {
    var r := Edit1(s, key, e, cap);
    forall i | 0 <= i < |r| ensures IsCurrent(log + [e], key, r[i]) {
      if e.Put? {
        if key(r[i]) == key(e.value) {
          UpsertValue(s, key, e.value, cap, i);
          CurrentNew(log, key, e.value);
        } else {
          UpsertSurvivor(s, key, e.value, cap, i);
          CurrentKept(log, key, e, r[i]);
        }
      } else {
        WithoutElements(s, key, e.key);
        assert r[i] in r;
        CurrentKept(log, key, e, r[i]);
      }
    }
  }

  lemma EditUnique<T, K>(s: seq<T>, key: T -> K, e: Edit<T, K>, cap: nat)
    requires Unique(s, key)
    ensures Unique(Edit1(s, key, e, cap), key)
  {
    if e.Put? { UpsertUnique(s, key, e.value, cap); } else { WithoutUnique(s, key, e.key); }
  }

  lemma EditBounded<T, K>(s: seq<T>, key: T -> K, e: Edit<T, K>, cap: nat)
    requires |s| <= cap
    ensures |Edit1(s, key, e, cap)| <= cap
  {
    if e.Drop? { WithoutElements(s, key, e.key); }
  }

  /**
   A ring with updates in place, eviction and removal refines a bounded
   first-in-first-out map: keys are unique, the survivors are the newest of the
   insertions not forgotten since, in insertion order, and each carries the last
   value put under its key, which was not forgotten after that.
   */
  lemma {:induction false} EditsRefineFifoMap<T, K>(log: seq<Edit<T, K>>, key: T -> K, cap: nat)
    ensures var r := Edited(log, key, cap);
            && |r| <= cap
            && Unique(r, key)
            && IsSuffix(Keys(r, key), LiveKeys(log, key, cap))
            && AllCurrent(r, log, key)
  {
    if log != [] {
      var init, e := log[..|log| - 1], log[|log| - 1];
      EditsRefineFifoMap(init, key, cap);
      var s := Edited(init, key, cap);
      assert log == init + [e];
      EditUnique(s, key, e, cap);
      EditBounded(s, key, e, cap);
      EditKeepsCurrent(s, init, key, e, cap);
      if e.Put? {
        PutKeys(s, key, e.value, cap, LiveKeys(init, key, cap));
      } else {
        WithoutKeys(s, key, e.key);
        MinusSuffix(Keys(s, key), LiveKeys(init, key, cap), e.key);
      }
    }
  }

  /** While no more keys are live than the ring has room for, none is lost. */
  ghost predicate AlwaysRoom<T, K>(log: seq<Edit<T, K>>, key: T -> K, cap: nat) {
    forall i :: 0 <= i <= |log| ==> |LiveKeys(log[..i], key, cap)| <= cap
  }

  /** With room throughout, the ring holds every key inserted and not forgotten since. */
  lemma {:induction false} RoomLosesNothing<T, K>(log: seq<Edit<T, K>>, key: T -> K, cap: nat)
    requires AlwaysRoom(log, key, cap)
    ensures Keys(Edited(log, key, cap), key) == LiveKeys(log, key, cap)
  {
    if log != [] {
      var init, e := log[..|log| - 1], log[|log| - 1];
      assert forall i :: 0 <= i <= |init| ==> init[..i] == log[..i];
      assert log[..|log|] == log;
      RoomLosesNothing(init, key, cap);
      var s := Edited(init, key, cap);
      if e.Put? {
        PutKeys(s, key, e.value, cap, LiveKeys(init, key, cap));
      } else {
        WithoutKeys(s, key, e.key);
      }
    }
  }

  /** More edits, applied to a ring. */
  function EditAll<T, K(==)>(s: seq<T>, es: seq<Edit<T, K>>, key: T -> K, cap: nat): seq<T> {
    if es == [] then s else Edit1(EditAll(s, es[..|es| - 1], key, cap), key, es[|es| - 1], cap)
  }

  lemma {:induction false} EditMore<T, K>(log: seq<Edit<T, K>>, es: seq<Edit<T, K>>, key: T -> K, cap: nat)
    ensures Edited(log + es, key, cap) == EditAll(Edited(log, key, cap), es, key, cap)
  {
    if es == [] {
      assert log + es == log;
    } else {
      EditMore(log, es[..|es| - 1], key, cap);
      assert (log + es)[..|log + es| - 1] == log + es[..|es| - 1];
    }
  }
}
