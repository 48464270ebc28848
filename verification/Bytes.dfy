/** Byte strings and the fixed-width integers written into them. */
module Bytes {

  newtype byte = x: int | 0 <= x < 256

  type bytes = seq<byte>

  type Bytes32 = b: bytes | |b| == 32 witness seq(32, i => 0 as byte)

  type U64 = x: nat | x < 0x1_0000_0000_0000_0000

  const U64_MAX: U64 := 0xFFFF_FFFF_FFFF_FFFF

  /** The number a big-endian byte string stands for. */
  function BE(s: bytes): (n: nat) {
    if s == [] then 0 else BE(s[..|s| - 1]) * 256 + s[|s| - 1] as nat
  }

  function Pow256(n: nat): (p: nat)
    ensures p >= 1
  {
    if n == 0 then 1 else 256 * Pow256(n - 1)
  }

  /** `x` in `n` big-endian bytes. */
  function ToBE(x: nat, n: nat): (s: bytes)
    ensures |s| == n
  {
    if n == 0 then [] else ToBE(x / 256, n - 1) + [(x % 256) as byte]
  }

  /** `x` in `n` little-endian bytes. */
  function ToLE(x: nat, n: nat): (s: bytes)
    ensures |s| == n
  {
    if n == 0 then [] else [(x % 256) as byte] + ToLE(x / 256, n - 1)
  }

  lemma {:induction false} BEBound(s: bytes)
    ensures BE(s) < Pow256(|s|)
  {
    if s != [] { BEBound(s[..|s| - 1]); }
  }

  lemma {:induction false} BEOfToBE(x: nat, n: nat)
    requires x < Pow256(n)
    ensures BE(ToBE(x, n)) == x
  {
    if n > 0 {
      BEOfToBE(x / 256, n - 1);
      var s := ToBE(x, n);
      assert s[..n - 1] == ToBE(x / 256, n - 1);
    }
  }

  lemma {:induction false} ToLEInjective(x: nat, y: nat, n: nat)
    requires x < Pow256(n) && y < Pow256(n) && ToLE(x, n) == ToLE(y, n)
    ensures x == y
  {
    if n > 0 {
      var a, b := ToLE(x, n), ToLE(y, n);
      assert a[0] == b[0];
      assert a[1..] == ToLE(x / 256, n - 1) && b[1..] == ToLE(y / 256, n - 1);
      ToLEInjective(x / 256, y / 256, n - 1);
    }
  }

  /** Byte-wise comparison, as slices of bytes compare: the first difference decides. */
  predicate BytesLess(a: bytes, b: bytes)
    requires |a| == |b|
  {
    a != [] && (a[0] < b[0] || (a[0] == b[0] && BytesLess(a[1..], b[1..])))
  }

  lemma {:induction false} BEFront(s: bytes)
    requires s != []
    ensures BE(s) == s[0] as nat * Pow256(|s| - 1) + BE(s[1..])
  {
    if |s| > 1 {
      var init := s[..|s| - 1];
      BEFront(init);
      assert init[1..] == s[1..][..|s| - 2];
      assert BE(s[1..]) == BE(init[1..]) * 256 + s[|s| - 1] as nat;
      assert Pow256(|s| - 1) == 256 * Pow256(|s| - 2);
      Distribute(s[0] as nat, Pow256(|s| - 2), BE(init[1..]));
    } else {
      assert s[..0] == [] && s[1..] == [];
    }
  }

  lemma Distribute(a: nat, p: nat, b: nat)
    ensures (a * p + b) * 256 == a * (256 * p) + b * 256
  {
  }

  /** Byte-wise comparison of equal lengths is numeric comparison. */
  lemma {:induction false} BytesLessIsNumeric(a: bytes, b: bytes)
    requires |a| == |b|
    ensures BytesLess(a, b) <==> BE(a) < BE(b)
  {
    if a != [] {
      BEFront(a);
      BEFront(b);
      BEBound(a[1..]);
      BEBound(b[1..]);
      BytesLessIsNumeric(a[1..], b[1..]);
      LeadingDecides(a[0] as nat, b[0] as nat, Pow256(|a| - 1), BE(a[1..]), BE(b[1..]));
    }
  }

  lemma LeadingDecides(x: nat, y: nat, p: nat, u: nat, v: nat)
    requires u < p && v < p
    ensures x < y ==> x * p + u < y * p + v
    ensures x == y ==> (x * p + u < y * p + v <==> u < v)
    ensures x > y ==> x * p + u > y * p + v
  {
    if x < y { assert y * p >= (x + 1) * p; }
    if x > y { assert x * p >= (y + 1) * p; }
  }

  // ---- Layout ----

  /** Two concatenations agree piecewise when their first pieces have one length. */
  lemma SamePieces(a: bytes, b: bytes, c: bytes, d: bytes)
    requires |a| == |c| && a + b == c + d
    ensures a == c && b == d
  {
    assert (a + b)[..|a|] == a && (c + d)[..|a|] == c;
    assert (a + b)[|a|..] == b && (c + d)[|a|..] == d;
  }

  lemma Pow256Eight()
    ensures Pow256(8) == 0x1_0000_0000_0000_0000
  {
    assert Pow256(4) == 0x1_0000_0000;
  }

  lemma NumbersAgree(x: U64, y: U64, rest: bytes, rest': bytes)
    requires ToLE(x, 8) + rest == ToLE(y, 8) + rest'
    ensures x == y && rest == rest'
  {
    Pow256Eight();
    SamePieces(ToLE(x, 8), rest, ToLE(y, 8), rest');
    ToLEInjective(x, y, 8);
  }

  /** A concrete collision of `f`. */
  ghost predicate Collide(f: bytes -> Bytes32, x: bytes, y: bytes) {
    x != y && f(x) == f(y)
  }
}
