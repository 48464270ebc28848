/**
 Stranded-claim bundles: the commitment hash chain behind a head, and the ordered
 checks of the whole bundle.
 */
module Claims {
  import opened Common
  import opened Bytes
  import opened Hex

  const STRANDED_CLAIM_VERSION: nat := 1
  const STRANDED_CLAIM_CLOCK_SKEW_SECS: nat := 300

  function Zeros(n: nat): (b: bytes)
    ensures |b| == n && forall i :: 0 <= i < n ==> b[i] == 0
  {
    seq(n, i => 0 as byte)
  }

  function ZeroHash(): Bytes32 {
    Zeros(32)
  }

  /** A point-in-time commitment, in its full byte layout. */
  datatype Commitment = Commitment(
    ledgerId: Bytes32, ledgerKey: Bytes32, height: U64, entryCount: U64,
    entryRoot: Bytes32, stateRoot: Bytes32, prev: Bytes32, issuedAt: U64)

  datatype SignedCommitment = SignedCommitment(commitment: Commitment, signature: string)

  datatype StrandedClaim = StrandedClaim(version: nat, node: string, detachedFrom: Option<string>, issuedAt: U64)

  datatype StateProof = StateProof(index: nat, treeSize: nat, path: seq<Bytes32>)

  datatype Bundle = Bundle(
    version: nat, child: string, childOperator: Bytes32, childLedger: Bytes32,
    claim: StrandedClaim, claimSignature: string, head: SignedCommitment,
    parentBalance: int, parentProof: Option<StateProof>, chain: seq<SignedCommitment>)

  /** The cryptography, left uninterpreted. */
  datatype Crypto = Crypto(
    ledgerSigned: (Bytes32, bytes, string) -> bool,
    claimSigned: (Bytes32, StrandedClaim, string) -> bool,
    commitmentHash: bytes -> Bytes32,
    isOperatorKey: bytes -> bool,
    parentIncluded: (int, StateProof, Bytes32) -> bool)

  datatype LedgerFault = LedgerMismatch | InvalidSignature | InvalidHeight | PrevHashMismatch

  datatype ClaimFault =
    | UnsupportedVersion(version: nat) | ChildOperatorMismatch | ClaimNodeMismatch | InvalidClaimSignature
    | InvalidCommitmentSignature | BrokenChain | MissingParentProof | InvalidParentProof
    | NegativeParentBalance(balance: int) | ClaimIssuedInFuture(issuedAt: U64, now: U64)

  datatype VerifiedClaim = VerifiedClaim(
    child: string, childOperator: Bytes32, detachedFrom: Option<string>, issuedAt: U64,
    parentBalance: int, height: U64)

  // ---- Commitments ----

  function CanonicalBytes(c: Commitment): bytes {
    c.ledgerId + (c.ledgerKey + (ToLE(c.height, 8) + (ToLE(c.entryCount, 8)
      + (c.entryRoot + (c.stateRoot + (c.prev + ToLE(c.issuedAt, 8)))))))
  }

  function CommitmentHash(cr: Crypto, c: Commitment): Bytes32 {
    cr.commitmentHash(CanonicalBytes(c))
  }

  /** Where each field stands in the 184 bytes. */
  lemma CommitmentLayout(c: Commitment)
    ensures var b := CanonicalBytes(c);
            && |b| == 184
            && b[..32] == c.ledgerId && b[32..64] == c.ledgerKey
            && b[64..72] == ToLE(c.height, 8) && b[72..80] == ToLE(c.entryCount, 8)
            && b[80..112] == c.entryRoot && b[112..144] == c.stateRoot && b[144..176] == c.prev
            && b[176..] == ToLE(c.issuedAt, 8)
  {
  }

  /** The fixed-width encoding determines the commitment. */
  lemma CanonicalBytesInjective(a: Commitment, b: Commitment)
    requires CanonicalBytes(a) == CanonicalBytes(b)
    ensures a == b
  {
    var tail := (c: Commitment) => c.entryRoot + (c.stateRoot + (c.prev + ToLE(c.issuedAt, 8)));
    var mid := (c: Commitment) => ToLE(c.height, 8) + (ToLE(c.entryCount, 8) + tail(c));
    SamePieces(a.ledgerId, a.ledgerKey + mid(a), b.ledgerId, b.ledgerKey + mid(b));
    SamePieces(a.ledgerKey, mid(a), b.ledgerKey, mid(b));
    NumbersAgree(a.height, b.height, ToLE(a.entryCount, 8) + tail(a), ToLE(b.entryCount, 8) + tail(b));
    NumbersAgree(a.entryCount, b.entryCount, tail(a), tail(b));
    TailInjective(a, b);
  }

  lemma TailInjective(a: Commitment, b: Commitment)
    requires a.entryRoot + (a.stateRoot + (a.prev + ToLE(a.issuedAt, 8)))
          == b.entryRoot + (b.stateRoot + (b.prev + ToLE(b.issuedAt, 8)))
    ensures a.entryRoot == b.entryRoot && a.stateRoot == b.stateRoot && a.prev == b.prev && a.issuedAt == b.issuedAt
  {
    var x, y := ToLE(a.issuedAt, 8), ToLE(b.issuedAt, 8);
    SamePieces(a.entryRoot, a.stateRoot + (a.prev + x), b.entryRoot, b.stateRoot + (b.prev + y));
    SamePieces(a.stateRoot, a.prev + x, b.stateRoot, b.prev + y);
    SamePieces(a.prev, x, b.prev, y);
    Pow256Eight();
    ToLEInjective(a.issuedAt, b.issuedAt, 8);
  }

  /** `SignedCommitment::verify`. */
  function VerifyFault(cr: Crypto, s: SignedCommitment, key: Bytes32): Option<LedgerFault> {
    if s.commitment.ledgerId != s.commitment.ledgerKey || s.commitment.ledgerKey != key then Some(LedgerMismatch)
    else if !cr.ledgerSigned(s.commitment.ledgerKey, CanonicalBytes(s.commitment), s.signature)
        then Some(InvalidSignature)
    else None
  }

  function ElementFault(cr: Crypto, s: SignedCommitment, key: Bytes32): Option<LedgerFault> {
    if VerifyFault(cr, s, key).Some? then VerifyFault(cr, s, key)
    else if s.commitment.height != s.commitment.entryCount then Some(InvalidHeight)
    else None
  }

  function LinkFault(cr: Crypto, prev: Commitment, cur: Commitment): Option<LedgerFault> {
    if cur.height <= prev.height then Some(InvalidHeight)
    else if cur.prev != CommitmentHash(cr, prev) then Some(PrevHashMismatch)
    else None
  }

  /** The first fault of a genesis-anchored chain, read on from `prev` (from the anchor when there is none). */
  function ChainFault(cr: Crypto, prev: Option<Commitment>, rest: seq<SignedCommitment>,
                      key: Bytes32): Option<LedgerFault>
    decreases rest
  {
    if rest == [] then None
    else
      if ElementFault(cr, rest[0], key).Some? then ElementFault(cr, rest[0], key)
      else if prev.None? && rest[0].commitment.prev != ZeroHash() then Some(PrevHashMismatch)
      else if prev.Some? && LinkFault(cr, prev.value, rest[0].commitment).Some?
           then LinkFault(cr, prev.value, rest[0].commitment)
      else ChainFault(cr, Some(rest[0].commitment), rest[1..], key)
  }

  /** The ledger's own chain check: the first element anchored, then one pass with a moving predecessor. */
  method VerifyChain(cr: Crypto, chain: seq<SignedCommitment>, key: Bytes32) returns (fault: Option<LedgerFault>)
    ensures fault == ChainFault(cr, None, chain, key)
  {
    if chain == [] { return None; }
    fault := ElementFault(cr, chain[0], key);
    if fault.Some? { return; }
    if chain[0].commitment.prev != ZeroHash() { return Some(PrevHashMismatch); }
    var prev := chain[0];
    for i := 1 to |chain|
      invariant ChainFault(cr, Some(prev.commitment), chain[i..], key) == ChainFault(cr, None, chain, key)
    {
      var current := chain[i];
      assert chain[i..][1..] == chain[i + 1..];
      fault := ElementFault(cr, current, key);
      if fault.Some? { return; }
      fault := LinkFault(cr, prev.commitment, current.commitment);
      if fault.Some? { return; }
      prev := current;
    }
    fault := None;
  }

  function ClaimFaultOf(f: LedgerFault): ClaimFault {
    if f.LedgerMismatch? || f.InvalidSignature? then InvalidCommitmentSignature else BrokenChain
  }

  /** The fault of the first faulty element. */
  function FirstElementFault(cr: Crypto, chain: seq<SignedCommitment>, key: Bytes32): Option<ClaimFault> {
    if chain == [] then None
    else
      var f := ElementFault(cr, chain[0], key);
      if f.Some? then Some(ClaimFaultOf(f.value)) else FirstElementFault(cr, chain[1..], key)
  }

  /** `cur` names the hash of `prev`'s bytes and stands higher. */
  predicate Follows(cr: Crypto, prev: Commitment, cur: Commitment) {
    cur.prev == cr.commitmentHash(CanonicalBytes(prev)) && prev.height < cur.height
  }

  predicate Linked(cr: Crypto, chain: seq<SignedCommitment>) {
    forall i :: 0 < i < |chain| ==> Follows(cr, chain[i - 1].commitment, chain[i].commitment)
  }

  /** What the continuity check reports for the ancestors `chain` of `head`. */
  function ContinuityFault(cr: Crypto, chain: seq<SignedCommitment>, head: SignedCommitment,
                           key: Bytes32): Option<ClaimFault> {
    if chain == [] then None
    else if FirstElementFault(cr, chain, key).Some? then FirstElementFault(cr, chain, key)
    else if chain[0].commitment.prev == ZeroHash() then
      var f := ChainFault(cr, None, chain + [head], key);
      if f.Some? then Some(ClaimFaultOf(f.value)) else None
    else if Linked(cr, chain + [head]) then None
    else Some(BrokenChain)
  }

  /** The check as the code runs it: one pass over the elements, then the anchored branch or the manual one. */
  method VerifyChainContinuity(cr: Crypto, chain: seq<SignedCommitment>, head: SignedCommitment, key: Bytes32)
    returns (fault: Option<ClaimFault>)
    ensures fault == ContinuityFault(cr, chain, head, key)
  {
    if chain == [] { return None; }
    for i := 0 to |chain|
      invariant FirstElementFault(cr, chain[i..], key) == FirstElementFault(cr, chain, key)
    {
      assert chain[i..][1..] == chain[i + 1..];
      var f := VerifyFault(cr, chain[i], key);
      if f.Some? { return Some(ClaimFaultOf(f.value)); }
      if chain[i].commitment.height != chain[i].commitment.entryCount { return Some(BrokenChain); }
    }
    if chain[0].commitment.prev == ZeroHash() {
      var full := chain;
      full := full + [head];
      var f := VerifyChain(cr, full, key);
      return if f.Some? then Some(ClaimFaultOf(f.value)) else None;
    }
    ghost var all := chain + [head];
    var prev := chain[0];
    for i := 1 to |chain|
      invariant prev == chain[i - 1]
      invariant forall j :: 0 < j < i ==> Follows(cr, all[j - 1].commitment, all[j].commitment)
    {
      var current := chain[i];
      if current.commitment.height <= prev.commitment.height
         || current.commitment.prev != CommitmentHash(cr, prev.commitment) {
        assert !Follows(cr, all[i - 1].commitment, all[i].commitment);
        return Some(BrokenChain);
      }
      prev := current;
    }
    if head.commitment.height <= prev.commitment.height
       || head.commitment.prev != CommitmentHash(cr, prev.commitment) {
      assert !Follows(cr, all[|chain| - 1].commitment, all[|chain|].commitment);
      return Some(BrokenChain);
    }
    fault := None;
  }

  // ---- What acceptance means ----

  /** The commitment is its ledger's own, that ledger is `key`, and `key` signed its bytes. */
  ghost predicate SignedUnder(cr: Crypto, s: SignedCommitment, key: Bytes32) {
    && s.commitment.ledgerId == s.commitment.ledgerKey == key
    && cr.ledgerSigned(key, CanonicalBytes(s.commitment), s.signature)
  }

  ghost predicate Sound(cr: Crypto, s: SignedCommitment, key: Bytes32) {
    SignedUnder(cr, s, key) && s.commitment.height == s.commitment.entryCount
  }

  /**
   Acceptance, without the order of the checks: every ancestor is signed and sound,
   each links to the next and the last to the head, and a chain that reaches
   genesis also has a sound head.
   */
  ghost predicate Continuous(cr: Crypto, chain: seq<SignedCommitment>, head: SignedCommitment, key: Bytes32) {
    chain != [] ==>
      && (forall i :: 0 <= i < |chain| ==> Sound(cr, chain[i], key))
      && Linked(cr, chain + [head])
      && (chain[0].commitment.prev == ZeroHash() ==> Sound(cr, head, key))
  }

  lemma {:induction false} ElementsExact(cr: Crypto, chain: seq<SignedCommitment>, key: Bytes32)
    ensures FirstElementFault(cr, chain, key).None? <==> forall i :: 0 <= i < |chain| ==> Sound(cr, chain[i], key)
  {
    if chain != [] {
      ElementsExact(cr, chain[1..], key);
      assert forall i :: 0 < i < |chain| ==> chain[i] == chain[1..][i - 1];
      assert forall i :: 0 <= i < |chain| - 1 ==> chain[1..][i] == chain[i + 1];
    }
  }

  lemma {:induction false} ChainExact(cr: Crypto, prev: Option<Commitment>, rest: seq<SignedCommitment>, key: Bytes32)
    ensures ChainFault(cr, prev, rest, key).None? <==>
            && (forall i :: 0 <= i < |rest| ==> Sound(cr, rest[i], key))
            && Linked(cr, rest)
            && (rest != [] ==> if prev.None? then rest[0].commitment.prev == ZeroHash()
                               else Follows(cr, prev.value, rest[0].commitment))
    decreases rest
  {
    if rest != [] {
      var t := rest[1..];
      ChainExact(cr, Some(rest[0].commitment), t, key);
      assert forall i :: 0 <= i < |t| ==> t[i] == rest[i + 1];
      if Sound(cr, rest[0], key) && (forall i :: 0 <= i < |t| ==> Sound(cr, t[i], key)) {
        forall i | 0 <= i < |rest| ensures Sound(cr, rest[i], key) { if i > 0 { assert rest[i] == t[i - 1]; } }
      }
      if forall i :: 0 <= i < |rest| ==> Sound(cr, rest[i], key) {
        forall i | 0 <= i < |t| ensures Sound(cr, t[i], key) { assert t[i] == rest[i + 1]; }
      }
      LinkedTail(cr, rest);
    }
  }

  lemma LinkedTail(cr: Crypto, chain: seq<SignedCommitment>)
    requires chain != []
    ensures Linked(cr, chain) <==>
            && Linked(cr, chain[1..])
            && (|chain| > 1 ==> Follows(cr, chain[0].commitment, chain[1].commitment))
  {
    var t := chain[1..];
    if Linked(cr, t) && (|chain| > 1 ==> Follows(cr, chain[0].commitment, chain[1].commitment)) {
      forall i | 0 < i < |chain| ensures Follows(cr, chain[i - 1].commitment, chain[i].commitment) {
        if i > 1 { assert Follows(cr, t[i - 2].commitment, t[i - 1].commitment); }
      }
    }
    if Linked(cr, chain) {
      forall i | 0 < i < |t| ensures Follows(cr, t[i - 1].commitment, t[i].commitment) {
        assert Follows(cr, chain[i].commitment, chain[i + 1].commitment);
      }
    }
  }

  /** The continuity check, in both of its branches, accepts exactly the continuous chains. */
  lemma ContinuityExact(cr: Crypto, chain: seq<SignedCommitment>, head: SignedCommitment, key: Bytes32)
    ensures ContinuityFault(cr, chain, head, key).None? <==> Continuous(cr, chain, head, key)
  {
    ElementsExact(cr, chain, key);
    var full := chain + [head];
    ChainExact(cr, None, full, key);
    assert full[|chain|] == head;
    assert forall i :: 0 <= i < |chain| ==> full[i] == chain[i];
  }

  /** `i` is the first unsound element, and nobody signed it. */
  ghost predicate FirstUnsigned(cr: Crypto, chain: seq<SignedCommitment>, key: Bytes32, i: nat) {
    && i < |chain| && !SignedUnder(cr, chain[i], key)
    && forall j :: 0 <= j < i ==> Sound(cr, chain[j], key)
  }

  lemma {:induction false} FirstFaultKind(cr: Crypto, chain: seq<SignedCommitment>, key: Bytes32)
    ensures FirstElementFault(cr, chain, key) == Some(InvalidCommitmentSignature)
       <==> exists i: nat :: FirstUnsigned(cr, chain, key, i)
    ensures FirstElementFault(cr, chain, key).Some? ==>
              FirstElementFault(cr, chain, key).value in {InvalidCommitmentSignature, BrokenChain}
  {
    if chain != [] {
      var t := chain[1..];
      FirstFaultKind(cr, t, key);
      if i: nat :| FirstUnsigned(cr, t, key, i) {
        if Sound(cr, chain[0], key) {
          assert forall j :: 0 < j <= i ==> chain[j] == t[j - 1];
          assert FirstUnsigned(cr, chain, key, i + 1);
        }
      }
      if i: nat :| FirstUnsigned(cr, chain, key, i) {
        if i > 0 {
          assert forall j :: 0 <= j < i ==> t[j] == chain[j + 1];
          assert FirstUnsigned(cr, t, key, i - 1);
        }
      }
      if !SignedUnder(cr, chain[0], key) { assert FirstUnsigned(cr, chain, key, 0); }
    }
  }

  /** Behind a sound past, an anchored chain whose every element is signed breaks only by a height or a link. */
  lemma {:induction false} SignedChainBreaks(cr: Crypto, prev: Option<Commitment>, rest: seq<SignedCommitment>,
                                             key: Bytes32)
    requires forall i :: 0 <= i < |rest| ==> SignedUnder(cr, rest[i], key)
    ensures var f := ChainFault(cr, prev, rest, key); f.Some? ==> ClaimFaultOf(f.value) == BrokenChain
    decreases rest
  {
    if rest != [] { SignedChainBreaks(cr, Some(rest[0].commitment), rest[1..], key); }
  }

  /**
   Behind a signed head the fault is the signature when the first unsound ancestor is
   not signed under the key, and a broken chain whenever else the chain is not continuous.
   */
  lemma ContinuityFaultIs(cr: Crypto, chain: seq<SignedCommitment>, head: SignedCommitment, key: Bytes32)
    requires SignedUnder(cr, head, key)
    ensures ContinuityFault(cr, chain, head, key)
         == if exists i: nat :: FirstUnsigned(cr, chain, key, i) then Some(InvalidCommitmentSignature)
            else if Continuous(cr, chain, head, key) then None
            else Some(BrokenChain)
  {
    FirstFaultKind(cr, chain, key);
    ElementsExact(cr, chain, key);
    ContinuityExact(cr, chain, head, key);
    if FirstElementFault(cr, chain, key).None? {
      var full := chain + [head];
      assert forall i :: 0 <= i < |full| ==> full[i] == if i < |chain| then chain[i] else head;
      SignedChainBreaks(cr, None, full, key);
    }
  }

  // ---- Agreement ----

  /** The commitments of `chain` and its head, oldest first. */
  function History(chain: seq<SignedCommitment>, head: SignedCommitment): (h: seq<Commitment>)
    ensures |h| == |chain| + 1
  {
    seq(|chain| + 1, i requires 0 <= i <= |chain| => (chain + [head])[i].commitment)
  }

  /** Counted back from the heads, one pair of the two histories' commitments collides. */
  ghost predicate HistoriesCollide(cr: Crypto, xs: seq<Commitment>, ys: seq<Commitment>) {
    exists k: nat :: CollideAt(cr, xs, ys, k)
  }

  ghost predicate CollideAt(cr: Crypto, xs: seq<Commitment>, ys: seq<Commitment>, k: nat) {
    && 1 <= k <= |xs| && k <= |ys|
    && Collide(cr.commitmentHash, CanonicalBytes(xs[|xs| - k]), CanonicalBytes(ys[|ys| - k]))
  }

  ghost predicate HashLinked(cr: Crypto, xs: seq<Commitment>) {
    forall i :: 0 < i < |xs| ==> xs[i].prev == CommitmentHash(cr, xs[i - 1]) && xs[i - 1].height < xs[i].height
  }

  lemma ContinuousLinks(cr: Crypto, chain: seq<SignedCommitment>, head: SignedCommitment, key: Bytes32)
    requires Continuous(cr, chain, head, key)
    ensures HashLinked(cr, History(chain, head))
  {
    var full, h := chain + [head], History(chain, head);
    forall i | 0 < i < |h| ensures h[i].prev == CommitmentHash(cr, h[i - 1]) && h[i - 1].height < h[i].height {
      assert Follows(cr, full[i - 1].commitment, full[i].commitment);
    }
  }

  lemma {:induction false} AgreeBack(cr: Crypto, xs: seq<Commitment>, ys: seq<Commitment>, k: nat)
    requires HashLinked(cr, xs) && HashLinked(cr, ys) && !HistoriesCollide(cr, xs, ys)
    requires xs != [] && ys != [] && xs[|xs| - 1] == ys[|ys| - 1]
    requires 1 <= k <= |xs| && k <= |ys|
    ensures xs[|xs| - k] == ys[|ys| - k]
  {
    if k > 1 {
      AgreeBack(cr, xs, ys, k - 1);
      var a, b := xs[|xs| - k], ys[|ys| - k];
      assert xs[|xs| - k + 1].prev == CommitmentHash(cr, a) && ys[|ys| - k + 1].prev == CommitmentHash(cr, b);
      assert !CollideAt(cr, xs, ys, k);
      CanonicalBytesInjective(a, b);
    }
  }

  /** One linked history ends in the other, or two of their commitments collide. */
  lemma HistoriesAgree(cr: Crypto, xs: seq<Commitment>, ys: seq<Commitment>)
    requires HashLinked(cr, xs) && HashLinked(cr, ys)
    requires xs != [] && ys != [] && xs[|xs| - 1] == ys[|ys| - 1]
    ensures IsSuffix(xs, ys) || IsSuffix(ys, xs) || HistoriesCollide(cr, xs, ys)
  {
    if !HistoriesCollide(cr, xs, ys) {
      TailsAgree(cr, xs, ys, if |xs| <= |ys| then |xs| else |ys|);
      assert xs[0..] == xs && ys[0..] == ys;
    }
  }

  lemma TailsAgree(cr: Crypto, xs: seq<Commitment>, ys: seq<Commitment>, n: nat)
    requires HashLinked(cr, xs) && HashLinked(cr, ys) && !HistoriesCollide(cr, xs, ys)
    requires xs != [] && ys != [] && xs[|xs| - 1] == ys[|ys| - 1]
    requires n <= |xs| && n <= |ys|
    ensures xs[|xs| - n..] == ys[|ys| - n..]
  {
    var a, b := xs[|xs| - n..], ys[|ys| - n..];
    forall i | 0 <= i < n ensures a[i] == b[i] {
      AgreeBack(cr, xs, ys, n - i);
    }
  }

  lemma {:induction false} HeightsRise(cr: Crypto, xs: seq<Commitment>, i: nat, j: nat)
    requires HashLinked(cr, xs) && i < j < |xs|
    ensures xs[i].height < xs[j].height
  {
    if i < j - 1 { HeightsRise(cr, xs, i, j - 1); }
  }

  /**
   Two accepted chains that end at one head commitment: the commitments of one are a
   suffix of the other's, or a collision is exhibited, whichever branches accepted
   them. If both reach genesis they are the same, unless a commitment of one hashes
   to zero. Heights rise strictly along each.
   */
  lemma AcceptedChainsAgree(cr: Crypto, chain: seq<SignedCommitment>, head: SignedCommitment, key: Bytes32,
                            chain': seq<SignedCommitment>, head': SignedCommitment, key': Bytes32)
    requires ContinuityFault(cr, chain, head, key).None? && ContinuityFault(cr, chain', head', key').None?
    requires head.commitment == head'.commitment
    ensures var xs, ys := History(chain, head), History(chain', head');
            && (IsSuffix(xs, ys) || IsSuffix(ys, xs) || HistoriesCollide(cr, xs, ys))
            && (xs[0].prev == ZeroHash() && ys[0].prev == ZeroHash() ==>
                  xs == ys || HistoriesCollide(cr, xs, ys) || HashesToZero(cr, xs) || HashesToZero(cr, ys))
            && (forall i, j :: 0 <= i < j < |xs| ==> xs[i].height < xs[j].height)
  {
    ContinuityExact(cr, chain, head, key);
    ContinuityExact(cr, chain', head', key');
    ContinuousLinks(cr, chain, head, key);
    ContinuousLinks(cr, chain', head', key');
    var xs, ys := History(chain, head), History(chain', head');
    HistoriesAgree(cr, xs, ys);
    AnchorEnds(cr, xs, ys);
    AnchorEnds(cr, ys, xs);
    forall i: nat, j: nat | i < j < |xs| ensures xs[i].height < xs[j].height { HeightsRise(cr, xs, i, j); }
  }

  ghost predicate HashesToZero(cr: Crypto, xs: seq<Commitment>) {
    exists i :: 0 <= i < |xs| && CommitmentHash(cr, xs[i]) == ZeroHash()
  }

  /** Nothing lies before an anchored history, unless its predecessor hashes to zero. */
  lemma AnchorEnds(cr: Crypto, xs: seq<Commitment>, ys: seq<Commitment>)
    requires xs != [] && HashLinked(cr, ys)
    ensures IsSuffix(xs, ys) && xs[0].prev == ZeroHash() ==> xs == ys || HashesToZero(cr, ys)
  {
    if IsSuffix(xs, ys) && xs[0].prev == ZeroHash() && |xs| < |ys| {
      var j := |ys| - |xs|;
      assert ys[j] == ys[j..][0] == xs[0];
      assert CommitmentHash(cr, ys[j - 1]) == ZeroHash();
    }
  }

  // ---- The bundle ----

  /** The operator key a canonical node id spells. */
  function OperatorNamedBy(cr: Crypto, node: string): Option<bytes> {
    var b := HexValue(node);
    if b.Some? && cr.isOperatorKey(b.value) then b else None
  }

  function Latest(now: U64): U64 {
    if now > U64_MAX - STRANDED_CLAIM_CLOCK_SKEW_SECS then U64_MAX else now + STRANDED_CLAIM_CLOCK_SKEW_SECS
  }

  function When(bad: bool, f: ClaimFault): Option<ClaimFault> {
    if bad then Some(f) else None
  }

  function ProofFault(cr: Crypto, b: Bundle): Option<ClaimFault> {
    if b.parentProof.Some?
    then When(!cr.parentIncluded(b.parentBalance, b.parentProof.value, b.head.commitment.stateRoot), InvalidParentProof)
    else When(b.parentBalance != 0, MissingParentProof)
  }

  /** What the checks of the claimant say, in the order they are made. */
  function IdentityChecks(cr: Crypto, b: Bundle, now: U64): seq<Option<ClaimFault>> {
    [ When(b.version != STRANDED_CLAIM_VERSION, UnsupportedVersion(b.version)),
      When(OperatorNamedBy(cr, b.child) != Some(b.childOperator), ChildOperatorMismatch),
      When(b.claim.version != STRANDED_CLAIM_VERSION, UnsupportedVersion(b.claim.version)),
      When(!cr.claimSigned(b.childOperator, b.claim, b.claimSignature), InvalidClaimSignature),
      When(b.claim.node != b.child, ClaimNodeMismatch),
      When(b.claim.issuedAt > Latest(now), ClaimIssuedInFuture(b.claim.issuedAt, now)) ]
  }

  /** What the checks of the carried evidence say, in the order they are made. */
  function EvidenceChecks(cr: Crypto, b: Bundle): seq<Option<ClaimFault>> {
    [ When(VerifyFault(cr, b.head, b.childLedger).Some?, InvalidCommitmentSignature),
      ContinuityFault(cr, b.chain, b.head, b.childLedger),
      When(b.parentBalance < 0, NegativeParentBalance(b.parentBalance)),
      ProofFault(cr, b) ]
  }

  /** All checks of the bundle, in order. */
  function Checks(cr: Crypto, b: Bundle, now: U64): seq<Option<ClaimFault>> {
    IdentityChecks(cr, b, now) + EvidenceChecks(cr, b)
  }

  predicate AllPass(checks: seq<Option<ClaimFault>>) {
    forall i :: 0 <= i < |checks| ==> checks[i].None?
  }

  /** `i` is the first check that reports a fault. */
  predicate FirstFault(checks: seq<Option<ClaimFault>>, i: nat) {
    i < |checks| && checks[i].Some? && forall j :: 0 <= j < i ==> checks[j].None?
  }

  /** `fault` is what the first faulty check reports, or nothing when all pass. */
  ghost predicate IsVerdict(checks: seq<Option<ClaimFault>>, fault: Option<ClaimFault>) {
    if fault.None? then AllPass(checks) else exists i: nat :: FirstFault(checks, i) && checks[i] == fault
  }

  lemma VerdictOfBoth(a: seq<Option<ClaimFault>>, b: seq<Option<ClaimFault>>, first: Option<ClaimFault>,
                      second: Option<ClaimFault>)
    requires IsVerdict(a, first) && (first.None? ==> IsVerdict(b, second))
    ensures IsVerdict(a + b, if first.Some? then first else second)
  {
    if first.Some? {
      var i: nat :| FirstFault(a, i) && a[i] == first;
      assert FirstFault(a + b, i);
    } else if second.Some? {
      var i: nat :| FirstFault(b, i) && b[i] == second;
      assert FirstFault(a + b, |a| + i);
    }
  }

  method CheckIdentity(cr: Crypto, b: Bundle, now: U64) returns (fault: Option<ClaimFault>)
    ensures IsVerdict(IdentityChecks(cr, b, now), fault)
  {
    ghost var checks := IdentityChecks(cr, b, now);
    if b.version != STRANDED_CLAIM_VERSION {
      assert FirstFault(checks, 0);
      return Some(UnsupportedVersion(b.version));
    }
    var named := OperatorNamed(cr, b.child);
    if named != Some(b.childOperator) {
      assert FirstFault(checks, 1);
      return Some(ChildOperatorMismatch);
    }
    if b.claim.version != STRANDED_CLAIM_VERSION {
      assert FirstFault(checks, 2);
      return Some(UnsupportedVersion(b.claim.version));
    }
    if !cr.claimSigned(b.childOperator, b.claim, b.claimSignature) {
      assert FirstFault(checks, 3);
      return Some(InvalidClaimSignature);
    }
    if b.claim.node != b.child {
      assert FirstFault(checks, 4);
      return Some(ClaimNodeMismatch);
    }
    if b.claim.issuedAt > Latest(now) {
      assert FirstFault(checks, 5);
      return Some(ClaimIssuedInFuture(b.claim.issuedAt, now));
    }
    fault := None;
  }

  method CheckEvidence(cr: Crypto, b: Bundle) returns (fault: Option<ClaimFault>)
    ensures IsVerdict(EvidenceChecks(cr, b), fault)
  {
    ghost var checks := EvidenceChecks(cr, b);
    if VerifyFault(cr, b.head, b.childLedger).Some? {
      assert FirstFault(checks, 0);
      return Some(InvalidCommitmentSignature);
    }
    var broken := VerifyChainContinuity(cr, b.chain, b.head, b.childLedger);
    if broken.Some? {
      assert FirstFault(checks, 1);
      return broken;
    }
    if b.parentBalance < 0 {
      assert FirstFault(checks, 2);
      return Some(NegativeParentBalance(b.parentBalance));
    }
    if b.parentProof.Some? {
      if !cr.parentIncluded(b.parentBalance, b.parentProof.value, b.head.commitment.stateRoot) {
        assert FirstFault(checks, 3);
        return Some(InvalidParentProof);
      }
    } else if b.parentBalance != 0 {
      assert FirstFault(checks, 3);
      return Some(MissingParentProof);
    }
    fault := None;
  }

  /** The verdict is the first fault in the fixed order of checks; without one the claim is passed on. */
  method VerifyBundle(cr: Crypto, b: Bundle, now: U64) returns (r: Result<VerifiedClaim, ClaimFault>)
    ensures IsVerdict(Checks(cr, b, now), if r.Err? then Some(r.error) else None)
    ensures (if r.Err? then Some(r.error) else None) == NamedVerdict(cr, b, now)
    ensures r.Ok? ==> r.value == VerifiedClaim(b.child, b.childOperator, b.claim.detachedFrom, b.claim.issuedAt,
                                               b.parentBalance, b.head.commitment.height)
  {
    var fault := CheckIdentity(cr, b, now);
    ghost var identity := fault;
    if fault.None? { fault := CheckEvidence(cr, b); }
    VerdictOfBoth(IdentityChecks(cr, b, now), EvidenceChecks(cr, b), identity, fault);
    VerdictIsNamed(cr, b, now, fault);
    if fault.Some? { return Err(fault.value); }
    r := Ok(VerifiedClaim(b.child, b.childOperator, b.claim.detachedFrom, b.claim.issuedAt,
                          b.parentBalance, b.head.commitment.height));
  }

  method OperatorNamed(cr: Crypto, node: string) returns (r: Option<bytes>)
    ensures forall b: bytes {:trigger SpellsBytes(node, b)} ::
              r == Some(b) <==> |b| == 32 && SpellsBytes(node, b) && cr.isOperatorKey(b)
    ensures r == OperatorNamedBy(cr, node)
  {
    forall b: bytes ensures HexValue(node) == Some(b) <==> |b| == 32 && SpellsBytes(node, b) { DecodeIsExact(node, b); }
    var b := DecodeHex32(node);
    r := if b.Some? && cr.isOperatorKey(b.value) then b else None;
  }

  /** The claim is the child's own: self-signed by the key its node id spells, and dated plausibly. */
  ghost predicate Identified(cr: Crypto, b: Bundle, now: U64) {
    && b.version == STRANDED_CLAIM_VERSION && b.claim.version == STRANDED_CLAIM_VERSION
    && SpellsBytes(b.child, b.childOperator) && cr.isOperatorKey(b.childOperator)
    && cr.claimSigned(b.childOperator, b.claim, b.claimSignature)
    && b.claim.node == b.child
    && b.claim.issuedAt <= now + STRANDED_CLAIM_CLOCK_SKEW_SECS
  }

  /** The balance is backed: a signed head, a continuous chain, and a checked proof of any balance but zero. */
  ghost predicate Backed(cr: Crypto, b: Bundle) {
    && SignedUnder(cr, b.head, b.childLedger)
    && Continuous(cr, b.chain, b.head, b.childLedger)
    && b.parentBalance >= 0
    && (b.parentProof.Some? ==> cr.parentIncluded(b.parentBalance, b.parentProof.value, b.head.commitment.stateRoot))
    && (b.parentBalance > 0 ==> b.parentProof.Some?)
  }

  /** What an accepted bundle establishes, whichever order it was checked in. */
  ghost predicate Evidence(cr: Crypto, b: Bundle, now: U64) {
    Identified(cr, b, now) && Backed(cr, b)
  }

  /** A bundle is accepted exactly when it carries the whole evidence; a carried proof is always a checked one. */
  lemma BundleExact(cr: Crypto, b: Bundle, now: U64)
    ensures AllPass(Checks(cr, b, now)) <==> Evidence(cr, b, now)
  {
    IdentityExact(cr, b, now);
    EvidenceExact(cr, b);
    var x, y := IdentityChecks(cr, b, now), EvidenceChecks(cr, b);
    assert forall i :: 0 <= i < |x| ==> (x + y)[i] == x[i];
    assert forall i :: 0 <= i < |y| ==> (x + y)[|x| + i] == y[i];
  }

  lemma IdentityExact(cr: Crypto, b: Bundle, now: U64)
    ensures AllPass(IdentityChecks(cr, b, now)) <==> Identified(cr, b, now)
  {
    DecodeIsExact(b.child, b.childOperator);
    var ch := IdentityChecks(cr, b, now);
    assert AllPass(ch) <==> ch[0].None? && ch[1].None? && ch[2].None? && ch[3].None? && ch[4].None? && ch[5].None?;
  }

  lemma EvidenceExact(cr: Crypto, b: Bundle)
    ensures AllPass(EvidenceChecks(cr, b)) <==> Backed(cr, b)
  {
    ContinuityExact(cr, b.chain, b.head, b.childLedger);
    var ch := EvidenceChecks(cr, b);
    assert AllPass(ch) <==> ch[0].None? && ch[1].None? && ch[2].None? && ch[3].None?;
  }

  /** The verdict of the bundle, named check by check in the order they are made. */
  ghost function NamedVerdict(cr: Crypto, b: Bundle, now: U64): Option<ClaimFault> {
    if b.version != 1 then Some(UnsupportedVersion(b.version))
    else if !(SpellsBytes(b.child, b.childOperator) && cr.isOperatorKey(b.childOperator))
        then Some(ChildOperatorMismatch)
    else if b.claim.version != 1 then Some(UnsupportedVersion(b.claim.version))
    else if !cr.claimSigned(b.childOperator, b.claim, b.claimSignature) then Some(InvalidClaimSignature)
    else if b.claim.node != b.child then Some(ClaimNodeMismatch)
    else if b.claim.issuedAt > now + 300 then Some(ClaimIssuedInFuture(b.claim.issuedAt, now))
    else if !SignedUnder(cr, b.head, b.childLedger) then Some(InvalidCommitmentSignature)
    else if exists i: nat :: FirstUnsigned(cr, b.chain, b.childLedger, i) then Some(InvalidCommitmentSignature)
    else if !Continuous(cr, b.chain, b.head, b.childLedger) then Some(BrokenChain)
    else if b.parentBalance < 0 then Some(NegativeParentBalance(b.parentBalance))
    else if b.parentProof.None? then if b.parentBalance != 0 then Some(MissingParentProof) else None
    else if !cr.parentIncluded(b.parentBalance, b.parentProof.value, b.head.commitment.stateRoot)
      then Some(InvalidParentProof)
    else None
  }

  lemma IdentityNamed(cr: Crypto, b: Bundle, now: U64, fault: Option<ClaimFault>)
    requires IsVerdict(IdentityChecks(cr, b, now), fault)
    ensures fault.Some? ==> fault == NamedVerdict(cr, b, now)
  {
    DecodeIsExact(b.child, b.childOperator);
    if fault.Some? {
      var ch := IdentityChecks(cr, b, now);
      var i: nat :| FirstFault(ch, i) && ch[i] == fault;
      if i > 0 { assert ch[0].None?; }
      if i > 1 { assert ch[1].None?; }
      if i > 2 { assert ch[2].None?; }
      if i > 3 { assert ch[3].None?; }
      if i > 4 { assert ch[4].None?; }
    }
  }

  lemma EvidenceNamed(cr: Crypto, b: Bundle, now: U64, fault: Option<ClaimFault>)
    requires Identified(cr, b, now) && IsVerdict(EvidenceChecks(cr, b), fault)
    ensures fault == NamedVerdict(cr, b, now)
  {
    if SignedUnder(cr, b.head, b.childLedger) { ContinuityFaultIs(cr, b.chain, b.head, b.childLedger); }
    var ch := EvidenceChecks(cr, b);
    if fault.Some? {
      var i: nat :| FirstFault(ch, i) && ch[i] == fault;
      if i > 0 { assert ch[0].None?; }
      if i > 1 { assert ch[1].None?; }
      if i > 2 { assert ch[2].None?; }
    } else {
      assert ch[0].None? && ch[1].None? && ch[2].None? && ch[3].None?;
    }
  }

  /** The first fault of two lists of checks is that of the first, or of the second once the first pass. */
  lemma FaultsApart(x: seq<Option<ClaimFault>>, y: seq<Option<ClaimFault>>, fault: Option<ClaimFault>)
    requires IsVerdict(x + y, fault)
    ensures (fault.Some? && IsVerdict(x, fault)) || (AllPass(x) && IsVerdict(y, fault))
  {
    var all := x + y;
    assert forall i :: 0 <= i < |x| ==> x[i] == all[i];
    assert forall i :: 0 <= i < |y| ==> y[i] == all[|x| + i];
    if fault.Some? {
      var i: nat :| FirstFault(all, i) && all[i] == fault;
      if i < |x| { assert FirstFault(x, i); } else { assert FirstFault(y, i - |x|); }
    }
  }

  /** The verdict as the checks give it is the one named check by check. */
  lemma VerdictIsNamed(cr: Crypto, b: Bundle, now: U64, fault: Option<ClaimFault>)
    requires IsVerdict(Checks(cr, b, now), fault)
    ensures fault == NamedVerdict(cr, b, now)
  {
    FaultsApart(IdentityChecks(cr, b, now), EvidenceChecks(cr, b), fault);
    IdentityExact(cr, b, now);
    if fault.Some? && IsVerdict(IdentityChecks(cr, b, now), fault) {
      IdentityNamed(cr, b, now, fault);
    } else {
      EvidenceNamed(cr, b, now, fault);
    }
  }

  /**
   The two branches differ on the head: one that lies about its entry count is
   refused behind an anchored chain and accepted behind any other.
   */
  lemma HeadHeightOnlyCheckedAtGenesis(cr: Crypto, chain: seq<SignedCommitment>, head: SignedCommitment, key: Bytes32)
    requires chain != [] && head.commitment.height != head.commitment.entryCount
    requires forall i :: 0 <= i < |chain| ==> Sound(cr, chain[i], key)
    requires Linked(cr, chain + [head])
    ensures ContinuityFault(cr, chain, head, key).Some? <==> chain[0].commitment.prev == ZeroHash()
  {
    ContinuityExact(cr, chain, head, key);
  }
}
