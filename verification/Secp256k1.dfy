/** Low-s signatures (EIP-2) and the recovery byte. */
module Secp256k1 {
  import opened Common
  import opened Bytes

  /** The group order. */
  const N: nat := 0xFFFFFFFF_FFFFFFFF_FFFFFFFF_FFFFFFFE_BAAEDCE6_AF48A03B_BFD25E8C_D0364141

  /** The stored boundary above which an `s` is high. */
  const SECP256K1_HALF_ORDER: bytes := [
    0x7f, 0xff, 0xff, 0xff, 0xff, 0xff, 0xff, 0xff, 0xff, 0xff, 0xff, 0xff, 0xff, 0xff, 0xff, 0xff,
    0x5d, 0x57, 0x6e, 0x73, 0x57, 0xa4, 0x50, 0x1d, 0xdf, 0xe9, 0x2f, 0x46, 0x68, 0x1b, 0x20, 0xa0]

  /** The number a big-endian string stands for, one byte further. */
  lemma OneMore(s: bytes, k: nat)
    requires k < |s|
    ensures BE(s[..k + 1]) == BE(s[..k]) * 256 + s[k] as nat
  {
    assert s[..k + 1][..k] == s[..k];
  }

  /** The four bytes at `k` spell the big-endian word `w`. */
  predicate IsWord(s: bytes, k: nat, w: nat) {
    && k + 4 <= |s|
    && w == s[k] as nat * 0x100_0000 + s[k + 1] as nat * 0x1_0000 + s[k + 2] as nat * 0x100 + s[k + 3] as nat
  }

  lemma FourMore(s: bytes, k: nat, w: nat)
    requires IsWord(s, k, w)
    ensures BE(s[..k + 4]) == BE(s[..k]) * 0x1_0000_0000 + w
  {
    OneMore(s, k);
    OneMore(s, k + 1);
    OneMore(s, k + 2);
    OneMore(s, k + 3);
  }

  /** 32-bit words, most significant first. */
  lemma {:induction false} BytesToWords(s: bytes, w: seq<nat>, k: nat)
    requires k <= |w| && 4 * |w| == |s|
    requires forall i :: 0 <= i < |w| ==> IsWord(s, 4 * i, w[i])
    ensures BE(s[..4 * k]) == Words(w[..k])
  {
    if k > 0 {
      BytesToWords(s, w, k - 1);
      FourMore(s, 4 * (k - 1), w[k - 1]);
      assert w[..k][..k - 1] == w[..k - 1];
    }
  }

  function Words(w: seq<nat>): nat {
    if w == [] then 0 else Words(w[..|w| - 1]) * 0x1_0000_0000 + w[|w| - 1]
  }

  const HALF_WORDS: seq<nat> :=
    [0x7fffffff, 0xffffffff, 0xffffffff, 0xffffffff, 0x5d576e73, 0x57a4501d, 0xdfe92f46, 0x681b20a0]

  lemma HalfWordsAre(i: nat)
    requires i < 8
    ensures IsWord(SECP256K1_HALF_ORDER, 4 * i, HALF_WORDS[i])
  {
  }

  lemma WordsMore(w: seq<nat>, k: nat)
    requires k < |w|
    ensures Words(w[..k + 1]) == Words(w[..k]) * 0x1_0000_0000 + w[k]
  {
    assert w[..k + 1][..k] == w[..k];
  }

  /** The stored bytes are floor(n/2). */
  lemma HalfOrderIsHalf()
    ensures BE(SECP256K1_HALF_ORDER) == N / 2
  {
    forall i | 0 <= i < 8 ensures IsWord(SECP256K1_HALF_ORDER, 4 * i, HALF_WORDS[i]) {
      HalfWordsAre(i);
    }
    BytesToWords(SECP256K1_HALF_ORDER, HALF_WORDS, 8);
    assert SECP256K1_HALF_ORDER[..32] == SECP256K1_HALF_ORDER && HALF_WORDS[..8] == HALF_WORDS;
    HalfWordsMakeHalf();
  }

  lemma HalfWordsMakeHalf()
    ensures Words(HALF_WORDS) == N / 2
  {
    var w := HALF_WORDS;
    assert w[..0] == [] && w[..8] == w;
    for k := 0 to 8
      invariant Words(w[..0]) == 0
      invariant forall j :: 0 <= j < k ==> Words(w[..j + 1]) == Words(w[..j]) * 0x1_0000_0000 + w[j]
    {
      WordsMore(w, k);
    }
    assert Words(w[..1]) == 0x7fffffff;
    assert Words(w[..2]) == 0x7fffffff_ffffffff;
    assert Words(w[..3]) == 0x7fffffff_ffffffff_ffffffff;
    assert Words(w[..4]) == 0x7fffffff_ffffffff_ffffffff_ffffffff;
    assert Words(w[..5]) == 0x7fffffff_ffffffff_ffffffff_ffffffff_5d576e73;
    assert Words(w[..6]) == 0x7fffffff_ffffffff_ffffffff_ffffffff_5d576e73_57a4501d;
    assert Words(w[..7]) == 0x7fffffff_ffffffff_ffffffff_ffffffff_5d576e73_57a4501d_dfe92f46;
  }

  // ---- Signatures ----

  /** An ECDSA signature as its two 32-byte big-endian scalars. */
  datatype EcdsaSig = EcdsaSig(r: bytes, s: bytes)

  predicate WellFormed(sig: EcdsaSig) {
    |sig.r| == 32 && |sig.s| == 32 && 0 < BE(sig.r) < N && 0 < BE(sig.s) < N
  }

  datatype RecoveryId = RecoveryId(yOdd: bool, xReduced: bool)

  function IdByte(id: RecoveryId): nat {
    (if id.yOdd then 1 else 0) + (if id.xReduced then 2 else 0)
  }

  predicate IsHighS(sig: EcdsaSig)
    requires |sig.s| == 32
  {
    BytesLess(SECP256K1_HALF_ORDER, sig.s)
  }

  /** `s` replaced by `n - s` when it is high. */
  function NormalizeS(sig: EcdsaSig): EcdsaSig
    requires WellFormed(sig)
  {
    if BE(sig.s) > N / 2 then sig.(s := ToBE(N - BE(sig.s), 32)) else sig
  }

  function Canonicalize(sig: EcdsaSig, id: RecoveryId): (EcdsaSig, RecoveryId)
    requires WellFormed(sig)
  {
    var normalized := NormalizeS(sig);
    if normalized == sig then (sig, id) else (normalized, id.(yOdd := !id.yOdd))
  }

  /** The byte-wise test is the numeric one: `s` is high exactly when it exceeds floor(n/2). */
  lemma HighSIsNumeric(sig: EcdsaSig)
    requires |sig.s| == 32
    ensures IsHighS(sig) <==> BE(sig.s) > N / 2
  {
    BytesLessIsNumeric(SECP256K1_HALF_ORDER, sig.s);
    HalfOrderIsHalf();
  }

  lemma PowSixteen()
    ensures Pow256(16) == 0x1_00000000_00000000_00000000_00000000
  {
    Pow256Eight();
    PowAdd(8, 8);
  }

  lemma NFits()
    ensures N < Pow256(32)
  {
    PowSixteen();
    PowAdd(16, 16);
  }

  lemma {:induction false} PowAdd(a: nat, b: nat)
    ensures Pow256(a + b) == Pow256(a) * Pow256(b)
  {
    if a > 0 {
      PowAdd(a - 1, b);
      assert 256 * (Pow256(a - 1) * Pow256(b)) == (256 * Pow256(a - 1)) * Pow256(b);
    }
  }

  /** For `0 < s < n` exactly one of `s` and `n - s` is low. */
  lemma ExactlyOneIsLow(r: bytes, s: nat)
    requires 0 < s < N
    ensures IsHighS(EcdsaSig(r, ToBE(s, 32))) <==> !IsHighS(EcdsaSig(r, ToBE(N - s, 32)))
  {
    HighScalar(r, s);
    HighScalar(r, N - s);
  }

  lemma HighScalar(r: bytes, s: nat)
    requires s < N
    ensures IsHighS(EcdsaSig(r, ToBE(s, 32))) <==> s > N / 2
  {
    NFits();
    BEOfToBE(s, 32);
    HighSIsNumeric(EcdsaSig(r, ToBE(s, 32)));
  }

  /** Canonicalizing is never high, keeps a low signature, and doing it again changes nothing. */
  lemma CanonicalIsLow(sig: EcdsaSig, id: RecoveryId)
    requires WellFormed(sig)
    ensures var (c, cid) := Canonicalize(sig, id);
            && WellFormed(c) && !IsHighS(c)
            && Canonicalize(c, cid) == (c, cid)
            && c.r == sig.r && cid.xReduced == id.xReduced
            && (IsHighS(sig) ==> BE(c.s) == N - BE(sig.s) && cid.yOdd == !id.yOdd)
            && (!IsHighS(sig) ==> (c, cid) == (sig, id))
  {
    HighSIsNumeric(sig);
    NFits();
    var s := N - BE(sig.s);
    BEOfToBE(s, 32);
    HighSIsNumeric(sig.(s := ToBE(s, 32)));
  }

  // ---- Sign and recover ----

  datatype PubKey = PubKey(point: string)
  datatype SecretKey = SecretKey(scalar: nat)
  datatype EthAddress = EthAddress(bytes: string)

  /** The curve operations, left uninterpreted. */
  datatype Curve = Curve(
    signPrehash: (SecretKey, bytes) -> (EcdsaSig, RecoveryId),
    recoverKey: (bytes, EcdsaSig, RecoveryId) -> Option<PubKey>,
    publicKey: SecretKey -> PubKey,
    addressOf: PubKey -> EthAddress)

  /** `(sig', id')` is `(sig, id)` itself, or its mirror image: `n - s` with the parity flipped. */
  predicate SameOrMirror(sig: EcdsaSig, id: RecoveryId, sig': EcdsaSig, id': RecoveryId)
    requires WellFormed(sig) && WellFormed(sig')
  {
    || (sig' == sig && id' == id)
    || (sig'.r == sig.r && BE(sig'.s) == N - BE(sig.s) && id' == id.(yOdd := !id.yOdd))
  }

  /**
   What is assumed of the backend, of the signer's own output only: it is well
   formed, and whichever of it and its mirror image has a low `s` recovers to the
   signer's key. Nothing is assumed of recovery from a high `s`.
   */
  ghost predicate Lawful(cv: Curve) {
    forall k: SecretKey, d: bytes :: |d| == 32 ==>
      var (sig, id) := cv.signPrehash(k, d);
      WellFormed(sig) && LowRecovers(cv, k, d, sig, id)
  }

  ghost predicate LowRecovers(cv: Curve, k: SecretKey, d: bytes, sig: EcdsaSig, id: RecoveryId)
    requires WellFormed(sig)
  {
    forall sig', id' :: WellFormed(sig') && !IsHighS(sig') && SameOrMirror(sig, id, sig', id') ==>
      cv.recoverKey(d, sig', id') == Some(cv.publicKey(k))
  }

  datatype EthFault =
    | DigestLength | SignatureLength | InvalidSignature | HighS | InvalidRecoveryId(v: nat) | RecoveryFailed

  /** `r || s || v` with `v` in `{27, 28}` for an id without x-reduction. */
  function SignDigest(cv: Curve, k: SecretKey, digest: bytes): (r: Result<bytes, EthFault>)
    requires Lawful(cv)
  {
    if |digest| != 32 then Err(DigestLength)
    else
      var (sig, id) := cv.signPrehash(k, digest);
      var (c, cid) := Canonicalize(sig, id);
      Ok(c.r + c.s + [(IdByte(cid) + 27) as byte])
  }

  function RecoveryIdFromV(v: nat): Result<RecoveryId, EthFault> {
    if v == 0 || v == 27 then Ok(RecoveryId(false, false))
    else if v == 1 || v == 28 then Ok(RecoveryId(true, false))
    else Err(InvalidRecoveryId(v))
  }

  function RecoverAddress(cv: Curve, digest: bytes, signature: bytes): Result<EthAddress, EthFault> {
    if |digest| != 32 then Err(DigestLength)
    else if |signature| != 65 then Err(SignatureLength)
    else
      var sig := EcdsaSig(signature[..32], signature[32..64]);
      if !WellFormed(sig) then Err(InvalidSignature)
      else if IsHighS(sig) then Err(HighS)
      else
        var id := RecoveryIdFromV(signature[64] as nat);
        if id.Err? then Err(id.error)
        else
          var key := cv.recoverKey(digest, sig, id.value);
          if key.None? then Err(RecoveryFailed) else Ok(cv.addressOf(key.value))
  }

  lemma SplitSignature(r: bytes, s: bytes, v: byte)
    requires |r| == 32 && |s| == 32
    ensures var x := r + s + [v]; |x| == 65 && x[..32] == r && x[32..64] == s && x[64] == v
  {
  }

  /** Recovery byte `v` and the id it stands for: Ethereum's 27 and 28, or the raw 0 and 1. */
  predicate StandsFor(v: byte, id: RecoveryId) {
    !id.xReduced && (if id.yOdd then v == 1 || v == 28 else v == 0 || v == 27)
  }

  /**
   Recovery gives an address exactly on a 32-byte digest and a 65-byte signature with
   scalars in range, a low `s` and a known recovery byte, from which the curve recovers
   a key; the address is that key's. In particular a high `s` is refused as such.
   */
  lemma RecoverExactly(cv: Curve, digest: bytes, signature: bytes, a: EthAddress)
    ensures RecoverAddress(cv, digest, signature) == Ok(a) <==>
            && |digest| == 32 && |signature| == 65
            && var r, s := signature[..32], signature[32..64];
               && 0 < BE(r) < N && 0 < BE(s) <= N / 2
               && exists id ::
                    && StandsFor(signature[64], id)
                    && cv.recoverKey(digest, EcdsaSig(r, s), id).Some?
                    && cv.addressOf(cv.recoverKey(digest, EcdsaSig(r, s), id).value) == a
    ensures |digest| == 32 && |signature| == 65 && 0 < BE(signature[..32]) < N && N / 2 < BE(signature[32..64]) < N ==>
              RecoverAddress(cv, digest, signature) == Err(HighS)
  {
    if |digest| == 32 && |signature| == 65 {
      var sig := EcdsaSig(signature[..32], signature[32..64]);
      HighSIsNumeric(sig);
      var id := RecoveryIdFromV(signature[64] as nat);
      if id.Ok? {
        assert StandsFor(signature[64], id.value);
        assert forall other :: StandsFor(signature[64], other) ==> other == id.value;
      } else {
        assert forall other :: !StandsFor(signature[64], other);
      }
    }
  }

  /**
   A signature recovers to its signer's address exactly when the backend's recovery
   id is not x-reduced; an x-reduced one carries `v` 29 or 30, which is refused.
   */
  lemma SignThenRecover(cv: Curve, k: SecretKey, digest: bytes)
    requires Lawful(cv) && |digest| == 32
    ensures SignDigest(cv, k, digest).Ok?
    ensures var back := RecoverAddress(cv, digest, SignDigest(cv, k, digest).value);
            && (!cv.signPrehash(k, digest).1.xReduced ==> back == Ok(cv.addressOf(cv.publicKey(k))))
            && (cv.signPrehash(k, digest).1.xReduced ==>
                  back.Err? && back.error.InvalidRecoveryId? && back.error.v in {29, 30})
  {
    if cv.signPrehash(k, digest).1.xReduced { ReducedIsRefused(cv, k, digest); } else { PlainRecovers(cv, k, digest); }
  }

  /** What the recovering side finds in a signature: the canonical scalars and the recovery byte. */
  lemma SignedParts(cv: Curve, k: SecretKey, digest: bytes)
    requires Lawful(cv) && |digest| == 32
    ensures var (sig, id) := cv.signPrehash(k, digest);
            var (c, cid) := Canonicalize(sig, id);
            && SignDigest(cv, k, digest).Ok?
            && var out := SignDigest(cv, k, digest).value;
               && |out| == 65 && EcdsaSig(out[..32], out[32..64]) == c && out[64] as nat == IdByte(cid) + 27
               && WellFormed(c) && !IsHighS(c) && cid.xReduced == id.xReduced
  {
    var (sig, id) := cv.signPrehash(k, digest);
    var (c, cid) := Canonicalize(sig, id);
    CanonicalIsLow(sig, id);
    SplitSignature(c.r, c.s, (IdByte(cid) + 27) as byte);
  }

  lemma ReducedIsRefused(cv: Curve, k: SecretKey, digest: bytes)
    requires Lawful(cv) && |digest| == 32 && cv.signPrehash(k, digest).1.xReduced
    ensures SignDigest(cv, k, digest).Ok?
    ensures var back := RecoverAddress(cv, digest, SignDigest(cv, k, digest).value);
            back.Err? && back.error.InvalidRecoveryId? && back.error.v in {29, 30}
  {
    SignedParts(cv, k, digest);
  }

  lemma PlainRecovers(cv: Curve, k: SecretKey, digest: bytes)
    requires Lawful(cv) && |digest| == 32 && !cv.signPrehash(k, digest).1.xReduced
    ensures SignDigest(cv, k, digest).Ok?
    ensures RecoverAddress(cv, digest, SignDigest(cv, k, digest).value) == Ok(cv.addressOf(cv.publicKey(k)))
  {
    SignedParts(cv, k, digest);
    MirrorRecovers(cv, k, digest);
    var (sig, id) := cv.signPrehash(k, digest);
    var (c, cid) := Canonicalize(sig, id);
    assert RecoveryIdFromV(IdByte(cid) + 27) == Ok(cid);
  }

  lemma MirrorRecovers(cv: Curve, k: SecretKey, digest: bytes)
    requires Lawful(cv) && |digest| == 32
    ensures var (sig, id) := cv.signPrehash(k, digest);
            var (c, cid) := Canonicalize(sig, id);
            cv.recoverKey(digest, c, cid) == Some(cv.publicKey(k))
  {
    var (sig, id) := cv.signPrehash(k, digest);
    var (c, cid) := Canonicalize(sig, id);
    CanonicalIsLow(sig, id);
    assert LowRecovers(cv, k, digest, sig, id) && SameOrMirror(sig, id, c, cid);
  }
}
