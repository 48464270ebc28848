/** Types shared by every module of the model. */
module Common {

  datatype Option<+T> = None | Some(value: T)

  datatype Result<+T, +E> = Ok(value: T) | Err(error: E)

  /** A node id. Node ids and operator keys are the same Ed25519 key; the text is opaque here. */
  datatype NodeId = NodeId(text: string)

  /** A ledger public key, compared only for equality. */
  datatype LedgerKey = LedgerKey(bytes: string)

  /** A domain-separated 32-byte hash, compared only for equality. */
  datatype Hash = Hash(bytes: string)

  /** An octal address: one digit per tree level. The root is `[0]`. */
  type OctAddr = seq<nat>

  const MAX_SLOT: nat := 7

  predicate ValidAddr(a: OctAddr) {
    a != [] && a[0] == 0 && forall i :: 0 <= i < |a| ==> a[i] <= MAX_SLOT
  }

  /** The address with its deepest digit removed; the root has no parent. */
  function ParentAddr(a: OctAddr): Option<OctAddr> {
    if |a| <= 1 then None else Some(a[..|a| - 1])
  }

  function ChildAddr(a: OctAddr, slot: nat): OctAddr {
    a + [slot]
  }

  /** Strict ancestor: a proper prefix. */
  predicate IsAncestorOf(a: OctAddr, b: OctAddr) {
    |a| < |b| && b[..|a|] == a
  }

  /** `b` ends in `a`. */
  ghost predicate IsSuffix<T>(a: seq<T>, b: seq<T>) {
    |a| <= |b| && b[|b| - |a|..] == a
  }
}
