/**
 The typed digests a user signs: orders, anchor registrations and anchor
 rotations under one domain (EIP-712, "Definition of hashStruct" and "Definition
 of encodeData"). Two digests can only agree when their inputs do, or when the
 hashing of those very inputs collides.
 */
module Digests {
  import opened Common
  import opened Bytes
  import opened Text
  import AddressText

  type Address20 = b: bytes | |b| == 20 witness seq(20, i => 0 as byte)

  /** Keccak-256 and the derive-key hash of orders: any functions into 32 bytes. */
  datatype Hashes = Hashes(keccak: bytes -> Bytes32, orderHash: bytes -> Bytes32)

  const CAWALA_CHAIN_ID: U64 := 0x6361_7761_6c61
  const EIP712_DOMAIN_NAME: string := "Cawala"
  const EIP712_DOMAIN_VERSION: string := "1"
  const EIP712_DOMAIN_TYPE: string := "EIP712Domain(string name,string version,uint256 chainId)"
  const ORDER_EIP712_TYPE: string := "CawalaOrder(bytes32 orderHash,string payeeAddr)"
  const ETH_REGISTRATION_EIP712_TYPE: string := "CawalaEthRegistration(string nodeId,address newAddress)"
  const ETH_ROTATION_EIP712_TYPE: string := "CawalaEthRotation(string nodeId,address oldAddress,address newAddress)"

  // ---- Byte layout ----

  function HashStruct(h: Hashes, typeHash: Bytes32, fields: bytes): Bytes32 {
    h.keccak(typeHash + fields)
  }

  function FinalInput(domain: Bytes32, structHash: Bytes32): (b: bytes)
    ensures |b| == 66
  {
    [0x19, 0x01] + domain + structHash
  }

  function ChainIdWord(chainId: U64): Bytes32 {
    seq(24, i => 0 as byte) + ToBE(chainId, 8)
  }

  function AddressWord(a: Address20): Bytes32 {
    seq(12, i => 0 as byte) + a
  }

  function DomainFields(h: Hashes, name: string, version: string, chainId: U64): bytes {
    h.keccak(Utf8(name)) + h.keccak(Utf8(version)) + ChainIdWord(chainId)
  }

  function DomainSeparator(h: Hashes, name: string, version: string, chainId: U64): Bytes32 {
    HashStruct(h, h.keccak(Utf8(EIP712_DOMAIN_TYPE)), DomainFields(h, name, version, chainId))
  }

  function CawalaDomain(h: Hashes): Bytes32 {
    DomainSeparator(h, EIP712_DOMAIN_NAME, EIP712_DOMAIN_VERSION, CAWALA_CHAIN_ID)
  }

  // ---- What is signed ----

  datatype PaymentOrder = PaymentOrder(from: string, to: string, amount: U64, nonce: U64, expiry: U64)

  predicate OrderFits(o: PaymentOrder) {
    IdFits(o.from) && IdFits(o.to)
  }

  predicate IdFits(id: string) {
    IsText(id) && |id| < 0x1_0000_0000_0000_0000
  }

  function NodeIdBytes(id: string): bytes {
    ToLE(|id|, 8) + Utf8(id)
  }

  function OrderBytes(o: PaymentOrder): bytes {
    NodeIdBytes(o.from) + (NodeIdBytes(o.to) + (ToLE(o.amount, 8) + (ToLE(o.nonce, 8) + ToLE(o.expiry, 8))))
  }

  datatype Signed =
    | OrderDigest(order: PaymentOrder, payee: OctAddr)
    | RegistrationDigest(node: string, newAddress: Address20)
    | RotationDigest(node: string, oldAddress: Address20, newAddress: Address20)

  /** Inputs the source's types admit: valid addresses, and text whose length fits its prefix. */
  predicate Admitted(x: Signed) {
    match x
    case OrderDigest(order, payee) => ValidAddr(payee) && OrderFits(order)
    case RegistrationDigest(node, _) => IsText(node)
    case RotationDigest(node, _, _) => IsText(node)
  }

  function TypeText(x: Signed): string {
    match x
    case OrderDigest(_, _) => ORDER_EIP712_TYPE
    case RegistrationDigest(_, _) => ETH_REGISTRATION_EIP712_TYPE
    case RotationDigest(_, _, _) => ETH_ROTATION_EIP712_TYPE
  }

  /** The one string field of each kind. */
  function TextField(x: Signed): string
    requires Admitted(x)
  {
    match x
    case OrderDigest(_, payee) => AddressText.AddrText(payee)
    case RegistrationDigest(node, _) => node
    case RotationDigest(node, _, _) => node
  }

  function Fields(h: Hashes, x: Signed): bytes
    requires Admitted(x)
  {
    match x
    case OrderDigest(order, _) => h.orderHash(OrderBytes(order)) + h.keccak(Utf8(TextField(x)))
    case RegistrationDigest(_, new_) => h.keccak(Utf8(TextField(x))) + AddressWord(new_)
    case RotationDigest(_, old_, new_) => h.keccak(Utf8(TextField(x))) + (AddressWord(old_) + AddressWord(new_))
  }

  function StructInput(h: Hashes, x: Signed): bytes
    requires Admitted(x)
  {
    h.keccak(Utf8(TypeText(x))) + Fields(h, x)
  }

  function DigestOf(h: Hashes, x: Signed): Bytes32
    requires Admitted(x)
  {
    h.keccak(FinalInput(CawalaDomain(h), h.keccak(StructInput(h, x))))
  }

  // ---- What stands where ----

  /** The words of an address: twelve zero bytes, then the address. */
  lemma AddressWordLayout(a: Address20)
    ensures AddressWord(a)[12..] == a && forall i :: 0 <= i < 12 ==> AddressWord(a)[i] == 0
  {
  }

  lemma ChainIdLayout(chainId: U64)
    ensures ChainIdWord(chainId)[24..] == ToBE(chainId, 8) && forall i :: 0 <= i < 24 ==> ChainIdWord(chainId)[i] == 0
  {
  }

  lemma ThreeWords(a: bytes, b: bytes, c: bytes)
    requires |a| == |b| == |c| == 32
    ensures var w := a + (b + c); |w| == 96 && w[..32] == a && w[32..64] == b && w[64..] == c
  {
    var w := a + (b + c);
    assert w[..32] == a && w[32..] == b + c;
    assert w[32..64] == (b + c)[..32] && w[64..] == (b + c)[32..];
  }

  lemma FourWords(a: bytes, b: bytes, c: bytes, d: bytes)
    requires |a| == |b| == |c| == |d| == 32
    ensures var w := a + (b + (c + d));
            |w| == 128 && w[..32] == a && w[32..64] == b && w[64..96] == c && w[96..] == d
  {
    var w := a + (b + (c + d));
    ThreeWords(b, c, d);
    assert w[..32] == a && w[32..] == b + (c + d);
    var t := b + (c + d);
    assert w[32..64] == t[..32] && w[64..96] == t[32..64] && w[96..] == t[64..];
  }

  /** The hashed bytes of each kind, word by word: its own type, then its fields in the order the type names them. */
  lemma StructLayout(h: Hashes, x: Signed)
    requires Admitted(x)
    ensures var b := StructInput(h, x);
            match x
            case OrderDigest(order, payee) =>
              && |b| == 96
              && b[..32] == h.keccak(Utf8("CawalaOrder(bytes32 orderHash,string payeeAddr)"))
              && b[32..64] == h.orderHash(OrderBytes(order))
              && b[64..] == h.keccak(Utf8(AddressText.AddrText(payee)))
            case RegistrationDigest(node, new_) =>
              && |b| == 96
              && b[..32] == h.keccak(Utf8("CawalaEthRegistration(string nodeId,address newAddress)"))
              && b[32..64] == h.keccak(Utf8(node))
              && b[64..] == AddressWord(new_)
            case RotationDigest(node, old_, new_) =>
              && |b| == 128
              && b[..32] == h.keccak(Utf8("CawalaEthRotation(string nodeId,address oldAddress,address newAddress)"))
              && b[32..64] == h.keccak(Utf8(node))
              && b[64..96] == AddressWord(old_)
              && b[96..] == AddressWord(new_)
  {
    var kind := h.keccak(Utf8(TypeText(x)));
    match x
    case OrderDigest(order, payee) =>
      ThreeWords(kind, h.orderHash(OrderBytes(order)), h.keccak(Utf8(AddressText.AddrText(payee))));
    case RegistrationDigest(node, new_) => ThreeWords(kind, h.keccak(Utf8(node)), AddressWord(new_));
    case RotationDigest(node, old_, new_) =>
      FourWords(kind, h.keccak(Utf8(node)), AddressWord(old_), AddressWord(new_));
  }

  /** The domain's hashed bytes: its type, name, version and chain id. */
  lemma DomainLayout(h: Hashes, name: string, version: string, chainId: U64)
    ensures var b := h.keccak(Utf8(EIP712_DOMAIN_TYPE)) + DomainFields(h, name, version, chainId);
            && |b| == 128
            && b[32..64] == h.keccak(Utf8(name)) && b[64..96] == h.keccak(Utf8(version))
            && b[96..] == ChainIdWord(chainId)
            && DomainSeparator(h, name, version, chainId) == h.keccak(b)
  {
    var n: bytes, v: bytes := h.keccak(Utf8(name)), h.keccak(Utf8(version));
    var c := ChainIdWord(chainId);
    assert DomainFields(h, name, version, chainId) == n + (v + c);
    FourWords(h.keccak(Utf8(EIP712_DOMAIN_TYPE)), n, v, c);
  }

  /** The final bytes: the two marks, the domain separator and the struct hash, hashed once. */
  lemma FinalLayout(h: Hashes, x: Signed)
    requires Admitted(x)
    ensures exists b: bytes ::
              && |b| == 66 && b[0] == 0x19 && b[1] == 0x01
              && b[2..34] == DomainSeparator(h, "Cawala", "1", 0x6361_7761_6c61)
              && b[34..] == h.keccak(StructInput(h, x))
              && DigestOf(h, x) == h.keccak(b)
  {
    var b := FinalInput(CawalaDomain(h), h.keccak(StructInput(h, x)));
    assert b[2..34] == CawalaDomain(h) && b[34..] == h.keccak(StructInput(h, x));
  }

  /** The order's bytes: the two node ids, each behind its length, then amount, nonce and expiry, little-endian. */
  lemma OrderLayout(o: PaymentOrder)
    ensures var b := OrderBytes(o);
            var n, m := |o.from|, |o.to|;
            && |b| == n + m + 40
            && b[..8] == ToLE(n, 8) && b[8..8 + n] == Utf8(o.from)
            && b[8 + n..16 + n] == ToLE(m, 8) && b[16 + n..16 + n + m] == Utf8(o.to)
            && b[16 + n + m..24 + n + m] == ToLE(o.amount, 8)
            && b[24 + n + m..32 + n + m] == ToLE(o.nonce, 8)
            && b[32 + n + m..] == ToLE(o.expiry, 8)
  {
  }

  // ---- The builders ----

  /** `dst[at..].copy_from_slice(src)`. */
  method CopyFromSlice(dst: array<byte>, at: nat, src: bytes)
    requires at + |src| <= dst.Length
    modifies dst
    ensures dst[..] == old(dst[..at]) + src + old(dst[at + |src|..])
  {
    for i := 0 to |src|
      invariant dst[..at] == old(dst[..at]) && dst[at..at + i] == src[..i] && dst[at + i..] == old(dst[at + i..])
    {
      dst[at + i] := src[i];
    }
  }

  /** The 66-byte buffer `19 01 || domain || struct hash`, filled in place and hashed. */
  method Eip712Digest(h: Hashes, domain: Bytes32, structHash: Bytes32) returns (digest: Bytes32)
    ensures digest == h.keccak(FinalInput(domain, structHash))
  {
    var buffer := new byte[66](i => 0);
    buffer[0] := 0x19;
    buffer[1] := 0x01;
    CopyFromSlice(buffer, 2, domain);
    CopyFromSlice(buffer, 34, structHash);
    assert buffer[..] == FinalInput(domain, structHash);
    digest := h.keccak(buffer[..]);
  }

  method Eip712HashStruct(h: Hashes, typeHash: Bytes32, fields: bytes) returns (digest: Bytes32)
    ensures digest == HashStruct(h, typeHash, fields)
  {
    var buffer: bytes := [];
    buffer := buffer + typeHash;
    buffer := buffer + fields;
    assert buffer == typeHash + fields;
    digest := h.keccak(buffer);
  }

  method ChainIdToU256Be(chainId: U64) returns (word: Bytes32)
    ensures word == ChainIdWord(chainId)
  {
    var out := new byte[32](i => 0);
    CopyFromSlice(out, 24, ToBE(chainId, 8));
    assert out[..] == ChainIdWord(chainId);
    word := out[..];
  }

  method AbiEncodeAddress(a: Address20) returns (word: Bytes32)
    ensures word == AddressWord(a)
  {
    var out := new byte[32](i => 0);
    CopyFromSlice(out, 12, a);
    assert out[..] == AddressWord(a);
    word := out[..];
  }

  method Eip712DomainSeparator(h: Hashes, name: string, version: string, chainId: U64) returns (domain: Bytes32)
    ensures domain == DomainSeparator(h, name, version, chainId)
  {
    var fields: bytes := [];
    fields := fields + h.keccak(Utf8(name));
    fields := fields + h.keccak(Utf8(version));
    var word := ChainIdToU256Be(chainId);
    fields := fields + word;
    assert fields == DomainFields(h, name, version, chainId);
    domain := Eip712HashStruct(h, h.keccak(Utf8(EIP712_DOMAIN_TYPE)), fields);
  }

  method BuildOrderDigest(h: Hashes, order: PaymentOrder, payee: OctAddr) returns (digest: Bytes32)
    requires Admitted(OrderDigest(order, payee))
    ensures digest == DigestOf(h, OrderDigest(order, payee))
  {
    var text := AddressText.Print(payee);
    var fields: bytes := [];
    fields := fields + h.orderHash(OrderBytes(order));
    fields := fields + h.keccak(Utf8(text));
    assert fields == Fields(h, OrderDigest(order, payee));
    digest := Finish(h, ORDER_EIP712_TYPE, fields);
  }

  method BuildRegistrationDigest(h: Hashes, node: string, new_: Address20) returns (digest: Bytes32)
    requires IsText(node)
    ensures digest == DigestOf(h, RegistrationDigest(node, new_))
  {
    var fields: bytes := [];
    fields := fields + h.keccak(Utf8(node));
    var word := AbiEncodeAddress(new_);
    fields := fields + word;
    assert fields == Fields(h, RegistrationDigest(node, new_));
    digest := Finish(h, ETH_REGISTRATION_EIP712_TYPE, fields);
  }

  method BuildRotationDigest(h: Hashes, node: string, old_: Address20, new_: Address20) returns (digest: Bytes32)
    requires IsText(node)
    ensures digest == DigestOf(h, RotationDigest(node, old_, new_))
  {
    var fields: bytes := [];
    fields := fields + h.keccak(Utf8(node));
    var word := AbiEncodeAddress(old_);
    fields := fields + word;
    word := AbiEncodeAddress(new_);
    fields := fields + word;
    assert fields == Fields(h, RotationDigest(node, old_, new_));
    digest := Finish(h, ETH_ROTATION_EIP712_TYPE, fields);
  }

  method Finish(h: Hashes, typeText: string, fields: bytes) returns (digest: Bytes32)
    ensures digest == h.keccak(FinalInput(CawalaDomain(h), h.keccak(h.keccak(Utf8(typeText)) + fields)))
  {
    var structHash := Eip712HashStruct(h, h.keccak(Utf8(typeText)), fields);
    var domain := Eip712DomainSeparator(h, EIP712_DOMAIN_NAME, EIP712_DOMAIN_VERSION, CAWALA_CHAIN_ID);
    digest := Eip712Digest(h, domain, structHash);
  }

  // ---- Separation ----

  /** Some step of computing the two digests hashes different inputs to one value. */
  ghost predicate DigestsCollide(h: Hashes, a: Signed, b: Signed)
    requires Admitted(a) && Admitted(b)
  {
    || Collide(h.keccak, FinalInput(CawalaDomain(h), h.keccak(StructInput(h, a))),
                         FinalInput(CawalaDomain(h), h.keccak(StructInput(h, b))))
    || Collide(h.keccak, StructInput(h, a), StructInput(h, b))
    || Collide(h.keccak, Utf8(TypeText(a)), Utf8(TypeText(b)))
    || Collide(h.keccak, Utf8(TextField(a)), Utf8(TextField(b)))
    || (a.OrderDigest? && b.OrderDigest? && Collide(h.orderHash, OrderBytes(a.order), OrderBytes(b.order)))
  }

  lemma TypesDiffer(a: Signed, b: Signed)
    requires Utf8(TypeText(a)) == Utf8(TypeText(b))
    ensures a.OrderDigest? == b.OrderDigest? && a.RegistrationDigest? == b.RegistrationDigest?
  {
    assert |ORDER_EIP712_TYPE| == 47;
    assert |ETH_REGISTRATION_EIP712_TYPE| == 55;
    assert |ETH_ROTATION_EIP712_TYPE| == 70;
  }

  lemma StructsAgree(h: Hashes, a: Signed, b: Signed)
    requires Admitted(a) && Admitted(b) && DigestOf(h, a) == DigestOf(h, b) && !DigestsCollide(h, a, b)
    ensures Utf8(TypeText(a)) == Utf8(TypeText(b)) && Fields(h, a) == Fields(h, b)
  {
    var dom := CawalaDomain(h);
    SamePieces([0x19, 0x01] + dom, h.keccak(StructInput(h, a)), [0x19, 0x01] + dom, h.keccak(StructInput(h, b)));
    SamePieces(h.keccak(Utf8(TypeText(a))), Fields(h, a), h.keccak(Utf8(TypeText(b))), Fields(h, b));
  }

  lemma AddressWordInjective(a: Address20, b: Address20)
    requires AddressWord(a) == AddressWord(b)
    ensures a == b
  {
    SamePieces(seq(12, i => 0 as byte), a, seq(12, i => 0 as byte), b);
  }

  lemma AddressesAgree(t: Bytes32, t': Bytes32, a: Address20, b: Address20, rest: bytes, rest': bytes)
    requires t + (AddressWord(a) + rest) == t' + (AddressWord(b) + rest')
    ensures t == t' && a == b && rest == rest'
  {
    SamePieces(t, AddressWord(a) + rest, t', AddressWord(b) + rest');
    SamePieces(AddressWord(a), rest, AddressWord(b), rest');
    AddressWordInjective(a, b);
  }

  lemma Prefixed(x: string, rest: bytes)
    ensures NodeIdBytes(x) + rest == ToLE(|x|, 8) + (Utf8(x) + rest)
  {
  }

  lemma NodeIdBytesAgree(x: string, y: string, rest: bytes, rest': bytes)
    requires IdFits(x) && IdFits(y)
    requires NodeIdBytes(x) + rest == NodeIdBytes(y) + rest'
    ensures x == y && rest == rest'
  {
    Prefixed(x, rest);
    Prefixed(y, rest');
    NumbersAgree(|x|, |y|, Utf8(x) + rest, Utf8(y) + rest');
    SamePieces(Utf8(x), rest, Utf8(y), rest');
    Utf8Injective(x, y);
  }

  /** The canonical order bytes determine the order. */
  lemma OrderBytesInjective(a: PaymentOrder, b: PaymentOrder)
    requires OrderFits(a) && OrderFits(b) && OrderBytes(a) == OrderBytes(b)
    ensures a == b
  {
    var tail := (o: PaymentOrder) => ToLE(o.amount, 8) + (ToLE(o.nonce, 8) + ToLE(o.expiry, 8));
    NodeIdBytesAgree(a.from, b.from, NodeIdBytes(a.to) + tail(a), NodeIdBytes(b.to) + tail(b));
    NodeIdBytesAgree(a.to, b.to, tail(a), tail(b));
    NumbersAgree(a.amount, b.amount, ToLE(a.nonce, 8) + ToLE(a.expiry, 8), ToLE(b.nonce, 8) + ToLE(b.expiry, 8));
    NumbersAgree(a.nonce, b.nonce, ToLE(a.expiry, 8), ToLE(b.expiry, 8));
    Pow256Eight();
    ToLEInjective(a.expiry, b.expiry, 8);
  }

  lemma OrdersAgree(h: Hashes, a: Signed, b: Signed)
    requires Admitted(a) && Admitted(b) && a.OrderDigest? && b.OrderDigest?
    requires Fields(h, a) == Fields(h, b) && !DigestsCollide(h, a, b)
    ensures a == b
  {
    SamePieces(h.orderHash(OrderBytes(a.order)), h.keccak(Utf8(TextField(a))),
               h.orderHash(OrderBytes(b.order)), h.keccak(Utf8(TextField(b))));
    OrderBytesInjective(a.order, b.order);
    AddressText.AddrTextIsText(a.payee);
    AddressText.AddrTextIsText(b.payee);
    Utf8Injective(TextField(a), TextField(b));
    AddressText.PrintThenParse(a.payee);
    AddressText.PrintThenParse(b.payee);
  }

  lemma RegistrationsAgree(h: Hashes, a: Signed, b: Signed)
    requires Admitted(a) && Admitted(b) && a.RegistrationDigest? && b.RegistrationDigest?
    requires Fields(h, a) == Fields(h, b) && !DigestsCollide(h, a, b)
    ensures a == b
  {
    SamePieces(h.keccak(Utf8(a.node)), AddressWord(a.newAddress), h.keccak(Utf8(b.node)), AddressWord(b.newAddress));
    AddressWordInjective(a.newAddress, b.newAddress);
    Utf8Injective(a.node, b.node);
  }

  lemma RotationsAgree(h: Hashes, a: Signed, b: Signed)
    requires Admitted(a) && Admitted(b) && a.RotationDigest? && b.RotationDigest?
    requires Fields(h, a) == Fields(h, b) && !DigestsCollide(h, a, b)
    ensures a == b
  {
    AddressesAgree(h.keccak(Utf8(a.node)), h.keccak(Utf8(b.node)), a.oldAddress, b.oldAddress,
                   AddressWord(a.newAddress), AddressWord(b.newAddress));
    AddressWordInjective(a.newAddress, b.newAddress);
    Utf8Injective(a.node, b.node);
  }

  /**
   Equal digests bind the same kind and the same inputs, down to every field of an
   order, or one of the hashes taken on the way to these two digests collides.
   */
  lemma DigestsSeparate(h: Hashes, a: Signed, b: Signed)
    requires Admitted(a) && Admitted(b) && DigestOf(h, a) == DigestOf(h, b)
    ensures a == b || DigestsCollide(h, a, b)
  {
    if !DigestsCollide(h, a, b) {
      StructsAgree(h, a, b);
      TypesDiffer(a, b);
      if a.OrderDigest? { OrdersAgree(h, a, b); }
      else if a.RegistrationDigest? { RegistrationsAgree(h, a, b); }
      else { RotationsAgree(h, a, b); }
    }
  }

  /** Equal domain separators name the same application, version and chain, or a hash taken for them collides. */
  lemma DomainsSeparate(h: Hashes, n: string, v: string, c: U64, n': string, v': string, c': U64)
    requires IsText(n) && IsText(v) && IsText(n') && IsText(v')
    requires DomainSeparator(h, n, v, c) == DomainSeparator(h, n', v', c')
    ensures || (n == n' && v == v' && c == c')
            || Collide(h.keccak, Utf8(n), Utf8(n'))
            || Collide(h.keccak, Utf8(v), Utf8(v'))
            || Collide(h.keccak, h.keccak(Utf8(EIP712_DOMAIN_TYPE)) + DomainFields(h, n, v, c),
                                 h.keccak(Utf8(EIP712_DOMAIN_TYPE)) + DomainFields(h, n', v', c'))
  {
    var t := h.keccak(Utf8(EIP712_DOMAIN_TYPE));
    if t + DomainFields(h, n, v, c) == t + DomainFields(h, n', v', c') {
      SamePieces(t, DomainFields(h, n, v, c), t, DomainFields(h, n', v', c'));
      SamePieces(h.keccak(Utf8(n)) + h.keccak(Utf8(v)), ChainIdWord(c), h.keccak(Utf8(n')) + h.keccak(Utf8(v')),
                 ChainIdWord(c'));
      SamePieces(h.keccak(Utf8(n)), h.keccak(Utf8(v)), h.keccak(Utf8(n')), h.keccak(Utf8(v')));
      SamePieces(seq(24, i => 0 as byte), ToBE(c, 8), seq(24, i => 0 as byte), ToBE(c', 8));
      Pow256Eight();
      BEOfToBE(c, 8);
      BEOfToBE(c', 8);
      if Utf8(n) == Utf8(n') { Utf8Injective(n, n'); }
      if Utf8(v) == Utf8(v') { Utf8Injective(v, v'); }
    }
  }
}
