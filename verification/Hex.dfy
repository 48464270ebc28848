/** Hexadecimal text of 32-byte keys: printed in lower case, read in either. */
module Hex {
  import opened Common
  import opened Bytes

  const HEX_LOWER: string := "0123456789abcdef"
  const HEX_UPPER: string := "0123456789ABCDEF"

  /** One hex digit to its value, in either case. */
  function HexNibble(c: char): (v: Option<nat>)
    ensures v.Some? ==> v.value < 16 && Spells(c, v.value)
    ensures forall n: nat :: n < 16 && Spells(c, n) ==> v == Some(n)
  {
    if '0' <= c <= '9' then Some((c - '0') as nat)
    else if 'a' <= c <= 'f' then Some((c - 'a') as nat + 10)
    else if 'A' <= c <= 'F' then Some((c - 'A') as nat + 10)
    else None
  }

  /** `c` is the digit of `v`, in one case or the other. */
  predicate Spells(c: char, v: nat)
    requires v < 16
  {
    c == HEX_LOWER[v] || c == HEX_UPPER[v]
  }

  /** `s` spells `b`: two digits a byte, the high one first, each in either case. */
  predicate SpellsBytes(s: string, b: bytes) {
    && |s| == 2 * |b|
    && forall i :: 0 <= i < |b| ==> Spells(s[2 * i], b[i] as nat / 16) && Spells(s[2 * i + 1], b[i] as nat % 16)
  }

  /** The lower-case text of `b`. */
  function HexText(b: bytes): (s: string)
    ensures |s| == 2 * |b|
  {
    seq(2 * |b|, i requires 0 <= i < 2 * |b| => LowerDigit(b, i))
  }

  function LowerDigit(b: bytes, i: nat): char
    requires i < 2 * |b|
  {
    if i % 2 == 0 then HEX_LOWER[b[i / 2] as nat / 16] else HEX_LOWER[b[i / 2] as nat % 16]
  }

  lemma DigitsOfByte(b: bytes, i: nat)
    requires i < |b|
    ensures HexText(b)[2 * i] == HEX_LOWER[b[i] as nat / 16]
    ensures HexText(b)[2 * i + 1] == HEX_LOWER[b[i] as nat % 16]
  {
  }

  lemma HexTextSpells(b: bytes)
    ensures SpellsBytes(HexText(b), b)
  {
    forall i | 0 <= i < |b|
      ensures Spells(HexText(b)[2 * i], b[i] as nat / 16) && Spells(HexText(b)[2 * i + 1], b[i] as nat % 16)
    {
      DigitsOfByte(b, i);
    }
  }

  predicate IsHex64(raw: string) {
    |raw| == 64 && forall i :: 0 <= i < 64 ==> HexNibble(raw[i]).Some?
  }

  function ByteAt(raw: string, i: nat): byte
    requires IsHex64(raw) && i < 32
  {
    (HexNibble(raw[2 * i]).value * 16 + HexNibble(raw[2 * i + 1]).value) as byte
  }

  /** 64 hex digits into 32 bytes. */
  function HexValue(raw: string): (r: Option<bytes>)
    ensures r.Some? ==> |r.value| == 32
  {
    if IsHex64(raw) then Some(seq(32, i requires 0 <= i < 32 => ByteAt(raw, i))) else None
  }

  method DecodeHex32(raw: string) returns (r: Option<bytes>)
    ensures r == HexValue(raw)
  {
    if |raw| != 64 { return None; }
    var out := new byte[32](i => 0);
    for i := 0 to 32
      invariant forall j :: 0 <= j < 2 * i ==> HexNibble(raw[j]).Some?
      invariant forall j :: 0 <= j < i ==>
        out[j] as nat == HexNibble(raw[2 * j]).value * 16 + HexNibble(raw[2 * j + 1]).value
    {
      var hi := HexNibble(raw[i * 2]);
      if hi.None? { return None; }
      var lo := HexNibble(raw[i * 2 + 1]);
      if lo.None? { return None; }
      out[i] := (hi.value * 16 + lo.value) as byte;
    }
    assert IsHex64(raw);
    forall j | 0 <= j < 32 ensures out[..][j] == ByteAt(raw, j) {
    }
    r := Some(out[..]);
    assert out[..] == HexValue(raw).value;
  }

  lemma NibblesOfByte(hi: nat, lo: nat)
    requires hi < 16 && lo < 16
    ensures (hi * 16 + lo) / 16 == hi && (hi * 16 + lo) % 16 == lo
  {
  }

  lemma DecodedSpells(raw: string, i: nat)
    requires IsHex64(raw) && i < 32
    ensures Spells(raw[2 * i], ByteAt(raw, i) as nat / 16) && Spells(raw[2 * i + 1], ByteAt(raw, i) as nat % 16)
  {
    var hi, lo := HexNibble(raw[2 * i]).value, HexNibble(raw[2 * i + 1]).value;
    NibblesOfByte(hi, lo);
    assert ByteAt(raw, i) as nat == hi * 16 + lo;
  }

  lemma SpelledDigit(raw: string, b: bytes, i: nat)
    requires |b| == 32 && SpellsBytes(raw, b) && i < 64
    ensures HexNibble(raw[i]) == Some(if i % 2 == 0 then b[i / 2] as nat / 16 else b[i / 2] as nat % 16)
  {
    var k := i / 2;
    assert Spells(raw[2 * k], b[k] as nat / 16) && Spells(raw[2 * k + 1], b[k] as nat % 16);
  }

  /**
   Decoding succeeds exactly on the texts that spell some 32 bytes, in any mixture of cases, and gives
   those bytes.
  */
  lemma DecodeIsExact(raw: string, b: bytes)
    ensures HexValue(raw) == Some(b) <==> |b| == 32 && SpellsBytes(raw, b)
  {
    if IsHex64(raw) {
      var v := HexValue(raw).value;
      forall i | 0 <= i < 32
        ensures Spells(raw[2 * i], v[i] as nat / 16) && Spells(raw[2 * i + 1], v[i] as nat % 16)
      {
        DecodedSpells(raw, i);
      }
      assert SpellsBytes(raw, v);
    }
    if |b| == 32 && SpellsBytes(raw, b) {
      forall i | 0 <= i < 64 ensures HexNibble(raw[i]).Some? { SpelledDigit(raw, b, i); }
      forall i | 0 <= i < 32 ensures ByteAt(raw, i) == b[i] {
        SpelledDigit(raw, b, 2 * i);
        SpelledDigit(raw, b, 2 * i + 1);
      }
      assert HexValue(raw).value == b;
    }
  }

  /** Decoding undoes printing. */
  lemma HexRoundTrip(b: bytes)
    requires |b| == 32
    ensures HexValue(HexText(b)) == Some(b)
  {
    HexTextSpells(b);
    DecodeIsExact(HexText(b), b);
  }
}
