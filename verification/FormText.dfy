/**
 Query text: strict percent-encoding on the way out (section 2.1 of RFC 3986) and
 form decoding on the way in (section 5.1 of the URL Standard).
 */
module FormText {
  import opened Common
  import opened Text
  import opened Hex

  /** The characters kept literally (section 2.3 of RFC 3986). */
  predicate Unreserved(c: char) {
    'A' <= c <= 'Z' || 'a' <= c <= 'z' || '0' <= c <= '9' || c == '-' || c == '.' || c == '_' || c == '~'
  }

  function HighNibble(c: char): (v: nat)
    ensures v < 16
  {
    c as int % 256 / 16
  }

  function LowNibble(c: char): (v: nat)
    ensures v < 16
  {
    c as int % 16
  }

  function EncodeByte(c: char): string {
    if Unreserved(c) then [c] else ['%', HEX_UPPER[HighNibble(c)], HEX_UPPER[LowNibble(c)]]
  }

  function Encoded(s: string): string {
    if s == "" then "" else EncodeByte(s[0]) + Encoded(s[1..])
  }

  /** One pass over the bytes, appending to the output. */
  method PercentEncode(value: string) returns (out: string)
    ensures out == Encoded(value)
  {
    out := "";
    for i := 0 to |value|
      invariant out + Encoded(value[i..]) == Encoded(value)
    {
      EncodedStep(out, value, i);
      if Unreserved(value[i]) {
        out := out + [value[i]];
      } else {
        var escape := ['%'];
        escape := escape + [HEX_UPPER[HighNibble(value[i])]];
        escape := escape + [HEX_UPPER[LowNibble(value[i])]];
        out := out + escape;
      }
    }
  }

  lemma EncodedStep(out: string, value: string, i: nat)
    requires i < |value|
    ensures out + Encoded(value[i..]) == out + EncodeByte(value[i]) + Encoded(value[i + 1..])
  {
    assert value[i..][0] == value[i] && value[i..][1..] == value[i + 1..];
  }

  /** `%` followed by two hex digits. */
  predicate IsEscape(s: string) {
    |s| >= 3 && s[0] == '%' && HexNibble(s[1]).Some? && HexNibble(s[2]).Some?
  }

  /** Form decoding: `+` is a space, an escape is its byte, a stray `%` is itself. */
  function Decoded(s: string): string {
    if s == "" then ""
    else if s[0] == '+' then " " + Decoded(s[1..])
    else if IsEscape(s) then [(HexNibble(s[1]).value * 16 + HexNibble(s[2]).value) as char] + Decoded(s[3..])
    else [s[0]] + Decoded(s[1..])
  }

  lemma TripleDecodes(hi: nat, lo: nat, rest: string)
    requires hi < 16 && lo < 16
    ensures Decoded(['%', HEX_UPPER[hi], HEX_UPPER[lo]] + rest) == [(hi * 16 + lo) as char] + Decoded(rest)
  {
    var s := ['%', HEX_UPPER[hi], HEX_UPPER[lo]] + rest;
    assert Spells(s[1], hi) && Spells(s[2], lo);
    assert HexNibble(s[1]) == Some(hi) && HexNibble(s[2]) == Some(lo);
    assert s[3..] == rest;
  }

  lemma Nibbles(c: char)
    requires c as int < 256
    ensures HighNibble(c) * 16 + LowNibble(c) == c as int
  {
  }

  lemma EscapeDecodes(c: char, rest: string)
    requires c as int < 256
    ensures Decoded(EncodeByte(c) + rest) == [c] + Decoded(rest)
  {
    if Unreserved(c) {
      assert ([c] + rest)[1..] == rest;
    } else {
      Nibbles(c);
      TripleDecodes(HighNibble(c), LowNibble(c), rest);
    }
  }

  /** Form decoding undoes percent-encoding on every text. */
  lemma {:induction false} DecodeUndoesEncode(s: string)
    requires IsText(s)
    ensures Decoded(Encoded(s)) == s
  {
    if s != "" {
      DecodeUndoesEncode(s[1..]);
      EscapeDecodes(s[0], Encoded(s[1..]));
      assert s == [s[0]] + s[1..];
    }
  }

  /** Form encoding as browsers write it: a space is `+`, the rest as above. */
  function Formed(s: string): string {
    if s == "" then "" else (if s[0] == ' ' then "+" else EncodeByte(s[0])) + Formed(s[1..])
  }

  /** Spaces written as `+` are read back too. */
  lemma {:induction false} DecodeUndoesForm(s: string)
    requires IsText(s)
    ensures Decoded(Formed(s)) == s
  {
    if s != "" {
      DecodeUndoesForm(s[1..]);
      assert s == [s[0]] + s[1..];
      if s[0] == ' ' {
        assert ("+" + Formed(s[1..]))[1..] == Formed(s[1..]);
      } else {
        EscapeDecodes(s[0], Formed(s[1..]));
      }
    }
  }

  /** Characters that mean nothing to a query: no separator, no `+`, no fragment mark. */
  predicate QuerySafe(s: string) {
    '&' !in s && '=' !in s && '+' !in s && '#' !in s
  }

  predicate AllUnreserved(s: string) {
    forall i :: 0 <= i < |s| ==> Unreserved(s[i])
  }

  /** Unreserved characters and escape marks only. */
  predicate EscapedText(s: string) {
    forall i :: 0 <= i < |s| ==> Unreserved(s[i]) || s[i] == '%'
  }

  lemma HexDigitIsUnreserved(v: nat)
    requires v < 16
    ensures Unreserved(HEX_UPPER[v]) && Unreserved(HEX_LOWER[v])
  {
    assert HexNibble(HEX_UPPER[v]) == Some(v) by { assert Spells(HEX_UPPER[v], v); }
    assert HexNibble(HEX_LOWER[v]) == Some(v) by { assert Spells(HEX_LOWER[v], v); }
  }

  /** Percent-encoding emits unreserved characters and escape marks only. */
  lemma {:induction false} EncodedIsEscaped(s: string)
    ensures EscapedText(Encoded(s))
  {
    if s != "" {
      EncodedIsEscaped(s[1..]);
      HexDigitIsUnreserved(HighNibble(s[0]));
      HexDigitIsUnreserved(LowNibble(s[0]));
      assert EscapedText(EncodeByte(s[0]));
    }
  }

  lemma EscapedIsQuerySafe(s: string)
    requires EscapedText(s)
    ensures QuerySafe(s)
  {
  }

  /** Percent-encoding emits no separator, no `+` and no fragment mark. */
  lemma EncodedIsQuerySafe(s: string)
    ensures QuerySafe(Encoded(s))
  {
    EncodedIsEscaped(s);
    EscapedIsQuerySafe(Encoded(s));
  }

  /** Text without `+` and `%` decodes to itself. */
  lemma {:induction false} PlainDecodes(s: string)
    requires '+' !in s && '%' !in s
    ensures Decoded(s) == s
  {
    if s != "" {
      PlainDecodes(s[1..]);
      assert s == [s[0]] + s[1..];
    }
  }

  // ---- Query pairs ----

  type Pair = (string, string)

  function PairText(p: Pair): string {
    p.0 + "=" + p.1
  }

  function PairTexts(ps: seq<Pair>): (r: seq<string>)
    ensures |r| == |ps|
    ensures forall i :: 0 <= i < |ps| ==> r[i] == PairText(ps[i])
  {
    seq(|ps|, i requires 0 <= i < |ps| => PairText(ps[i]))
  }

  function DecodedPair(part: string): Pair {
    var i := IndexOf(part, '=');
    if i == |part| then (Decoded(part), "") else (Decoded(part[..i]), Decoded(part[i + 1..]))
  }

  /** The name-value pairs of a query, empty parts skipped. */
  function PairsOf(parts: seq<string>): seq<Pair> {
    if parts == [] then []
    else if parts[0] == "" then PairsOf(parts[1..])
    else [DecodedPair(parts[0])] + PairsOf(parts[1..])
  }

  function QueryPairs(query: string): seq<Pair> {
    PairsOf(Split(query, '&'))
  }

  predicate Writable(p: Pair) {
    && '&' !in p.0 && '=' !in p.0 && '+' !in p.0 && '%' !in p.0
    && '&' !in p.1
  }

  ghost predicate AllWritable(ps: seq<Pair>) {
    forall i :: 0 <= i < |ps| ==> Writable(ps[i])
  }

  function DecodedValues(ps: seq<Pair>): (r: seq<Pair>)
    ensures |r| == |ps|
    ensures forall i :: 0 <= i < |ps| ==> r[i] == (ps[i].0, Decoded(ps[i].1))
  {
    seq(|ps|, i requires 0 <= i < |ps| => (ps[i].0, Decoded(ps[i].1)))
  }

  lemma PairDecodes(p: Pair)
    requires Writable(p)
    ensures PairText(p) != "" && DecodedPair(PairText(p)) == (p.0, Decoded(p.1))
  {
    var s := PairText(p);
    assert s == p.0 + ['='] + p.1;
    IndexOfIs(p.0, '=', p.1);
    assert s[..|p.0|] == p.0 && s[|p.0| + 1..] == p.1;
    PlainDecodes(p.0);
  }

  lemma {:induction false} PairsOfTexts(ps: seq<Pair>)
    requires AllWritable(ps)
    ensures PairsOf(PairTexts(ps)) == DecodedValues(ps)
  {
    if ps != [] {
      PairDecodes(ps[0]);
      PairsOfTexts(ps[1..]);
      assert PairTexts(ps)[1..] == PairTexts(ps[1..]);
      assert DecodedValues(ps) == [(ps[0].0, Decoded(ps[0].1))] + DecodedValues(ps[1..]);
    }
  }

  /** Pairs joined with `&` are read back as those pairs with their values decoded. */
  lemma QueryReadsBack(ps: seq<Pair>)
    requires ps != [] && AllWritable(ps)
    ensures QueryPairs(Join(PairTexts(ps), '&')) == DecodedValues(ps)
  {
    var texts := PairTexts(ps);
    forall i | 0 <= i < |texts| ensures '&' !in texts[i] {
      assert Writable(ps[i]);
    }
    SplitJoin(texts, '&');
    PairsOfTexts(ps);
  }

  // ---- Decimal numbers ----

  /** `n` in decimal, without leading zeros. */
  function NatText(n: nat): (s: string)
    ensures s != "" && AllDigits(s)
  {
    if n < 10 then [('0' + n as char)] else NatText(n / 10) + ['0' + (n % 10) as char]
  }

  predicate AllDigits(s: string) {
    forall i :: 0 <= i < |s| ==> '0' <= s[i] <= '9'
  }

  function DigitsValue(s: string): nat
    requires AllDigits(s)
  {
    if s == "" then 0 else DigitsValue(s[..|s| - 1]) * 10 + (s[|s| - 1] - '0') as nat
  }

  /** An unsigned integer as the standard library reads it: one leading `+` and leading zeros are accepted. */
  function ParseUnsigned(raw: string, max: nat): Option<nat> {
    var s := if raw != "" && raw[0] == '+' then raw[1..] else raw;
    if s == "" || !AllDigits(s) || DigitsValue(s) > max then None else Some(DigitsValue(s))
  }

  lemma {:induction false} NatTextValue(n: nat)
    ensures DigitsValue(NatText(n)) == n
  {
    if n >= 10 {
      NatTextValue(n / 10);
      var s := NatText(n);
      assert s[..|s| - 1] == NatText(n / 10);
    } else {
      assert NatText(n)[..0] == "";
    }
  }

  lemma NumberReadsBack(n: nat, max: nat)
    ensures ParseUnsigned(NatText(n), max) == if n <= max then Some(n) else None
  {
    NatTextValue(n);
    assert '0' <= NatText(n)[0];
  }
}
