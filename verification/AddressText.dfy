/** The dotted text of an octal address, printed and parsed. */
module AddressText {
  import opened Common
  import opened Text

  predicate Digits(a: OctAddr) {
    forall i :: 0 <= i < |a| ==> a[i] <= MAX_SLOT
  }

  function DigitChar(d: nat): char
    requires d <= MAX_SLOT
  {
    '0' + d as char
  }

  function DigitTexts(a: OctAddr): (parts: seq<string>)
    requires Digits(a)
    ensures |parts| == |a| && forall i :: 0 <= i < |a| ==> parts[i] == [DigitChar(a[i])]
  {
    seq(|a|, i requires 0 <= i < |a| => [DigitChar(a[i])])
  }

  /** One digit per level, with a dot between levels. */
  function AddrText(a: OctAddr): string
    requires Digits(a)
  {
    Join(DigitTexts(a), '.')
  }

  method Print(a: OctAddr) returns (out: string)
    requires Digits(a)
    ensures out == AddrText(a)
  {
    out := "";
    var texts := DigitTexts(a);
    for i := 0 to |a|
      invariant out == Join(texts[..i], '.')
    {
      assert texts[..i + 1][..i] == texts[..i];
      if i > 0 { out := out + "."; }
      out := out + [DigitChar(a[i])];
    }
    assert texts[..|a|] == texts;
  }

  predicate IsDigitText(part: string) {
    |part| == 1 && '0' <= part[0] <= '7'
  }

  /** An address text: one octal digit per component, the first of them `0`. */
  predicate IsAddrText(s: string) {
    var parts := Split(s, '.');
    && s != ""
    && (forall i :: 0 <= i < |parts| ==> IsDigitText(parts[i]))
    && parts[0] == "0"
  }

  function DigitOf(part: string): nat
    requires IsDigitText(part)
  {
    (part[0] - '0') as nat
  }

  function ParseAddr(s: string): (r: Option<OctAddr>)
    ensures r.Some? <==> IsAddrText(s)
    ensures r.Some? ==> ValidAddr(r.value)
  {
    if !IsAddrText(s) then None
    else
      var parts := Split(s, '.');
      Some(seq(|parts|, i requires 0 <= i < |parts| => DigitOf(parts[i])))
  }

  method Parse(s: string) returns (r: Option<OctAddr>)
    ensures r == ParseAddr(s)
  {
    if s == "" { return None; }
    var digits: OctAddr := [];
    var parts := Split(s, '.');
    for i := 0 to |parts|
      invariant |digits| == i
      invariant forall j :: 0 <= j < i ==> IsDigitText(parts[j]) && digits[j] == DigitOf(parts[j])
      invariant i > 0 ==> parts[0] == "0"
    {
      var comp := parts[i];
      if |comp| != 1 { return None; }
      var c := comp[0];
      if !('0' <= c <= '7') { return None; }
      if i == 0 && c != '0' { return None; }
      digits := digits + [(c - '0') as nat];
    }
    assert digits == seq(|parts|, i requires 0 <= i < |parts| => DigitOf(parts[i]));
    r := Some(digits);
  }

  /** Parsing a printed address gives it back. */
  lemma PrintThenParse(a: OctAddr)
    requires ValidAddr(a)
    ensures ParseAddr(AddrText(a)) == Some(a)
    ensures '&' !in AddrText(a)
    ensures AddrText(a) != ""
  {
    var parts := DigitTexts(a);
    SplitJoin(parts, '.');
    assert forall i :: 0 <= i < |parts| ==> IsDigitText(parts[i]) && DigitOf(parts[i]) == a[i];
    if |a| > 1 { JoinFront(parts, '.'); }
    NoOtherChar(a);
    assert ParseAddr(AddrText(a)).value == a;
  }

  lemma AddrTextIsText(a: OctAddr)
    requires Digits(a)
    ensures IsText(AddrText(a))
  {
    NoOtherChar(a);
    var s := AddrText(a);
    forall i | 0 <= i < |s| ensures s[i] as int < 256 {
      assert s[i] in s;
    }
  }

  lemma {:induction false} NoOtherChar(a: OctAddr)
    requires Digits(a)
    ensures forall c :: c in AddrText(a) ==> c == '.' || '0' <= c <= '7'
  {
    if |a| == 1 {
      assert AddrText(a) == [DigitChar(a[0])];
    } else if |a| >= 2 {
      var init := a[..|a| - 1];
      NoOtherChar(init);
      assert DigitTexts(a)[..|a| - 1] == DigitTexts(init);
      assert AddrText(a) == AddrText(init) + ['.'] + [DigitChar(a[|a| - 1])];
    }
  }

  /** There is one spelling of an address: printing a parsed text gives it back. */
  lemma ParseThenPrint(s: string)
    requires ParseAddr(s).Some?
    ensures AddrText(ParseAddr(s).value) == s
  {
    JoinSplit(s, '.');
    var a := ParseAddr(s).value;
    var parts, texts := Split(s, '.'), DigitTexts(a);
    forall i | 0 <= i < |parts| ensures parts[i] == texts[i] {
      DigitTextIs(parts[i]);
      assert a[i] == DigitOf(parts[i]);
    }
    assert parts == texts;
  }

  lemma DigitTextIs(part: string)
    requires IsDigitText(part)
    ensures part == [DigitChar(DigitOf(part))]
  {
  }
}
