/**
 Connection invites: `cawala://join?parent=..&op=..[&slot=..][&exp=..][&label=..][&relay=..][&ip=..]`,
 printed and parsed.
 */
module Invites {
  import opened Common
  import opened Bytes
  import opened Text
  import opened Hex
  import opened FormText

  const PREFIX: string := "cawala://join?"
  const U8_MAX: nat := 255

  /** A relay URL and a socket address, opaque here; `Codec` prints and reads them. */
  datatype Relay = Relay(url: string)
  datatype SocketAddr = SocketAddr(text: string)

  datatype Invite = Invite(
    parent: string, operator: bytes, slot: Option<nat>, expiry: Option<nat>,
    label_: Option<string>, relay: Option<Relay>, ip: Option<SocketAddr>)

  datatype InviteError =
    | Malformed | NotAnInvite | Duplicate(key: string) | Missing(key: string) | BadOperatorKey
    | BadSlot(raw: string) | BadExpiry(raw: string) | BadRelay(raw: string) | BadIp(raw: string)

  /** The parts of a parsed URL that the invite parser looks at. */
  datatype Url = Url(scheme: string, host: Option<string>, query: Option<string>)

  /** Key, URL and address syntax, left uninterpreted. `readRelay` includes the host and scheme rules. */
  datatype Codec = Codec(
    parseUrl: string -> Option<Url>,
    isOperatorKey: bytes -> bool,
    relayText: Relay -> string, readRelay: string -> Option<Relay>,
    ipText: SocketAddr -> string, readIp: string -> Option<SocketAddr>)

  // ---- Printing ----

  /** A parameter: its key, its plain value if present, and whether the value is free text to percent-encode. */
  datatype Field = Field(key: string, value: Option<string>, free: bool)

  function SlotField(inv: Invite): Field {
    Field("slot", if inv.slot.Some? then Some(NatText(inv.slot.value)) else None, false)
  }

  function ExpiryField(inv: Invite): Field {
    Field("exp", if inv.expiry.Some? then Some(NatText(inv.expiry.value)) else None, false)
  }

  function RelayField(cd: Codec, inv: Invite): Field {
    Field("relay", if inv.relay.Some? then Some(cd.relayText(inv.relay.value)) else None, true)
  }

  function IpField(cd: Codec, inv: Invite): Field {
    Field("ip", if inv.ip.Some? then Some(cd.ipText(inv.ip.value)) else None, true)
  }

  /** The invite's parameters in the order they are printed. */
  function Fields(cd: Codec, inv: Invite): seq<Field> {
    [ Field("parent", Some(inv.parent), true),
      Field("op", Some(HexText(inv.operator)), false),
      SlotField(inv),
      ExpiryField(inv),
      Field("label", inv.label_, true),
      RelayField(cd, inv),
      IpField(cd, inv) ]
  }

  function Wire(f: Field): Field {
    if f.free && f.value.Some? then f.(value := Some(Encoded(f.value.value))) else f
  }

  /** The parameters present, in order. */
  function Present(fs: seq<Field>): seq<Pair> {
    if fs == [] then []
    else
      var last := fs[|fs| - 1];
      var before := Present(fs[..|fs| - 1]);
      if last.value.Some? then before + [(last.key, last.value.value)] else before
  }

  function WireFields(fs: seq<Field>): (r: seq<Field>)
    ensures |r| == |fs|
    ensures forall i :: 0 <= i < |fs| ==> r[i] == Wire(fs[i])
  {
    seq(|fs|, i requires 0 <= i < |fs| => Wire(fs[i]))
  }

  function Param(f: Field): string {
    if f.value.Some? then "&" + (f.key + "=" + f.value.value) else ""
  }

  /** The prefix and the first `k` parameters, each after the first behind an `&`. */
  function Appended(fs: seq<Field>, k: nat): string
    requires 1 <= k <= |fs| && fs[0].value.Some?
  {
    if k == 1 then PREFIX + (fs[0].key + "=" + fs[0].value.value) else Appended(fs, k - 1) + Param(fs[k - 1])
  }

  function EncodedInvite(cd: Codec, inv: Invite): string {
    Appended(WireFields(Fields(cd, inv)), 7)
  }

  /** What the first `k` parameters print as. */
  function Printed(fs: seq<Field>, k: nat): string
    requires k <= |fs|
  {
    PREFIX + Join(PairTexts(Present(fs[..k])), '&')
  }

  lemma ParamAdds(fs: seq<Field>, k: nat)
    requires 0 < k < |fs| && fs[0].value.Some?
    ensures Printed(fs, k + 1)
         == Printed(fs, k) + Param(fs[k])
  {
    assert fs[..k + 1][..k] == fs[..k];
    FirstPresent(fs[..k]);
    if fs[k].value.Some? {
      JoinMore(Present(fs[..k]), (fs[k].key, fs[k].value.value));
    } else {
      assert Present(fs[..k + 1]) == Present(fs[..k]);
      assert Printed(fs, k) + "" == Printed(fs, k);
    }
  }

  lemma {:induction false} FirstPresent(fs: seq<Field>)
    requires fs != [] && fs[0].value.Some?
    ensures Present(fs) != [] && Present(fs)[0] == (fs[0].key, fs[0].value.value)
  {
    if |fs| == 1 {
      assert Present(fs[..0]) == [];
    } else {
      FirstPresent(fs[..|fs| - 1]);
    }
  }

  lemma FirstParam(fs: seq<Field>)
    requires fs != [] && fs[0].value.Some?
    ensures Printed(fs, 1) == PREFIX + (fs[0].key + "=" + fs[0].value.value)
  {
    assert Present(fs[..0]) == [];
    assert fs[..1][..0] == fs[..0];
    var p := (fs[0].key, fs[0].value.value);
    assert Present(fs[..1]) == [p];
    assert Join(PairTexts([p]), '&') == PairText(p);
  }

  lemma JoinMore(ps: seq<Pair>, p: Pair)
    requires ps != []
    ensures Join(PairTexts(ps + [p]), '&') == Join(PairTexts(ps), '&') + "&" + PairText(p)
  {
    var texts := PairTexts(ps + [p]);
    assert texts[..|ps|] == PairTexts(ps);
  }

  /** The printed text is the present parameters joined with `&`. */
  lemma {:induction false} AppendedIsPrinted(fs: seq<Field>, k: nat)
    requires 1 <= k <= |fs| && fs[0].value.Some?
    ensures Appended(fs, k) == Printed(fs, k)
  {
    if k == 1 {
      FirstParam(fs);
    } else {
      AppendedIsPrinted(fs, k - 1);
      OneMoreParam(fs, k - 1);
    }
  }

  lemma OneMoreParam(fs: seq<Field>, k: nat)
    requires 0 < k < |fs| && fs[0].value.Some? && Appended(fs, k) == Printed(fs, k)
    ensures Appended(fs, k + 1) == Printed(fs, k + 1)
  {
    var a, p := Appended(fs, k), Param(fs[k]);
    assert Appended(fs, k + 1) == a + p;
    ParamAdds(fs, k);
  }

  /** Append `&key=value` when the value is present. */
  method PushParam(out: string, key: string, value: Option<string>, ghost fs: seq<Field>, ghost k: nat)
    returns (r: string)
    requires 0 < k < |fs| && fs[0].value.Some?
    requires fs[k].key == key && fs[k].value == value && out == Appended(fs, k)
    ensures r == Appended(fs, k + 1)
  {
    r := out;
    if value.Some? {
      var param := "&" + (key + "=" + value.value);
      r := r + param;
    } else {
      assert out + "" == out;
    }
  }

  /** Percent-encode a value that may be absent. */
  method EncodeOption(value: Option<string>) returns (r: Option<string>)
    ensures r == if value.Some? then Some(Encoded(value.value)) else None
  {
    if value.None? { return None; }
    var text := PercentEncode(value.value);
    r := Some(text);
  }

  /** The printer: the two required parameters, then each optional one that is present. */
  method Encode(cd: Codec, inv: Invite) returns (out: string)
    ensures out == EncodedInvite(cd, inv)
  {
    out := EncodeNumbers(cd, inv);
    ghost var fs := WireFields(Fields(cd, inv));
    var value := EncodeOption(inv.label_);
    out := PushParam(out, "label", value, fs, 4);
    value := EncodeOption(if inv.relay.Some? then Some(cd.relayText(inv.relay.value)) else None);
    out := PushParam(out, "relay", value, fs, 5);
    value := EncodeOption(if inv.ip.Some? then Some(cd.ipText(inv.ip.value)) else None);
    out := PushParam(out, "ip", value, fs, 6);
  }

  /** The parameters up to the numeric ones. */
  method EncodeNumbers(cd: Codec, inv: Invite) returns (out: string)
    ensures out == Appended(WireFields(Fields(cd, inv)), 4)
  {
    ghost var fs := WireFields(Fields(cd, inv));
    var text := PercentEncode(inv.parent);
    out := PREFIX + ("parent" + "=" + text);
    out := PushParam(out, "op", Some(HexText(inv.operator)), fs, 1);
    out := PushParam(out, "slot", if inv.slot.Some? then Some(NatText(inv.slot.value)) else None, fs, 2);
    out := PushParam(out, "exp", if inv.expiry.Some? then Some(NatText(inv.expiry.value)) else None, fs, 3);
  }

  // ---- Parsing ----

  /** The query of an invite URI, however it is spelled; empty when it has none. */
  function InviteQuery(cd: Codec, input: string): Result<string, InviteError> {
    var url := cd.parseUrl(input);
    if url.None? then Err(Malformed)
    else if url.value.scheme != "cawala" || url.value.host != Some("join") then Err(NotAnInvite)
    else Ok(if url.value.query.Some? then url.value.query.value else "")
  }

  /** The value given last for `key`. */
  function Lookup(ps: seq<Pair>, key: string): Option<string> {
    if ps == [] then None
    else if ps[|ps| - 1].0 == key then Some(ps[|ps| - 1].1)
    else Lookup(ps[..|ps| - 1], key)
  }

  /** The key of pair `i` was given before. */
  predicate Repeats(ps: seq<Pair>, i: nat)
    requires i < |ps|
  {
    exists j :: 0 <= j < i && ps[j].0 == ps[i].0
  }

  /** The first repeating pair at `from` or later, or `|ps|`. */
  function FirstRepeat(ps: seq<Pair>, from: nat): (i: nat)
    requires from <= |ps|
    ensures from <= i <= |ps|
    decreases |ps| - from
  {
    if from == |ps| || Repeats(ps, from) then from else FirstRepeat(ps, from + 1)
  }

  datatype Params = Params(
    parent: Option<string>, op: Option<string>, slot: Option<string>, expiry: Option<string>,
    label_: Option<string>, relay: Option<string>, ip: Option<string>)

  function ParamsOf(ps: seq<Pair>): Params {
    Params(Lookup(ps, "parent"), Lookup(ps, "op"), Lookup(ps, "slot"), Lookup(ps, "exp"),
           Lookup(ps, "label"), Lookup(ps, "relay"), Lookup(ps, "ip"))
  }

  function ReadOperator(cd: Codec, op: string): Option<bytes> {
    var b := HexValue(op);
    if b.Some? && cd.isOperatorKey(b.value) then b else None
  }

  function ReadSlot(raw: Option<string>): Result<Option<nat>, InviteError> {
    if raw.None? then Ok(None)
    else
      var n := ParseUnsigned(raw.value, U8_MAX);
      if n.None? || n.value > MAX_SLOT then Err(BadSlot(raw.value)) else Ok(n)
  }

  function ReadExpiry(raw: Option<string>): Result<Option<nat>, InviteError> {
    if raw.None? then Ok(None)
    else
      var n := ParseUnsigned(raw.value, U64_MAX);
      if n.None? then Err(BadExpiry(raw.value)) else Ok(n)
  }

  function ReadRelay(cd: Codec, raw: Option<string>): Result<Option<Relay>, InviteError> {
    if raw.None? then Ok(None)
    else if cd.readRelay(raw.value).None? then Err(BadRelay(raw.value))
    else Ok(cd.readRelay(raw.value))
  }

  function ReadIp(cd: Codec, raw: Option<string>): Result<Option<SocketAddr>, InviteError> {
    if raw.None? then Ok(None)
    else if cd.readIp(raw.value).None? then Err(BadIp(raw.value))
    else Ok(cd.readIp(raw.value))
  }

  /** The invite the parameters describe; the first bad one in this order is reported. */
  function ReadParams(cd: Codec, p: Params): Result<Invite, InviteError> {
    if p.parent.None? || p.parent.value == "" then Err(Missing("parent"))
    else if p.op.None? then Err(Missing("op"))
    else if ReadOperator(cd, p.op.value).None? then Err(BadOperatorKey)
    else if ReadSlot(p.slot).Err? then Err(ReadSlot(p.slot).error)
    else if ReadExpiry(p.expiry).Err? then Err(ReadExpiry(p.expiry).error)
    else if ReadRelay(cd, p.relay).Err? then Err(ReadRelay(cd, p.relay).error)
    else if ReadIp(cd, p.ip).Err? then Err(ReadIp(cd, p.ip).error)
    else Ok(Invite(p.parent.value, ReadOperator(cd, p.op.value).value, ReadSlot(p.slot).value,
                   ReadExpiry(p.expiry).value,
                   p.label_, ReadRelay(cd, p.relay).value, ReadIp(cd, p.ip).value))
  }

  function ReadPairs(cd: Codec, ps: seq<Pair>): Result<Invite, InviteError> {
    var i := FirstRepeat(ps, 0);
    if i < |ps| then Err(Duplicate(ps[i].0)) else ReadParams(cd, ParamsOf(ps))
  }

  function ParseInvite(cd: Codec, input: string): Result<Invite, InviteError> {
    var query := InviteQuery(cd, input);
    if query.Err? then Err(query.error) else ReadPairs(cd, QueryPairs(query.value))
  }

  /** One option a parameter may set. */
  function Assign(p: Params, key: string, value: string): Params {
    if key == "parent" then p.(parent := Some(value))
    else if key == "op" then p.(op := Some(value))
    else if key == "slot" then p.(slot := Some(value))
    else if key == "exp" then p.(expiry := Some(value))
    else if key == "label" then p.(label_ := Some(value))
    else if key == "relay" then p.(relay := Some(value))
    else if key == "ip" then p.(ip := Some(value))
    else p
  }

  lemma AssignLooksUp(ps: seq<Pair>, p: Pair)
    ensures ParamsOf(ps + [p]) == Assign(ParamsOf(ps), p.0, p.1)
  {
    LookupMore(ps, p, "parent");
    LookupMore(ps, p, "op");
    LookupMore(ps, p, "slot");
    LookupMore(ps, p, "exp");
    LookupMore(ps, p, "label");
    LookupMore(ps, p, "relay");
    LookupMore(ps, p, "ip");
  }

  lemma LookupMore(ps: seq<Pair>, p: Pair, key: string)
    ensures Lookup(ps + [p], key) == if p.0 == key then Some(p.1) else Lookup(ps, key)
  {
    assert (ps + [p])[..|ps|] == ps;
  }

  /** The pairs of the query in one pass, remembering every key seen and the options set so far. */
  method CollectParams(ps: seq<Pair>) returns (r: Result<Params, InviteError>)
    ensures r == (var i := FirstRepeat(ps, 0); if i < |ps| then Err(Duplicate(ps[i].0)) else Ok(ParamsOf(ps)))
  {
    var p := Params(None, None, None, None, None, None, None);
    var seen: seq<string> := [];
    for i := 0 to |ps|
      invariant |seen| == i && forall j :: 0 <= j < i ==> seen[j] == ps[j].0
      invariant FirstRepeat(ps, i) == FirstRepeat(ps, 0)
      invariant p == ParamsOf(ps[..i])
    {
      var (key, value) := ps[i];
      if key in seen {
        assert Repeats(ps, i);
        return Err(Duplicate(key));
      }
      assert forall j :: 0 <= j < i ==> seen[j] in seen;
      seen := seen + [key];
      AssignLooksUp(ps[..i], ps[i]);
      assert ps[..i] + [ps[i]] == ps[..i + 1];
      p := Assign(p, key, value);
    }
    assert ps[..|ps|] == ps;
    r := Ok(p);
  }

  /** The parser. */
  method Parse(cd: Codec, input: string) returns (r: Result<Invite, InviteError>)
    ensures r == ParseInvite(cd, input)
  {
    var url := cd.parseUrl(input);
    if url.None? { return Err(Malformed); }
    if url.value.scheme != "cawala" || url.value.host != Some("join") { return Err(NotAnInvite); }
    var query := if url.value.query.Some? then url.value.query.value else "";
    var collected := CollectParams(QueryPairs(query));
    if collected.Err? { return Err(collected.error); }
    var p := collected.value;
    if p.parent.None? || p.parent.value == "" { return Err(Missing("parent")); }
    if p.op.None? { return Err(Missing("op")); }
    var key := DecodeHex32(p.op.value);
    if key.None? || !cd.isOperatorKey(key.value) { return Err(BadOperatorKey); }
    var slot := ReadSlot(p.slot);
    if slot.Err? { return Err(slot.error); }
    var expiry := ReadExpiry(p.expiry);
    if expiry.Err? { return Err(expiry.error); }
    var relay := ReadRelay(cd, p.relay);
    if relay.Err? { return Err(relay.error); }
    var ip := ReadIp(cd, p.ip);
    if ip.Err? { return Err(ip.error); }
    r := Ok(Invite(p.parent.value, key.value, slot.value, expiry.value, p.label_, relay.value, ip.value));
  }

  // ---- Round trip ----

  /** What the types of an invite say: texts are bytes, the key is a key, numbers fit. */
  predicate Typed(cd: Codec, inv: Invite) {
    && IsText(inv.parent) && |inv.operator| == 32 && cd.isOperatorKey(inv.operator)
    && (inv.slot.Some? ==> inv.slot.value <= U8_MAX)
    && (inv.expiry.Some? ==> inv.expiry.value <= U64_MAX)
    && (inv.label_.Some? ==> IsText(inv.label_.value))
    && (inv.relay.Some? ==> IsText(cd.relayText(inv.relay.value)))
    && (inv.ip.Some? ==> IsText(cd.ipText(inv.ip.value)))
  }

  /** Keys as they stand in an invite: pairwise different, and plain. */
  ghost predicate DistinctFields(fs: seq<Field>) {
    forall i, j :: 0 <= i < j < |fs| ==> fs[i].key != fs[j].key
  }

  /** A plain key, and a value that is text, or plain where it is printed as it stands. */
  predicate PlainField(f: Field) {
    && AllUnreserved(f.key)
    && (f.value.Some? ==> if f.free then IsText(f.value.value) else AllUnreserved(f.value.value))
  }

  ghost predicate PlainFields(fs: seq<Field>) {
    forall i :: 0 <= i < |fs| ==> PlainField(fs[i])
  }

  lemma WireValueReadsBack(f: Field)
    requires f.value.Some? && PlainField(f)
    ensures EscapedText(Wire(f).value.value) && Decoded(Wire(f).value.value) == f.value.value
  {
    if f.free {
      EncodedIsEscaped(f.value.value);
      DecodeUndoesEncode(f.value.value);
    } else {
      PlainDecodes(f.value.value);
    }
  }

  /** The characters of a printed query: unreserved ones, escape marks and separators. */
  predicate PlainQuery(s: string) {
    forall i :: 0 <= i < |s| ==> Unreserved(s[i]) || s[i] == '%' || s[i] == '&' || s[i] == '='
  }

  lemma PrintedPair(key: string, value: string)
    requires AllUnreserved(key) && EscapedText(value)
    ensures Writable((key, value)) && PlainQuery(PairText((key, value)))
  {
  }

  /** Printed pairs that can be written in a query, of plain characters, and decode to `plain`. */
  ghost predicate ReadsBackAs(ps: seq<Pair>, plain: seq<Pair>) {
    && AllWritable(ps) && DecodedValues(ps) == plain
    && forall i :: 0 <= i < |ps| ==> PlainQuery(PairText(ps[i]))
  }

  lemma ReadsBackMore(ps: seq<Pair>, plain: seq<Pair>, p: Pair)
    requires ReadsBackAs(ps, plain) && Writable(p) && PlainQuery(PairText(p))
    ensures ReadsBackAs(ps + [p], plain + [(p.0, Decoded(p.1))])
  {
    assert DecodedValues(ps + [p]) == DecodedValues(ps) + [(p.0, Decoded(p.1))];
  }

  /** The pairs of a printed invite read back as its parameters. */
  lemma {:induction false} PresentReadsBack(fs: seq<Field>)
    requires PlainFields(fs)
    ensures ReadsBackAs(Present(WireFields(fs)), Present(fs))
  {
    if fs != [] {
      var init, last := fs[..|fs| - 1], fs[|fs| - 1];
      PresentReadsBack(init);
      PresentWire(fs);
      if last.value.Some? { LastReadsBack(Present(WireFields(init)), Present(init), last); }
    }
  }

  lemma PresentWire(fs: seq<Field>)
    requires fs != []
    ensures var init, last := fs[..|fs| - 1], fs[|fs| - 1];
            var before := Present(WireFields(init));
            Present(WireFields(fs)) == if last.value.Some? then before + [(last.key, Wire(last).value.value)]
                else before
  {
    assert WireFields(fs)[..|fs| - 1] == WireFields(fs[..|fs| - 1]);
  }

  lemma LastReadsBack(ps: seq<Pair>, plain: seq<Pair>, f: Field)
    requires ReadsBackAs(ps, plain) && f.value.Some? && PlainField(f)
    ensures ReadsBackAs(ps + [(f.key, Wire(f).value.value)], plain + [(f.key, f.value.value)])
  {
    WireValueReadsBack(f);
    PrintedPair(f.key, Wire(f).value.value);
    ReadsBackMore(ps, plain, (f.key, Wire(f).value.value));
  }

  ghost predicate KeyAmong(fs: seq<Field>, key: string) {
    exists j :: 0 <= j < |fs| && fs[j].key == key
  }

  lemma {:induction false} PresentKeys(fs: seq<Field>)
    ensures forall i :: 0 <= i < |Present(fs)| ==> KeyAmong(fs, Present(fs)[i].0)
  {
    if fs != [] {
      var init := fs[..|fs| - 1];
      PresentKeys(init);
      var ps := Present(fs);
      forall i | 0 <= i < |ps| ensures KeyAmong(fs, ps[i].0) {
        if i < |Present(init)| {
          assert KeyAmong(init, Present(init)[i].0);
          var j :| 0 <= j < |init| && init[j].key == ps[i].0;
          assert fs[j].key == ps[i].0;
        } else {
          assert fs[|fs| - 1].key == ps[i].0;
        }
      }
    }
  }

  ghost predicate DistinctPairs(ps: seq<Pair>) {
    forall i, j :: 0 <= i < j < |ps| ==> ps[i].0 != ps[j].0
  }

  lemma {:induction false} PresentDistinct(fs: seq<Field>)
    requires DistinctFields(fs)
    ensures DistinctPairs(Present(fs))
  {
    if fs != [] {
      var init, last := fs[..|fs| - 1], fs[|fs| - 1];
      PresentDistinct(init);
      PresentKeys(init);
      var ps := Present(init);
      forall i | 0 <= i < |ps| ensures ps[i].0 != last.key {
        assert KeyAmong(init, ps[i].0);
        var j :| 0 <= j < |init| && init[j].key == ps[i].0;
        assert fs[j].key != fs[|fs| - 1].key;
      }
    }
  }

  lemma {:induction false} NoRepeat(ps: seq<Pair>, from: nat)
    requires DistinctPairs(ps) && from <= |ps|
    ensures FirstRepeat(ps, from) == |ps|
    decreases |ps| - from
  {
    if from < |ps| { NoRepeat(ps, from + 1); }
  }

  lemma {:induction false} LookupMissing(fs: seq<Field>, key: string)
    requires forall i :: 0 <= i < |fs| ==> fs[i].key != key
    ensures Lookup(Present(fs), key) == None
  {
    if fs != [] {
      var init, last := fs[..|fs| - 1], fs[|fs| - 1];
      LookupMissing(init, key);
      if last.value.Some? { LookupMore(Present(init), (last.key, last.value.value), key); }
    }
  }

  /** Looking a parameter up among those present gives its value, or nothing when it is absent. */
  lemma {:induction false} PresentLooksUp(fs: seq<Field>, i: nat)
    requires i < |fs| && (forall a, b :: 0 <= a < b < |fs| ==> fs[a].key != fs[b].key)
    ensures Lookup(Present(fs), fs[i].key) == fs[i].value
  {
    var init, last := fs[..|fs| - 1], fs[|fs| - 1];
    if last.value.Some? { LookupMore(Present(init), (last.key, last.value.value), fs[i].key); }
    if i < |fs| - 1 {
      PresentLooksUp(init, i);
      assert fs[i].key != last.key;
    } else {
      LookupMissing(init, last.key);
    }
  }

  lemma HexIsPlain(b: bytes)
    ensures AllUnreserved(HexText(b))
  {
    var s := HexText(b);
    forall i | 0 <= i < |s| ensures Unreserved(s[i]) {
      HexDigitIsUnreserved(if i % 2 == 0 then b[i / 2] as nat / 16 else b[i / 2] as nat % 16);
    }
  }

  const KEYS: seq<string> := ["parent", "op", "slot", "exp", "label", "relay", "ip"]

  lemma KeysAre(cd: Codec, inv: Invite, i: nat)
    requires i < 7
    ensures Fields(cd, inv)[i].key == KEYS[i]
  {
  }

  /** The keys already differ in their first letters. */
  lemma FirstLetter(i: nat)
    requires i < 7
    ensures |KEYS[i]| > 0 && KEYS[i][0] == ['p', 'o', 's', 'e', 'l', 'r', 'i'][i]
  {
  }

  lemma KeyIsPlain(i: nat)
    requires i < 7
    ensures AllUnreserved(KEYS[i])
  {
  }

  lemma InviteKeys(cd: Codec, inv: Invite)
    ensures DistinctFields(Fields(cd, inv))
  {
    var fs := Fields(cd, inv);
    forall i, j | 0 <= i < j < |fs| ensures fs[i].key != fs[j].key {
      KeysAre(cd, inv, i);
      KeysAre(cd, inv, j);
      FirstLetter(i);
      FirstLetter(j);
    }
  }

  lemma InvitePlain(cd: Codec, inv: Invite)
    requires Typed(cd, inv)
    ensures PlainFields(Fields(cd, inv))
  {
    var fs := Fields(cd, inv);
    forall i | 0 <= i < |fs| ensures PlainField(fs[i]) {
      KeysAre(cd, inv, i);
      KeyIsPlain(i);
      InviteValue(cd, inv, i);
    }
  }

  lemma InviteValue(cd: Codec, inv: Invite, i: nat)
    requires Typed(cd, inv) && i < 7
    ensures var f := Fields(cd, inv)[i];
            f.value.Some? ==> if f.free then IsText(f.value.value) else AllUnreserved(f.value.value)
  {
    HexIsPlain(inv.operator);
  }

  /** The invite's own parameters, as the parser should find them. */
  function ParamsIn(cd: Codec, inv: Invite): Params {
    Params(Some(inv.parent), Some(HexText(inv.operator)), SlotField(inv).value, ExpiryField(inv).value,
           inv.label_, RelayField(cd, inv).value, IpField(cd, inv).value)
  }

  lemma InviteParams(cd: Codec, inv: Invite)
    ensures ParamsOf(Present(Fields(cd, inv))) == ParamsIn(cd, inv)
  {
    var fs := Fields(cd, inv);
    InviteKeys(cd, inv);
    PresentLooksUp(fs, 0);
    PresentLooksUp(fs, 1);
    PresentLooksUp(fs, 2);
    PresentLooksUp(fs, 3);
    PresentLooksUp(fs, 4);
    PresentLooksUp(fs, 5);
    PresentLooksUp(fs, 6);
  }

  lemma {:induction false} JoinIsPlain(parts: seq<string>)
    requires forall i :: 0 <= i < |parts| ==> PlainQuery(parts[i])
    ensures PlainQuery(Join(parts, '&'))
  {
    if |parts| > 1 { JoinIsPlain(parts[..|parts| - 1]); }
  }

  /** The URL parser reads the printed prefix as it stands and keeps a query of plain characters. */
  ghost predicate ReadsPrinted(cd: Codec) {
    forall query :: PlainQuery(query) ==> cd.parseUrl(PREFIX + query) == Some(Url("cawala", Some("join"), Some(query)))
  }

  /** The query of a printed invite is its pairs, whole. */
  lemma EncodedQuery(cd: Codec, inv: Invite)
    requires ReadsPrinted(cd) && Typed(cd, inv)
    ensures var query := InviteQuery(cd, EncodedInvite(cd, inv));
            query.Ok? && QueryPairs(query.value) == Present(Fields(cd, inv))
  {
    var fs := Fields(cd, inv);
    var ws := WireFields(fs);
    var ps := Present(ws);
    InvitePlain(cd, inv);
    PresentReadsBack(fs);
    AppendedIsPrinted(ws, 7);
    assert ws[..7] == ws;
    FirstPresent(ws);
    JoinIsPlain(PairTexts(ps));
    QueryReadsBack(ps);
    PrintedQuery(cd, Join(PairTexts(ps), '&'));
  }

  lemma PrintedQuery(cd: Codec, query: string)
    requires ReadsPrinted(cd) && PlainQuery(query)
    ensures InviteQuery(cd, PREFIX + query) == Ok(query)
  {
  }

  /** Printing and parsing hands the parameters over unchanged, whatever text they hold. */
  lemma EncodedParams(cd: Codec, inv: Invite)
    requires ReadsPrinted(cd) && Typed(cd, inv)
    ensures ParseInvite(cd, EncodedInvite(cd, inv)) == ReadParams(cd, ParamsIn(cd, inv))
  {
    EncodedQuery(cd, inv);
    InviteKeys(cd, inv);
    PresentDistinct(Fields(cd, inv));
    NoRepeat(Present(Fields(cd, inv)), 0);
    InviteParams(cd, inv);
  }

  /** The relay and the address, if any, read back from their own texts. */
  predicate HintsReadBack(cd: Codec, inv: Invite) {
    && (inv.relay.Some? ==> cd.readRelay(cd.relayText(inv.relay.value)) == inv.relay)
    && (inv.ip.Some? ==> cd.readIp(cd.ipText(inv.ip.value)) == inv.ip)
  }

  /**
   Parsing the printed invite gives the invite back exactly when its parent is not
   empty, its slot is at most 7 and its transport hints are ones the parser accepts;
   the first two failures are reported as such.
   */
  lemma InviteRoundTrip(cd: Codec, inv: Invite)
    requires ReadsPrinted(cd) && Typed(cd, inv)
    ensures var back := ParseInvite(cd, EncodedInvite(cd, inv));
            && (back == Ok(inv) <==>
                  inv.parent != "" && (inv.slot.Some? ==> inv.slot.value <= MAX_SLOT) && HintsReadBack(cd, inv))
            && (inv.parent == "" ==> back == Err(Missing("parent")))
            && (inv.parent != "" && inv.slot.Some? && inv.slot.value > MAX_SLOT ==>
                back == Err(BadSlot(NatText(inv.slot.value))))
  {
    EncodedParams(cd, inv);
    OperatorReadsBack(cd, inv);
    SlotReadsBack(inv);
    ExpiryReadsBack(inv);
    OwnTextsReadBack(cd, inv, ParamsIn(cd, inv));
  }

  lemma OperatorReadsBack(cd: Codec, inv: Invite)
    requires Typed(cd, inv)
    ensures ReadOperator(cd, HexText(inv.operator)) == Some(inv.operator)
  {
    HexRoundTrip(inv.operator);
  }

  lemma SlotReadsBack(inv: Invite)
    requires inv.slot.Some? ==> inv.slot.value <= U8_MAX
    ensures ReadSlot(SlotField(inv).value)
         == if inv.slot.Some? && inv.slot.value > MAX_SLOT then Err(BadSlot(NatText(inv.slot.value))) else Ok(inv.slot)
  {
    if inv.slot.Some? { NumberReadsBack(inv.slot.value, U8_MAX); }
  }

  lemma ExpiryReadsBack(inv: Invite)
    requires inv.expiry.Some? ==> inv.expiry.value <= U64_MAX
    ensures ReadExpiry(ExpiryField(inv).value) == Ok(inv.expiry)
  {
    if inv.expiry.Some? { NumberReadsBack(inv.expiry.value, U64_MAX); }
  }

  /** Reading parameters whose required and numeric parts are the invite's own. */
  lemma OwnTextsReadBack(cd: Codec, inv: Invite, p: Params)
    requires p.parent == Some(inv.parent) && p.label_ == inv.label_
    requires p.op.Some? && ReadOperator(cd, p.op.value) == Some(inv.operator)
    requires ReadSlot(p.slot)
          == if inv.slot.Some? && inv.slot.value > MAX_SLOT then Err(BadSlot(NatText(inv.slot.value))) else Ok(inv.slot)
    requires ReadExpiry(p.expiry) == Ok(inv.expiry)
    requires p.relay == RelayField(cd, inv).value && p.ip == IpField(cd, inv).value
    ensures var back := ReadParams(cd, p);
            && (back == Ok(inv) <==>
                  inv.parent != "" && (inv.slot.Some? ==> inv.slot.value <= MAX_SLOT) && HintsReadBack(cd, inv))
            && (inv.parent == "" ==> back == Err(Missing("parent")))
            && (inv.parent != "" && inv.slot.Some? && inv.slot.value > MAX_SLOT ==>
                back == Err(BadSlot(NatText(inv.slot.value))))
  {
  }

  // ---- What the parser accepts ----

  ghost predicate Absent(ps: seq<Pair>, key: string) {
    forall i :: 0 <= i < |ps| ==> ps[i].0 != key
  }

  /** Among distinct keys a value is looked up exactly when its pair is there. */
  lemma {:induction false} LookupExact(ps: seq<Pair>, key: string)
    requires DistinctPairs(ps)
    ensures forall v :: Lookup(ps, key) == Some(v) <==> (key, v) in ps
    ensures Lookup(ps, key) == None <==> Absent(ps, key)
  {
    if ps != [] {
      var init, last := ps[..|ps| - 1], ps[|ps| - 1];
      LookupExact(init, key);
      assert ps == init + [last];
      assert forall i :: 0 <= i < |init| ==> ps[i] == init[i] && ps[i].0 != last.0;
    }
  }

  /** The pair at `i` is the first whose key was given before. */
  ghost predicate FirstRepeated(ps: seq<Pair>, i: nat) {
    i < |ps| && Repeats(ps, i) && forall j :: 0 <= j < i ==> !Repeats(ps, j)
  }

  lemma {:induction false} FirstRepeatIs(ps: seq<Pair>, from: nat)
    requires from <= |ps| && forall j :: 0 <= j < from ==> !Repeats(ps, j)
    ensures var i := FirstRepeat(ps, from);
            if i < |ps| then FirstRepeated(ps, i) else forall j :: 0 <= j < |ps| ==> !Repeats(ps, j)
    decreases |ps| - from
  {
    if from < |ps| && !Repeats(ps, from) { FirstRepeatIs(ps, from + 1); }
  }

  lemma NoneRepeats(ps: seq<Pair>)
    ensures DistinctPairs(ps) <==> forall j :: 0 <= j < |ps| ==> !Repeats(ps, j)
  {
    if forall j :: 0 <= j < |ps| ==> !Repeats(ps, j) {
      forall i, j | 0 <= i < j < |ps| ensures ps[i].0 != ps[j].0 {
        assert !Repeats(ps, j);
      }
    }
  }

  /**
   A key given twice is refused, whatever else the query holds; the fault names the
   key that repeats first, and no query with distinct keys is refused as one that repeats.
   */
  lemma DuplicateExact(cd: Codec, ps: seq<Pair>)
    ensures DistinctPairs(ps) <==> !(ReadPairs(cd, ps).Err? && ReadPairs(cd, ps).error.Duplicate?)
    ensures forall i: nat :: FirstRepeated(ps, i) ==> ReadPairs(cd, ps) == Err(Duplicate(ps[i].0))
  {
    FirstRepeatIs(ps, 0);
    NoneRepeats(ps);
    var k := FirstRepeat(ps, 0);
    forall i: nat | FirstRepeated(ps, i) ensures i == k {
      assert Repeats(ps, i);
    }
  }

  /** `op` spells the operator's 32 bytes, and they are a key. */
  ghost predicate OperatorGiven(cd: Codec, ps: seq<Pair>, operator: bytes) {
    && |operator| == 32 && cd.isOperatorKey(operator)
    && exists text :: ("op", text) in ps && SpellsBytes(text, operator)
  }

  /** The number under `key` is `n`, at most `max`; absent exactly when `n` is. */
  ghost predicate NumberGiven(ps: seq<Pair>, key: string, n: Option<nat>, max: nat) {
    if n.None? then Absent(ps, key)
    else n.value <= max && exists text :: (key, text) in ps && ParseUnsigned(text, max) == n
  }

  /** The text under `key` is read as `v`; absent exactly when `v` is. */
  ghost predicate ReadGiven<T>(ps: seq<Pair>, key: string, v: Option<T>, read: string -> Option<T>) {
    if v.None? then Absent(ps, key) else exists text :: (key, text) in ps && read(text) == v
  }

  lemma OperatorExact(cd: Codec, ps: seq<Pair>, operator: bytes)
    requires DistinctPairs(ps)
    ensures OperatorGiven(cd, ps, operator) <==>
              var op := Lookup(ps, "op"); op.Some? && ReadOperator(cd, op.value) == Some(operator)
  {
    LookupExact(ps, "op");
    if OperatorGiven(cd, ps, operator) {
      var text :| ("op", text) in ps && SpellsBytes(text, operator);
      DecodeIsExact(text, operator);
    }
    var op := Lookup(ps, "op");
    if op.Some? { DecodeIsExact(op.value, operator); }
  }

  lemma SmallerMax(raw: string)
    ensures ParseUnsigned(raw, MAX_SLOT)
         == var n := ParseUnsigned(raw, U8_MAX); if n.Some? && n.value <= MAX_SLOT then n else None
  {
  }

  lemma SlotExact(ps: seq<Pair>, n: Option<nat>)
    requires DistinctPairs(ps)
    ensures NumberGiven(ps, "slot", n, MAX_SLOT) <==> ReadSlot(Lookup(ps, "slot")) == Ok(n)
  {
    LookupExact(ps, "slot");
    var raw := Lookup(ps, "slot");
    if raw.Some? {
      SmallerMax(raw.value);
      assert ("slot", raw.value) in ps;
    }
  }

  lemma ExpiryExact(ps: seq<Pair>, n: Option<nat>)
    requires DistinctPairs(ps)
    ensures NumberGiven(ps, "exp", n, U64_MAX) <==> ReadExpiry(Lookup(ps, "exp")) == Ok(n)
  {
    LookupExact(ps, "exp");
    var raw := Lookup(ps, "exp");
    if raw.Some? { assert ("exp", raw.value) in ps; }
  }

  lemma HintsExact(cd: Codec, ps: seq<Pair>, relay: Option<Relay>, ip: Option<SocketAddr>)
    requires DistinctPairs(ps)
    ensures ReadGiven(ps, "relay", relay, cd.readRelay) <==> ReadRelay(cd, Lookup(ps, "relay")) == Ok(relay)
    ensures ReadGiven(ps, "ip", ip, cd.readIp) <==> ReadIp(cd, Lookup(ps, "ip")) == Ok(ip)
  {
    LookupExact(ps, "relay");
    LookupExact(ps, "ip");
    var r, i := Lookup(ps, "relay"), Lookup(ps, "ip");
    if r.Some? { assert ("relay", r.value) in ps; }
    if i.Some? { assert ("ip", i.value) in ps; }
  }

  /**
   The pairs are accepted as `inv` exactly when no key repeats, the parent is given and not empty, `op`
   spells the operator's key, the slot is a number up to 7 and the expiry one of 64 bits, and the label
   and the hints are what their own parameters hold, absent exactly when those are.
   */
  lemma AcceptedExactly(cd: Codec, ps: seq<Pair>, inv: Invite)
    ensures ReadPairs(cd, ps) == Ok(inv) <==>
              && DistinctPairs(ps)
              && inv.parent != "" && ("parent", inv.parent) in ps
              && OperatorGiven(cd, ps, inv.operator)
              && NumberGiven(ps, "slot", inv.slot, MAX_SLOT)
              && NumberGiven(ps, "exp", inv.expiry, U64_MAX)
              && (if inv.label_.None? then Absent(ps, "label") else ("label", inv.label_.value) in ps)
              && ReadGiven(ps, "relay", inv.relay, cd.readRelay)
              && ReadGiven(ps, "ip", inv.ip, cd.readIp)
  {
    DuplicateExact(cd, ps);
    if DistinctPairs(ps) {
      NoRepeat(ps, 0);
      LookupExact(ps, "parent");
      OperatorExact(cd, ps, inv.operator);
      SlotExact(ps, inv.slot);
      ExpiryExact(ps, inv.expiry);
      LookupExact(ps, "label");
      HintsExact(cd, ps, inv.relay, inv.ip);
      ReadParamsIs(cd, ParamsOf(ps), inv);
    }
  }

  lemma ReadParamsIs(cd: Codec, p: Params, inv: Invite)
    ensures ReadParams(cd, p) == Ok(inv) <==>
              && inv.parent != "" && p.parent == Some(inv.parent) && p.label_ == inv.label_
              && p.op.Some? && ReadOperator(cd, p.op.value) == Some(inv.operator)
              && ReadSlot(p.slot) == Ok(inv.slot) && ReadExpiry(p.expiry) == Ok(inv.expiry)
              && ReadRelay(cd, p.relay) == Ok(inv.relay) && ReadIp(cd, p.ip) == Ok(inv.ip)
  {
  }

  /** `ps` with the pair `p` put in at position `k`. */
  function Inserted(ps: seq<Pair>, k: nat, p: Pair): (r: seq<Pair>)
    requires k <= |ps|
    ensures |r| == |ps| + 1 && r[k] == p
    ensures forall i :: 0 <= i < k ==> r[i] == ps[i]
    ensures forall i :: k <= i < |ps| ==> r[i + 1] == ps[i]
  {
    ps[..k] + [p] + ps[k..]
  }

  lemma {:induction false} LookupInserted(ps: seq<Pair>, k: nat, p: Pair, key: string)
    requires k <= |ps| && p.0 != key
    ensures Lookup(Inserted(ps, k, p), key) == Lookup(ps, key)
  {
    var all := Inserted(ps, k, p);
    if k == |ps| {
      assert all[..|ps|] == ps;
    } else {
      LookupInserted(ps[..|ps| - 1], k, p, key);
      assert all[..|ps|] == Inserted(ps[..|ps| - 1], k, p);
    }
  }

  /** Where position `i` of `ps` goes when a pair is put in at `k`. */
  function Shifted(i: nat, k: nat): nat {
    if i < k then i else i + 1
  }

  lemma RepeatsInserted(ps: seq<Pair>, k: nat, p: Pair, i: nat)
    requires k <= |ps| && i < |ps| && forall j :: 0 <= j < |ps| ==> ps[j].0 != p.0
    ensures Repeats(Inserted(ps, k, p), Shifted(i, k)) <==> Repeats(ps, i)
    ensures !Repeats(Inserted(ps, k, p), k)
  {
    var all := Inserted(ps, k, p);
    if Repeats(ps, i) {
      var j :| 0 <= j < i && ps[j].0 == ps[i].0;
      assert all[Shifted(j, k)].0 == all[Shifted(i, k)].0;
    }
    if Repeats(all, Shifted(i, k)) {
      var j :| 0 <= j < Shifted(i, k) && all[j].0 == all[Shifted(i, k)].0;
      assert j != k;
      assert ps[if j < k then j else j - 1].0 == ps[i].0;
    }
  }

  lemma {:induction false} FirstRepeatInserted(ps: seq<Pair>, k: nat, p: Pair, from: nat)
    requires k <= |ps| && from <= |ps| && forall j :: 0 <= j < |ps| ==> ps[j].0 != p.0
    ensures FirstRepeat(Inserted(ps, k, p), Shifted(from, k)) == Shifted(FirstRepeat(ps, from), k)
    decreases |ps| - from
  {
    var all := Inserted(ps, k, p);
    if from < |ps| {
      RepeatsInserted(ps, k, p, from);
      FirstRepeatInserted(ps, k, p, from + 1);
      if from + 1 == k && !Repeats(ps, from) {
        assert FirstRepeat(all, k) == FirstRepeat(all, k + 1);
      }
    }
  }

  lemma FromTheStart(ps: seq<Pair>, k: nat, p: Pair)
    requires k <= |ps| && forall j :: 0 <= j < |ps| ==> ps[j].0 != p.0
    ensures FirstRepeat(Inserted(ps, k, p), 0) == Shifted(FirstRepeat(ps, 0), k)
  {
    FirstRepeatInserted(ps, k, p, 0);
    if k == 0 { assert FirstRepeat(Inserted(ps, k, p), 0) == FirstRepeat(Inserted(ps, k, p), 1); }
  }

  /**
   A parameter under an unknown key not otherwise given changes nothing, wherever it
   stands: a query that parses gives the same invite, and one that fails reports the
   same fault.
   */
  lemma UnknownIsIgnored(cd: Codec, ps: seq<Pair>, k: nat, p: Pair)
    requires k <= |ps| && forall j :: 0 <= j < |ps| ==> ps[j].0 != p.0
    requires p.0 !in KEYS
    ensures ReadPairs(cd, Inserted(ps, k, p)) == ReadPairs(cd, ps)
  {
    var all := Inserted(ps, k, p);
    FromTheStart(ps, k, p);
    var i := FirstRepeat(ps, 0);
    if i < |ps| {
      assert all[Shifted(i, k)] == ps[i];
    } else {
      UnknownParams(ps, k, p);
    }
  }

  lemma UnknownParams(ps: seq<Pair>, k: nat, p: Pair)
    requires k <= |ps| && p.0 !in KEYS
    ensures ParamsOf(Inserted(ps, k, p)) == ParamsOf(ps)
  {
    forall i | 0 <= i < 7 ensures Lookup(Inserted(ps, k, p), KEYS[i]) == Lookup(ps, KEYS[i]) {
      assert KEYS[i] in KEYS;
      LookupInserted(ps, k, p, KEYS[i]);
    }
    assert KEYS[0] == "parent" && KEYS[1] == "op" && KEYS[2] == "slot" && KEYS[3] == "exp";
    assert KEYS[4] == "label" && KEYS[5] == "relay" && KEYS[6] == "ip";
  }
}
