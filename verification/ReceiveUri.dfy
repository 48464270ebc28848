/** Payment receive URIs: `cawala://pay?to=..&addr=..[&ln=..&lk=..]`, printed and parsed. */
module ReceiveUri {
  import opened Common
  import opened Bytes
  import opened Text
  import opened Hex
  import opened AddressText

  const PREFIX: string := "cawala://pay?"

  /** Key syntax, left uninterpreted: which texts are endpoint ids, which bytes are ledger keys. */
  datatype Syntax = Syntax(isEndpoint: string -> bool, isLedgerKey: bytes -> bool)

  datatype Fault =
    | NotAPayUri | MalformedParameter | InvalidPayeeAddress | InvalidLeafNode | InvalidLeafLedger
    | DuplicateParameter | UnexpectedParameter | MissingTo | MissingAddr | InvalidPayeeNode | IncompleteLeafPin

  datatype Parsed = Parsed(node: string, address: OctAddr, leafNode: Option<string>, leafLedger: Option<bytes>)

  /** The four options the parser fills. */
  datatype Got = Got(node: Option<string>, addr: Option<OctAddr>, leafNode: Option<string>, leafLedger: Option<bytes>)

  const NOTHING := Got(None, None, None, None)

  // ---- Printing ----

  function Param(key: string, value: string): string {
    key + "=" + value
  }

  function UriFor(node: string, address: string): string {
    PREFIX + (Param("to", node) + "&" + Param("addr", address))
  }

  function UriWithLeaf(node: string, address: string, leafNode: string, leafLedger: string): string {
    PREFIX + (Param("to", node) + "&" + Param("addr", address)
              + "&" + Param("ln", leafNode) + "&" + Param("lk", leafLedger))
  }

  // ---- Parsing ----

  function ReadLedger(sx: Syntax, value: string): Option<bytes> {
    var b := HexValue(value);
    if b.Some? && sx.isLedgerKey(b.value) then b else None
  }

  /** What one parameter does to the options. */
  function Step(sx: Syntax, got: Got, pair: string): Result<Got, Fault> {
    var kv := SplitOnce(pair, '=');
    if kv.None? then Err(MalformedParameter)
    else
      var (key, value) := kv.value;
      if key == "to" then
        if got.node.Some? then Err(DuplicateParameter) else Ok(got.(node := Some(value)))
      else if key == "addr" then
        if got.addr.Some? then Err(DuplicateParameter)
        else if ParseAddr(value).None? then Err(InvalidPayeeAddress)
        else Ok(got.(addr := ParseAddr(value)))
      else if key == "ln" then
        if got.leafNode.Some? then Err(DuplicateParameter)
        else if !sx.isEndpoint(value) then Err(InvalidLeafNode)
        else Ok(got.(leafNode := Some(value)))
      else if key == "lk" then
        if got.leafLedger.Some? then Err(DuplicateParameter)
        else if ReadLedger(sx, value).None? then Err(InvalidLeafLedger)
        else Ok(got.(leafLedger := ReadLedger(sx, value)))
      else Err(UnexpectedParameter)
  }

  /** All parameters in turn; the first fault stops. */
  function Steps(sx: Syntax, parts: seq<string>): Result<Got, Fault> {
    if parts == [] then Ok(NOTHING)
    else
      var before := Steps(sx, parts[..|parts| - 1]);
      if before.Err? then before else Step(sx, before.value, parts[|parts| - 1])
  }

  function Finish(sx: Syntax, got: Got): Result<Parsed, Fault> {
    if got.node.None? then Err(MissingTo)
    else if got.addr.None? then Err(MissingAddr)
    else if !sx.isEndpoint(got.node.value) then Err(InvalidPayeeNode)
    else if got.leafNode.Some? != got.leafLedger.Some? then Err(IncompleteLeafPin)
    else Ok(Parsed(got.node.value, got.addr.value, got.leafNode, got.leafLedger))
  }

  function ParseParts(sx: Syntax, parts: seq<string>): Result<Parsed, Fault> {
    var got := Steps(sx, parts);
    if got.Err? then Err(got.error) else Finish(sx, got.value)
  }

  function ParseUri(sx: Syntax, uri: string): Result<Parsed, Fault> {
    if !(PREFIX <= uri) then Err(NotAPayUri) else ParseParts(sx, Split(uri[|PREFIX|..], '&'))
  }

  lemma {:induction false} StepsStop(sx: Syntax, parts: seq<string>, i: nat)
    requires i <= |parts| && Steps(sx, parts[..i]).Err?
    ensures Steps(sx, parts) == Steps(sx, parts[..i])
  {
    if i < |parts| {
      assert parts[..|parts| - 1][..i] == parts[..i];
      StepsStop(sx, parts[..|parts| - 1], i);
    } else {
      assert parts[..i] == parts;
    }
  }

  /** The parser: one pass over the parameters filling four options. */
  method Parse(sx: Syntax, uri: string) returns (r: Result<Parsed, Fault>)
    ensures r == ParseUri(sx, uri)
  {
    if !(PREFIX <= uri) { return Err(NotAPayUri); }
    var query := uri[|PREFIX|..];
    var node: Option<string> := None;
    var addr: Option<OctAddr> := None;
    var leafNode: Option<string> := None;
    var leafLedger: Option<bytes> := None;
    var parts := Split(query, '&');
    for i := 0 to |parts|
      invariant Steps(sx, parts[..i]) == Ok(Got(node, addr, leafNode, leafLedger))
    {
      assert parts[..i + 1][..i] == parts[..i];
      var stepped := Take(sx, node, addr, leafNode, leafLedger, parts[i]);
      if stepped.Err? {
        StepsStop(sx, parts, i + 1);
        return Err(stepped.error);
      }
      node, addr := stepped.value.node, stepped.value.addr;
      leafNode, leafLedger := stepped.value.leafNode, stepped.value.leafLedger;
    }
    assert parts[..|parts|] == parts;
    if node.None? { return Err(MissingTo); }
    if addr.None? { return Err(MissingAddr); }
    if !sx.isEndpoint(node.value) { return Err(InvalidPayeeNode); }
    if leafNode.Some? != leafLedger.Some? { return Err(IncompleteLeafPin); }
    r := Ok(Parsed(node.value, addr.value, leafNode, leafLedger));
  }

  /** The loop body: split at the first `=`, then fill the option the key names. */
  method Take(sx: Syntax, node: Option<string>, addr: Option<OctAddr>, leafNode: Option<string>,
              leafLedger: Option<bytes>,
              pair: string) returns (r: Result<Got, Fault>)
    ensures r == Step(sx, Got(node, addr, leafNode, leafLedger), pair)
  {
    var got := Got(node, addr, leafNode, leafLedger);
    var kv := SplitOnce(pair, '=');
    if kv.None? { return Err(MalformedParameter); }
    var (key, value) := kv.value;
    if key == "to" && node.None? {
      r := Ok(got.(node := Some(value)));
    } else if key == "addr" && addr.None? {
      var parsed := AddressText.Parse(value);
      if parsed.None? { return Err(InvalidPayeeAddress); }
      r := Ok(got.(addr := parsed));
    } else if key == "ln" && leafNode.None? {
      if !sx.isEndpoint(value) { return Err(InvalidLeafNode); }
      r := Ok(got.(leafNode := Some(value)));
    } else if key == "lk" && leafLedger.None? {
      var b := DecodeHex32(value);
      if b.None? || !sx.isLedgerKey(b.value) { return Err(InvalidLeafLedger); }
      r := Ok(got.(leafLedger := b));
    } else if key == "to" || key == "addr" || key == "ln" || key == "lk" {
      r := Err(DuplicateParameter);
    } else {
      r := Err(UnexpectedParameter);
    }
  }

  // ---- What the parser accepts, whatever the order ----

  function KeyOf(part: string): string {
    var kv := SplitOnce(part, '=');
    if kv.Some? then kv.value.0 else ""
  }

  function ValueOf(part: string): string {
    var kv := SplitOnce(part, '=');
    if kv.Some? then kv.value.1 else ""
  }

  /** A parameter that is acceptable on its own. */
  predicate Acceptable(sx: Syntax, part: string) {
    && SplitOnce(part, '=').Some?
    && var key, value := KeyOf(part), ValueOf(part);
       || key == "to"
       || (key == "addr" && ParseAddr(value).Some?)
       || (key == "ln" && sx.isEndpoint(value))
       || (key == "lk" && ReadLedger(sx, value).Some?)
  }

  ghost predicate AllAcceptable(sx: Syntax, parts: seq<string>) {
    forall i :: 0 <= i < |parts| ==> Acceptable(sx, parts[i])
  }

  ghost predicate DistinctKeys(parts: seq<string>) {
    forall i, j :: 0 <= i < j < |parts| ==> KeyOf(parts[i]) != KeyOf(parts[j])
  }

  /** Some parameter has this key. */
  ghost predicate Gives(parts: seq<string>, key: string) {
    exists i :: 0 <= i < |parts| && KeyOf(parts[i]) == key
  }

  /** Each option is set exactly when its key is given, to the value read from a parameter with that key. */
  ghost predicate Filled(sx: Syntax, parts: seq<string>, got: Got) {
    && (got.node.Some? <==> Gives(parts, "to"))
    && (got.addr.Some? <==> Gives(parts, "addr"))
    && (got.leafNode.Some? <==> Gives(parts, "ln"))
    && (got.leafLedger.Some? <==> Gives(parts, "lk"))
    && forall i :: 0 <= i < |parts| ==> ReadInto(sx, parts[i], got)
  }

  /** The option this parameter's key names holds this parameter's value. */
  predicate ReadInto(sx: Syntax, part: string, got: Got) {
    var key, value := KeyOf(part), ValueOf(part);
    && (key == "to" ==> got.node == Some(value))
    && (key == "addr" ==> got.addr == ParseAddr(value))
    && (key == "ln" ==> got.leafNode == Some(value))
    && (key == "lk" ==> got.leafLedger == ReadLedger(sx, value))
  }

  lemma GivesMore(parts: seq<string>, part: string, key: string)
    ensures Gives(parts + [part], key) <==> Gives(parts, key) || KeyOf(part) == key
  {
    var all := parts + [part];
    if Gives(parts, key) {
      var i :| 0 <= i < |parts| && KeyOf(parts[i]) == key;
      assert KeyOf(all[i]) == key;
    }
    if KeyOf(part) == key { assert KeyOf(all[|parts|]) == key; }
  }

  /** A step succeeds exactly on an acceptable parameter whose option is still free. */
  lemma StepVerdict(sx: Syntax, got: Got, part: string)
    ensures Step(sx, got, part).Ok? <==> Acceptable(sx, part) && Free(got, KeyOf(part))
  {
  }

  predicate Free(got: Got, key: string) {
    && (key == "to" ==> got.node.None?)
    && (key == "addr" ==> got.addr.None?)
    && (key == "ln" ==> got.leafNode.None?)
    && (key == "lk" ==> got.leafLedger.None?)
  }

  /** A successful step fills the one option its key names and leaves the rest. */
  lemma StepFills(sx: Syntax, got: Got, part: string)
    requires Step(sx, got, part).Ok?
    ensures var next := Step(sx, got, part).value;
            && ReadInto(sx, part, next)
            && (got.node.Some? ==> next.node == got.node) && (got.addr.Some? ==> next.addr == got.addr)
            && (got.leafNode.Some? ==> next.leafNode == got.leafNode)
            && (got.leafLedger.Some? ==> next.leafLedger == got.leafLedger)
            && (next.node.Some? <==> got.node.Some? || KeyOf(part) == "to")
            && (next.addr.Some? <==> got.addr.Some? || KeyOf(part) == "addr")
            && (next.leafNode.Some? <==> got.leafNode.Some? || KeyOf(part) == "ln")
            && (next.leafLedger.Some? <==> got.leafLedger.Some? || KeyOf(part) == "lk")
  {
  }

  /** A read parameter stays read when its option is kept. */
  lemma ReadStays(sx: Syntax, part: string, got: Got, next: Got)
    requires Acceptable(sx, part) && ReadInto(sx, part, got)
    requires got.node.Some? ==> next.node == got.node
    requires got.addr.Some? ==> next.addr == got.addr
    requires got.leafNode.Some? ==> next.leafNode == got.leafNode
    requires got.leafLedger.Some? ==> next.leafLedger == got.leafLedger
    ensures ReadInto(sx, part, next)
  {
  }

  lemma FreeIsNotGiven(sx: Syntax, parts: seq<string>, got: Got, part: string)
    requires Filled(sx, parts, got) && Acceptable(sx, part)
    ensures Free(got, KeyOf(part)) <==> !Gives(parts, KeyOf(part))
  {
  }

  lemma StepKeepsFilled(sx: Syntax, parts: seq<string>, got: Got, part: string)
    requires Filled(sx, parts, got) && AllAcceptable(sx, parts) && Step(sx, got, part).Ok?
    ensures Filled(sx, parts + [part], Step(sx, got, part).value)
  {
    var next := Step(sx, got, part).value;
    var all := parts + [part];
    StepFills(sx, got, part);
    GivesMore(parts, part, "to");
    GivesMore(parts, part, "addr");
    GivesMore(parts, part, "ln");
    GivesMore(parts, part, "lk");
    forall i | 0 <= i < |all| ensures ReadInto(sx, all[i], next) {
      if i < |parts| { ReadStays(sx, parts[i], got, next); }
    }
  }

  lemma DistinctMore(parts: seq<string>, part: string)
    ensures DistinctKeys(parts + [part]) <==> DistinctKeys(parts) && !Gives(parts, KeyOf(part))
  {
    var all := parts + [part];
    assert forall i :: 0 <= i < |parts| ==> all[i] == parts[i];
    if DistinctKeys(all) {
      forall i, j | 0 <= i < j < |parts| ensures KeyOf(parts[i]) != KeyOf(parts[j]) {
        assert KeyOf(all[i]) != KeyOf(all[j]);
      }
      forall i | 0 <= i < |parts| ensures KeyOf(parts[i]) != KeyOf(part) {
        assert KeyOf(all[i]) != KeyOf(all[|parts|]);
      }
    }
  }

  /** The pass succeeds exactly on acceptable parameters with distinct keys, and reads each of them. */
  lemma {:induction false} StepsExact(sx: Syntax, parts: seq<string>)
    ensures Steps(sx, parts).Ok? <==> AllAcceptable(sx, parts) && DistinctKeys(parts)
    ensures Steps(sx, parts).Ok? ==> Filled(sx, parts, Steps(sx, parts).value)
  {
    if parts != [] {
      var init, part := parts[..|parts| - 1], parts[|parts| - 1];
      assert parts == init + [part];
      StepsExact(sx, init);
      DistinctMore(init, part);
      var before := Steps(sx, init);
      if before.Ok? {
        StepVerdict(sx, before.value, part);
        if Acceptable(sx, part) { FreeIsNotGiven(sx, init, before.value, part); }
        if Step(sx, before.value, part).Ok? { StepKeepsFilled(sx, init, before.value, part); }
      }
    }
  }

  // ---- Reordering ----

  /** An element stands at two positions exactly when it is counted twice. */
  lemma {:induction false} CountedTwice(s: seq<string>, x: string)
    ensures multiset(s)[x] >= 2 <==> exists i, j :: 0 <= i < j < |s| && s[i] == x && s[j] == x
  {
    if s != [] {
      var init, last := s[..|s| - 1], s[|s| - 1];
      assert s == init + [last];
      CountedTwice(init, x);
      if exists i, j :: 0 <= i < j < |init| && init[i] == x && init[j] == x {
        var i, j :| 0 <= i < j < |init| && init[i] == x && init[j] == x;
        assert s[i] == x && s[j] == x;
      } else if last == x && x in init {
        var i :| 0 <= i < |init| && init[i] == x;
        assert s[i] == x && s[|s| - 1] == x;
      } else {
        assert forall i :: 0 <= i < |init| ==> init[i] == s[i];
      }
    }
  }

  lemma DistinctReordered(p: seq<string>, q: seq<string>)
    requires multiset(p) == multiset(q) && DistinctKeys(p)
    ensures DistinctKeys(q)
  {
    forall i, j | 0 <= i < j < |q| ensures KeyOf(q[i]) != KeyOf(q[j]) {
      assert q[i] in multiset(p) && q[j] in multiset(p);
      if q[i] == q[j] {
        CountedTwice(q, q[i]);
        CountedTwice(p, q[i]);
        assert false;
      } else {
        var a :| 0 <= a < |p| && p[a] == q[i];
        var b :| 0 <= b < |p| && p[b] == q[j];
        if a < b { assert KeyOf(p[a]) != KeyOf(p[b]); } else { assert KeyOf(p[b]) != KeyOf(p[a]); }
      }
    }
  }

  lemma AcceptableReordered(sx: Syntax, p: seq<string>, q: seq<string>)
    requires multiset(p) == multiset(q) && AllAcceptable(sx, p)
    ensures AllAcceptable(sx, q)
  {
    forall i | 0 <= i < |q| ensures Acceptable(sx, q[i]) {
      assert q[i] in multiset(p);
      var a :| 0 <= a < |p| && p[a] == q[i];
    }
  }

  lemma GivesReordered(p: seq<string>, q: seq<string>, key: string)
    requires multiset(p) == multiset(q) && Gives(p, key)
    ensures exists i, j :: 0 <= i < |p| && 0 <= j < |q| && p[i] == q[j] && KeyOf(p[i]) == key
  {
    var i :| 0 <= i < |p| && KeyOf(p[i]) == key;
    assert p[i] in multiset(q);
    var j :| 0 <= j < |q| && q[j] == p[i];
  }

  /** Both orders fill an option from the same parameter. */
  lemma SameOption(sx: Syntax, p: seq<string>, q: seq<string>, a: Got, b: Got, key: string)
    requires multiset(p) == multiset(q) && Filled(sx, p, a) && Filled(sx, q, b) && Gives(p, key)
    ensures Gives(q, key)
    ensures exists x :: KeyOf(x) == key && ReadInto(sx, x, a) && ReadInto(sx, x, b)
  {
    GivesReordered(p, q, key);
    var i, j :| 0 <= i < |p| && 0 <= j < |q| && p[i] == q[j] && KeyOf(p[i]) == key;
    assert ReadInto(sx, p[i], a) && ReadInto(sx, q[j], b);
  }

  lemma SameGot(sx: Syntax, p: seq<string>, q: seq<string>, a: Got, b: Got)
    requires multiset(p) == multiset(q) && Filled(sx, p, a) && Filled(sx, q, b)
    ensures a == b
  {
    SameEither(sx, p, q, a, b, "to");
    SameEither(sx, p, q, a, b, "addr");
    SameEither(sx, p, q, a, b, "ln");
    SameEither(sx, p, q, a, b, "lk");
  }

  lemma SameEither(sx: Syntax, p: seq<string>, q: seq<string>, a: Got, b: Got, key: string)
    requires multiset(p) == multiset(q) && Filled(sx, p, a) && Filled(sx, q, b)
    ensures Gives(p, key) <==> Gives(q, key)
    ensures Gives(p, key) ==> exists x :: KeyOf(x) == key && ReadInto(sx, x, a) && ReadInto(sx, x, b)
  {
    if Gives(p, key) { SameOption(sx, p, q, a, b, key); }
    if Gives(q, key) { SameOption(sx, q, p, b, a, key); }
  }

  /** The four options an answer stands for. */
  function GotOf(r: Parsed): Got {
    Got(Some(r.node), Some(r.address), r.leafNode, r.leafLedger)
  }

  /**
   The parser answers `r` exactly when every parameter is acceptable, no key is given twice, `to` and
   `addr` are given, a leaf is pinned by both `ln` and `lk` or by neither, the payee's node is an
   endpoint id, and every field of `r` is what its parameter reads as.
  */
  lemma PartsExact(sx: Syntax, parts: seq<string>, r: Parsed)
    ensures ParseParts(sx, parts) == Ok(r) <==>
              && AllAcceptable(sx, parts) && DistinctKeys(parts)
              && Filled(sx, parts, GotOf(r))
              && sx.isEndpoint(r.node)
              && (Gives(parts, "ln") <==> Gives(parts, "lk"))
  {
    StepsExact(sx, parts);
    if AllAcceptable(sx, parts) && DistinctKeys(parts) && Filled(sx, parts, GotOf(r)) {
      SameGot(sx, parts, parts, Steps(sx, parts).value, GotOf(r));
    }
  }

  /** On acceptable parameters with distinct keys each remaining fault has its own cause, in this order. */
  lemma PartsFault(sx: Syntax, parts: seq<string>)
    requires AllAcceptable(sx, parts) && DistinctKeys(parts)
    ensures var r := ParseParts(sx, parts);
            && (r == Err(MissingTo) <==> !Gives(parts, "to"))
            && (r == Err(MissingAddr) <==> Gives(parts, "to") && !Gives(parts, "addr"))
            && (r == Err(IncompleteLeafPin) ==> Gives(parts, "ln") != Gives(parts, "lk"))
            && (forall i :: 0 <= i < |parts| && KeyOf(parts[i]) == "to" && Gives(parts, "addr") ==>
                  (r == Err(InvalidPayeeNode) <==> !sx.isEndpoint(ValueOf(parts[i]))))
            && (r.Ok? || r == Err(MissingTo) || r == Err(MissingAddr)
                || r == Err(InvalidPayeeNode) || r == Err(IncompleteLeafPin))
  {
    StepsExact(sx, parts);
    var got := Steps(sx, parts).value;
    forall i | 0 <= i < |parts| && KeyOf(parts[i]) == "to" ensures got.node == Some(ValueOf(parts[i])) {
      assert ReadInto(sx, parts[i], got);
    }
  }

  /** Reordering the parameters never changes whether parsing succeeds, or its result. */
  lemma ReorderingIsHarmless(sx: Syntax, p: seq<string>, q: seq<string>)
    requires multiset(p) == multiset(q)
    ensures ParseParts(sx, p).Ok? <==> ParseParts(sx, q).Ok?
    ensures ParseParts(sx, p).Ok? ==> ParseParts(sx, p) == ParseParts(sx, q)
  {
    StepsExact(sx, p);
    StepsExact(sx, q);
    if Steps(sx, p).Ok? {
      AcceptableReordered(sx, p, q);
      DistinctReordered(p, q);
      SameGot(sx, p, q, Steps(sx, p).value, Steps(sx, q).value);
    } else if Steps(sx, q).Ok? {
      AcceptableReordered(sx, q, p);
      DistinctReordered(q, p);
    }
  }

  /** The same for whole URIs: the parameters of one are those of the other in some order. */
  lemma UrisReorder(sx: Syntax, p: seq<string>, q: seq<string>)
    requires p != [] && NoneHolds(p, '&') && NoneHolds(q, '&') && multiset(p) == multiset(q)
    ensures var a, b := ParseUri(sx, PREFIX + Join(p, '&')), ParseUri(sx, PREFIX + Join(q, '&'));
            a.Ok? == b.Ok? && (a.Ok? ==> a == b)
  {
    assert |multiset(p)| == |multiset(q)|;
    UriParts(sx, p);
    UriParts(sx, q);
    ReorderingIsHarmless(sx, p, q);
  }

  lemma UriParts(sx: Syntax, parts: seq<string>)
    requires parts != [] && NoneHolds(parts, '&')
    ensures ParseUri(sx, PREFIX + Join(parts, '&')) == ParseParts(sx, parts)
  {
    var query := Join(parts, '&');
    assert (PREFIX + query)[|PREFIX|..] == query;
    SplitJoin(parts, '&');
  }

  // ---- Round trip ----

  /** The URI a payee shows, with its leaf's pin when it has one. */
  function UriOf(node: string, addr: OctAddr, pin: Option<(string, bytes)>): string
    requires ValidAddr(addr)
  {
    if pin.None? then UriFor(node, AddrText(addr))
    else UriWithLeaf(node, AddrText(addr), pin.value.0, HexText(pin.value.1))
  }

  function PartsOf(node: string, addr: OctAddr, pin: Option<(string, bytes)>): seq<string>
    requires ValidAddr(addr)
  {
    if pin.None? then [Param("to", node), Param("addr", AddrText(addr))]
    else [Param("to", node), Param("addr", AddrText(addr)), Param("ln", pin.value.0), Param("lk", HexText(pin.value.1))]
  }

  /** The key and the value of `key=value`, whatever the value holds. */
  lemma ParamSplits(key: string, value: string)
    requires '=' !in key
    ensures SplitOnce(Param(key, value), '=') == Some((key, value))
  {
    var s := key + ['='] + value;
    IndexOfIs(key, '=', value);
    assert s[..|key|] == key && s[|key| + 1..] == value;
  }

  lemma PrintedParts(node: string, addr: OctAddr, pin: Option<(string, bytes)>)
    requires ValidAddr(addr)
    ensures UriOf(node, addr, pin) == PREFIX + Join(PartsOf(node, addr, pin), '&')
  {
    var to, at := Param("to", node), Param("addr", AddrText(addr));
    if pin.None? {
      JoinTwo(to, at);
    } else {
      JoinFour(to, at, Param("ln", pin.value.0), Param("lk", HexText(pin.value.1)));
    }
  }

  lemma JoinTwo(a: string, b: string)
    ensures Join([a, b], '&') == a + "&" + b
  {
    assert [a, b][..1] == [a];
  }

  lemma JoinFour(a: string, b: string, c: string, d: string)
    ensures Join([a, b, c, d], '&') == a + "&" + b + "&" + c + "&" + d
  {
    assert [a, b, c, d][..3] == [a, b, c] && [a, b, c][..2] == [a, b];
    JoinTwo(a, b);
    assert Join([a, b, c], '&') == Join([a, b], '&') + ['&'] + c;
  }

  lemma HexHasNoAmpersand(b: bytes)
    ensures '&' !in HexText(b)
  {
    var s := HexText(b);
    forall i | 0 <= i < |s| ensures s[i] != '&' {
      var v := if i % 2 == 0 then b[i / 2] as nat / 16 else b[i / 2] as nat % 16;
      assert s[i] == HEX_LOWER[v];
      assert Spells(HEX_LOWER[v], v);
      assert HexNibble(HEX_LOWER[v]) == Some(v);
    }
  }

  /** What the parser makes of the parts of a printed URI. */
  lemma PartsRead(sx: Syntax, node: string, addr: OctAddr, pin: Option<(string, bytes)>)
    requires ValidAddr(addr)
    requires pin.Some? ==> |pin.value.1| == 32 && sx.isLedgerKey(pin.value.1)
    ensures Steps(sx, PartsOf(node, addr, pin)) ==
            if pin.None? then Ok(Got(Some(node), Some(addr), None, None))
            else if !sx.isEndpoint(pin.value.0) then Err(InvalidLeafNode)
            else Ok(Got(Some(node), Some(addr), Some(pin.value.0), Some(pin.value.1)))
  {
    var parts := PartsOf(node, addr, pin);
    ParamSplits("to", node);
    ParamSplits("addr", AddrText(addr));
    PrintThenParse(addr);
    assert parts[..0] == [];
    assert parts[..1][..0] == [] && parts[..2][..1] == parts[..1];
    assert Steps(sx, parts[..1]) == Ok(NOTHING.(node := Some(node)));
    assert Steps(sx, parts[..2]) == Ok(Got(Some(node), Some(addr), None, None));
    if pin.None? {
      assert parts[..2] == parts;
    } else {
      PinRead(sx, parts, node, addr, pin.value.0, pin.value.1);
    }
  }

  lemma PinRead(sx: Syntax, parts: seq<string>, node: string, addr: OctAddr, leaf: string, ledger: bytes)
    requires |ledger| == 32 && sx.isLedgerKey(ledger)
    requires |parts| == 4 && parts[2] == Param("ln", leaf) && parts[3] == Param("lk", HexText(ledger))
    requires Steps(sx, parts[..2]) == Ok(Got(Some(node), Some(addr), None, None))
    ensures Steps(sx, parts) ==
            if !sx.isEndpoint(leaf) then Err(InvalidLeafNode)
            else Ok(Got(Some(node), Some(addr), Some(leaf), Some(ledger)))
  {
    ParamSplits("ln", leaf);
    ParamSplits("lk", HexText(ledger));
    HexRoundTrip(ledger);
    assert parts[..3][..2] == parts[..2] && parts[..4] == parts && parts[..4][..3] == parts[..3];
  }

  /**
   Parsing a printed URI gives back its parts, with or without the pin, exactly when
   its node ids are endpoint ids; no other part can spoil it.
   */
  lemma ReceiveRoundTrip(sx: Syntax, node: string, addr: OctAddr, pin: Option<(string, bytes)>)
    requires ValidAddr(addr) && '&' !in node
    requires pin.Some? ==> '&' !in pin.value.0 && |pin.value.1| == 32 && sx.isLedgerKey(pin.value.1)
    ensures ParseUri(sx, UriOf(node, addr, pin))
         == Ok(Parsed(node, addr, if pin.Some? then Some(pin.value.0) else None, if pin.Some? then Some(pin.value.1)
                      else None))
         <==> sx.isEndpoint(node) && (pin.Some? ==> sx.isEndpoint(pin.value.0))
  {
    var parts := PartsOf(node, addr, pin);
    PrintedParts(node, addr, pin);
    PrintThenParse(addr);
    if pin.Some? { HexHasNoAmpersand(pin.value.1); }
    forall i | 0 <= i < |parts| ensures '&' !in parts[i] {
    }
    UriParts(sx, parts);
    PartsRead(sx, node, addr, pin);
  }
}
