/**
 * Parsing of Matter attribute keys and extraction of the OnOff endpoints of one
 * node (matter_helpers.py).
 */
module Helpers {
  import opened Wrappers
  import opened Text
  import opened Models

  /** The decoded triple of an attribute key "<endpoint>/<cluster>/<attribute>". */
  datatype AttrKey = AttrKey(endpoint: int, cluster: int, attribute: int)

  /** The key a Matter server writes for an attribute. */
  function AttrKeyString(k: AttrKey): string {
    IntToString(k.endpoint) + "/" + IntToString(k.cluster) + "/" + IntToString(k.attribute)
  }

  /**
   * `_parse_attr_key`: split at the first two '/' and read each piece as an int;
   * a missing piece or a piece that is not an int gives `None` instead of raising.
   */
  function ParseAttrKey(key: string): (r: Option<AttrKey>)
    ensures r.Some? ==> Count(key, '/') >= 2
  {
    var parts := Split(key, '/', 2);
    SplitLength(key, '/', 2);
    if |parts| != 3 then None
    else
      match (ParseInt(parts[0]), ParseInt(parts[1]), ParseInt(parts[2]))
      case (Some(e), Some(c), Some(a)) => Some(AttrKey(e, c, a))
      case _ => None
  }

  /** A key written from three ints parses back to those ints. */
  lemma ParseAttrKeyRoundTrip(k: AttrKey)
    ensures ParseAttrKey(AttrKeyString(k)) == Some(k)
  {
    var e, c, a := IntToString(k.endpoint), IntToString(k.cluster), IntToString(k.attribute);
    assert '/' !in e && '/' !in c && '/' !in a;
    assert [e, c, a][1..] == [c, a] && [c, a][1..] == [a];
    assert Join([c, a], '/') == c + ['/'] + a;
    assert Join([e, c, a], '/') == e + ['/'] + (c + ['/'] + a);
    assert Join([e, c, a], '/') == AttrKeyString(k);
    SplitOfJoin([e, c, a], '/', 2);
    ParseIntOfIntToString(k.endpoint);
    ParseIntOfIntToString(k.cluster);
    ParseIntOfIntToString(k.attribute);
  }

  /** Keys with fewer than two separators, such as "1/6" and "abc", are rejected. */
  lemma ParseAttrKeyShortKeys()
    ensures ParseAttrKey("1/6") == None
    ensures ParseAttrKey("abc") == None
  {
    assert Count("1/6", '/') == 1;
    assert Count("abc", '/') == 0;
  }

  /**
   * Only the first two separators cut: a key with a fourth piece leaves a '/' in the
   * third piece, which is then not an int, so the key is rejected.
   */
  lemma ParseAttrKeyExtraPiece(p1: string, p2: string, p3: string)
    requires '/' !in p1 && '/' !in p2 && '/' in p3
    ensures ParseAttrKey(p1 + ['/'] + p2 + ['/'] + p3) == None
  {
    SplitAtFirstTwo(p1, p2, p3);
    SlashIsNoInt(p3);
  }

  /** With no '/' in the first two pieces, splitting at the first two separators gives the three pieces back. */
  lemma SplitAtFirstTwo(p1: string, p2: string, p3: string)
    requires '/' !in p1 && '/' !in p2
    ensures Split(p1 + ['/'] + p2 + ['/'] + p3, '/', 2) == [p1, p2, p3]
  {
    var tail := p2 + ['/'] + p3;
    assert p1 + ['/'] + p2 + ['/'] + p3 == p1 + ['/'] + tail;
    SplitCons(p2, '/', p3, 1);
    SplitCons(p1, '/', tail, 2);
  }

  /** A piece holding a '/' is not an int. */
  lemma SlashIsNoInt(s: string)
    requires '/' in s
    ensures ParseInt(s).None?
  {
    var k :| 0 <= k < |s| && s[k] == '/';
    if k == 0 {
      assert !IsDigit(s[0]);
    }
  }

  /** "1/6/0/5" is rejected: its third piece is "0/5". */
  lemma ParseAttrKeyFourPieces()
    ensures ParseAttrKey("1/6/0/5") == None
  {
    assert "1/6/0/5" == "1" + ['/'] + "6" + ['/'] + "0/5";
    assert "0/5"[1] == '/';
    ParseAttrKeyExtraPiece("1", "6", "0/5");
  }

  /** A piece that is not an int, as in "1/x/0", rejects the key. */
  /**
   * A key of three slash-separated pieces (the first two free of '/') parses exactly when
   * every piece is an integer; a non-integer piece anywhere gives no key.
   */
  lemma ParseAttrKeyPieces(p1: string, p2: string, p3: string)
    requires '/' !in p1 && '/' !in p2
    ensures ParseAttrKey(p1 + ['/'] + p2 + ['/'] + p3) ==
      if ParseInt(p1).Some? && ParseInt(p2).Some? && ParseInt(p3).Some?
      then Some(AttrKey(ParseInt(p1).value, ParseInt(p2).value, ParseInt(p3).value))
      else None
  {
    SplitAtFirstTwo(p1, p2, p3);
  }

  lemma ParseAttrKeyNonInteger()
    ensures ParseAttrKey("1/x/0") == None
  {
    SplitOfJoin(["1", "x", "0"], '/', 2);
    assert ["1", "x", "0"][1..] == ["x", "0"] && ["x", "0"][1..] == ["0"];
    assert Join(["1", "x", "0"], '/') == "1/x/0";
  }

  lemma SmallIntStrings()
    ensures IntToString(0) == "0" && IntToString(1) == "1" && IntToString(2) == "2"
    ensures IntToString(3) == "3" && IntToString(6) == "6"
  {
  }

  /** "1/6/0" is endpoint 1, cluster 6, attribute 0. */
  lemma ParseAttrKeyOnOff()
    ensures ParseAttrKey("1/6/0") == Some(AttrKey(1, 6, 0))
  {
    SmallIntStrings();
    ParseAttrKeyRoundTrip(AttrKey(1, 6, 0));
    assert AttrKeyString(AttrKey(1, 6, 0)) == "1/6/0";
  }

  // ---------------------------------------------------------------------------
  // What the first loop of extract_onoff_endpoints_from_node collects

  /** The key parses and names the OnOff cluster on endpoint `ep`. */
  predicate OnOffClusterKey(key: string, ep: int) {
    var r := ParseAttrKey(key);
    r.Some? && r.value.endpoint == ep && r.value.cluster == OnOffClusterId
  }

  /** The key parses and names the OnOff attribute of the OnOff cluster on endpoint `ep`. */
  predicate OnOffAttributeKey(key: string, ep: int) {
    OnOffClusterKey(key, ep) && ParseAttrKey(key).value.attribute == OnOffAttributeId
  }

  /** The endpoint a key names together with cluster 6, as a set of at most one. */
  function KeyEndpoints(key: string): set<int> {
    match ParseAttrKey(key)
    case Some(k) => if k.cluster == OnOffClusterId then {k.endpoint} else {}
    case None => {}
  }

  /** The endpoints named together with cluster 6 by the keys of `items` (`endpoints_with_onoff`). */
  function OnOffEndpoints(items: seq<(string, AttrValue)>): set<int>
    decreases |items|
  {
    if items == [] then {}
    else OnOffEndpoints(items[..|items| - 1]) + KeyEndpoints(items[|items| - 1].0)
  }

  /**
   * `onoff_state_by_ep.get(ep)`: the truthiness of the value of the last item whose key
   * parses to (ep, 6, 0); later items overwrite earlier ones.
   */
  function OnOffValue(items: seq<(string, AttrValue)>, ep: int): Option<bool>
    decreases |items|
  {
    if items == [] then None
    else if OnOffAttributeKey(items[|items| - 1].0, ep) then Some(Truthy(items[|items| - 1].1))
    else OnOffValue(items[..|items| - 1], ep)
  }

  /** An endpoint is collected iff some key names it with cluster 6. */
  lemma OnOffEndpointsMembership(items: seq<(string, AttrValue)>, ep: int)
    ensures ep in OnOffEndpoints(items) <==> exists i | 0 <= i < |items| :: OnOffClusterKey(items[i].0, ep)
  {
    if ep in OnOffEndpoints(items) {
      var i := OnOffEndpointsSound(items, ep);
    }
    if exists i | 0 <= i < |items| :: OnOffClusterKey(items[i].0, ep) {
      var i :| 0 <= i < |items| && OnOffClusterKey(items[i].0, ep);
      OnOffEndpointsComplete(items, ep, i);
    }
  }

  lemma {:induction false} OnOffEndpointsSound(items: seq<(string, AttrValue)>, ep: int) returns (i: nat)
    requires ep in OnOffEndpoints(items)
    ensures i < |items| && OnOffClusterKey(items[i].0, ep)
    decreases |items|
  {
    var n := |items| - 1;
    if ep in KeyEndpoints(items[n].0) {
      i := n;
    } else {
      i := OnOffEndpointsSound(items[..n], ep);
      assert items[..n][i] == items[i];
    }
  }

  lemma {:induction false} OnOffEndpointsComplete(items: seq<(string, AttrValue)>, ep: int, i: nat)
    requires i < |items| && OnOffClusterKey(items[i].0, ep)
    ensures ep in OnOffEndpoints(items)
    decreases |items|
  {
    var n := |items| - 1;
    if i < n {
      assert items[..n][i] == items[i];
      OnOffEndpointsComplete(items[..n], ep, i);
    } else {
      assert ep in KeyEndpoints(items[n].0);
    }
  }

  /**
   * The on/off value is unknown iff no key parses to (ep, 6, 0); when it is known it is the
   * truthiness of the value of the last such key.
   */
  lemma OnOffValueLastWins(items: seq<(string, AttrValue)>, ep: int)
    ensures OnOffValue(items, ep).None? <==> forall i | 0 <= i < |items| :: !OnOffAttributeKey(items[i].0, ep)
    ensures OnOffValue(items, ep).Some? ==>
      exists i | 0 <= i < |items| ::
        && OnOffAttributeKey(items[i].0, ep)
        && Truthy(items[i].1) == OnOffValue(items, ep).value
        && forall j | i < j < |items| :: !OnOffAttributeKey(items[j].0, ep)
  {
    if OnOffValue(items, ep).Some? {
      var i := OnOffValueFound(items, ep);
    } else {
      forall i | 0 <= i < |items| ensures !OnOffAttributeKey(items[i].0, ep) {
        if OnOffAttributeKey(items[i].0, ep) {
          OnOffValueKnown(items, ep, i);
        }
      }
    }
  }

  /** A known value comes from the last key naming (ep, 6, 0). */
  lemma {:induction false} OnOffValueFound(items: seq<(string, AttrValue)>, ep: int) returns (i: nat)
    requires OnOffValue(items, ep).Some?
    ensures i < |items| && OnOffAttributeKey(items[i].0, ep)
    ensures Truthy(items[i].1) == OnOffValue(items, ep).value
    ensures forall j | i < j < |items| :: !OnOffAttributeKey(items[j].0, ep)
    decreases |items|
  {
    var n := |items| - 1;
    if OnOffAttributeKey(items[n].0, ep) {
      i := n;
    } else {
      i := OnOffValueFound(items[..n], ep);
      assert items[..n][i] == items[i];
      forall j | i < j < |items| ensures !OnOffAttributeKey(items[j].0, ep) {
        if j < n {
          assert items[..n][j] == items[j];
        }
      }
    }
  }

  /** Any key naming (ep, 6, 0) makes the value known. */
  lemma {:induction false} OnOffValueKnown(items: seq<(string, AttrValue)>, ep: int, i: nat)
    requires i < |items| && OnOffAttributeKey(items[i].0, ep)
    ensures OnOffValue(items, ep).Some?
    decreases |items|
  {
    var n := |items| - 1;
    if i < n && !OnOffAttributeKey(items[n].0, ep) {
      assert items[..n][i] == items[i];
      OnOffValueKnown(items[..n], ep, i);
    }
  }

  lemma {:induction false} OnOffEndpointsAppend(a: seq<(string, AttrValue)>, b: seq<(string, AttrValue)>)
    ensures OnOffEndpoints(a + b) == OnOffEndpoints(a) + OnOffEndpoints(b)
    decreases |b|
  {
    if b == [] {
      assert a + b == a;
    } else {
      assert (a + b)[..|a + b| - 1] == a + b[..|b| - 1];
      OnOffEndpointsAppend(a, b[..|b| - 1]);
    }
  }

  lemma {:induction false} OnOffValueAppend(a: seq<(string, AttrValue)>, b: seq<(string, AttrValue)>, ep: int)
    ensures OnOffValue(a + b, ep) == if OnOffValue(b, ep).Some? then OnOffValue(b, ep) else OnOffValue(a, ep)
    decreases |b|
  {
    if b == [] {
      assert a + b == a;
    } else {
      assert (a + b)[..|a + b| - 1] == a + b[..|b| - 1];
      OnOffValueAppend(a, b[..|b| - 1], ep);
    }
  }

  // ---------------------------------------------------------------------------
  // sorted()

  predicate StrictlyAscending(s: seq<int>) {
    forall i, j | 0 <= i < j < |s| :: s[i] < s[j]
  }

  lemma {:induction false} MinExists(s: set<int>)
    requires s != {}
    ensures exists m | m in s :: forall y | y in s :: m <= y
    decreases |s|
  {
    var x := Pick(s);
    if s != {x} {
      MinExists(s - {x});
      var m :| m in s - {x} && forall y | y in s - {x} :: m <= y;
      var least := if x < m then x else m;
      forall y | y in s ensures least <= y {
        if y != x { assert y in s - {x}; }
      }
      assert least in s;
    } else {
      assert forall y | y in s :: x <= y;
    }
  }

  /** Some element of a non-empty set. */
  lemma Pick(s: set<int>) returns (x: int)
    requires s != {}
    ensures x in s
  {
    EmptyOrMember(s);
    x :| x in s;
  }

  /** A set with no members is the empty set. */
  lemma EmptyOrMember(s: set<int>)
    ensures s == {} || exists y :: y in s
  {
    if forall y: int :: y !in s {
      assert s == {};
    }
  }

  /** The elements of `s` in ascending order. */
  ghost function SortedElements(s: set<int>): (r: seq<int>)
    ensures StrictlyAscending(r)
    ensures forall x :: x in r <==> x in s
    ensures |r| == |s|
    decreases |s|
  {
    if s == {} then []
    else
      MinExists(s);
      var m :| m in s && forall y | y in s :: m <= y;
      [m] + SortedElements(s - {m})
  }

  /** Two ascending sequences with the same elements are equal. */
  lemma {:induction false} AscendingUnique(a: seq<int>, b: seq<int>)
    requires StrictlyAscending(a) && StrictlyAscending(b)
    requires forall x :: x in a <==> x in b
    ensures a == b
    decreases |a|
  {
    if a != [] {
      assert a[0] in a;
      HeadsAgree(a, b);
      TailsAgree(a, b);
      AscendingUnique(a[1..], b[1..]);
      assert a == [a[0]] + a[1..] && b == [b[0]] + b[1..];
    } else if b != [] {
      HeadsAgree(b, a);
    }
  }

  /** Both start with the least element. */
  lemma HeadsAgree(a: seq<int>, b: seq<int>)
    requires StrictlyAscending(a) && StrictlyAscending(b)
    requires forall x :: x in a <==> x in b
    requires a != []
    ensures b != [] && a[0] == b[0]
  {
    assert a[0] in a && a[0] in b;
    var k :| 0 <= k < |b| && b[k] == a[0];
    assert b[0] in a;
    var l :| 0 <= l < |a| && a[l] == b[0];
  }

  /** After the common least element, the rest have the same elements and stay ascending. */
  lemma TailsAgree(a: seq<int>, b: seq<int>)
    requires StrictlyAscending(a) && StrictlyAscending(b)
    requires forall x :: x in a <==> x in b
    requires a != [] && b != [] && a[0] == b[0]
    ensures StrictlyAscending(a[1..]) && StrictlyAscending(b[1..])
    ensures forall x :: x in a[1..] <==> x in b[1..]
  {
    forall x ensures x in a[1..] ==> x in b[1..] {
      if x in a[1..] {
        var i :| 1 <= i < |a| && a[i] == x;
        assert a[0] < x && x in b;
        var j :| 0 <= j < |b| && b[j] == x;
        assert b[1..][j - 1] == x;
      }
    }
    forall x ensures x in b[1..] ==> x in a[1..] {
      if x in b[1..] {
        var j :| 1 <= j < |b| && b[j] == x;
        assert b[0] < x && x in a;
        var i :| 0 <= i < |a| && a[i] == x;
        assert a[1..][i - 1] == x;
      }
    }
  }

  /** Midway through sorting `s`: `r` is the ascending prefix, `rest` what is still to place. */
  ghost predicate SortingState(s: set<int>, r: seq<int>, rest: set<int>) {
    && StrictlyAscending(r)
    && (forall x :: x in s <==> x in r || x in rest)
    && (forall x, y | x in r && y in rest :: x < y)
  }

  /** Moving the least remaining element to the end of the prefix keeps the sorting state. */
  lemma TakeLeast(s: set<int>, r: seq<int>, rest: set<int>, m: int)
    requires SortingState(s, r, rest)
    requires m in rest && forall y | y in rest :: m <= y
    ensures SortingState(s, r + [m], rest - {m})
  {
    forall i | 0 <= i < |r| ensures r[i] < m {
      assert r[i] in r;
    }
    var r' := r + [m];
    forall i, j | 0 <= i < j < |r'| ensures r'[i] < r'[j] {
      if j < |r| {
        assert r'[i] == r[i] && r'[j] == r[j];
      }
    }
  }

  /** Python's `sorted(s)` on a set of ints, by repeatedly taking the least remaining element. */
  method SortedList(s: set<int>) returns (r: seq<int>)
    ensures r == SortedElements(s)
  {
    r := [];
    var rest := s;
    while rest != {}
      invariant SortingState(s, r, rest)
      decreases |rest|
    {
      MinExists(rest);
      var m :| m in rest && forall y | y in rest :: m <= y;
      TakeLeast(s, r, rest, m);
      r := r + [m];
      rest := rest - {m};
    }
    AscendingUnique(r, SortedElements(s));
  }

  // ---------------------------------------------------------------------------
  // extract_onoff_endpoints_from_node

  /**
   * The records the extraction returns for a node: one per collected endpoint, in
   * ascending endpoint order, each carrying the node id, the node's availability and
   * the endpoint's on/off value.
   */
  ghost function Extract(node: NodeSnapshot): (r: seq<EndpointInfo>)
    ensures forall i, j | 0 <= i < j < |r| :: r[i].endpoint < r[j].endpoint
    ensures forall i | 0 <= i < |r| ::
      && r[i].nodeId == node.nodeId
      && r[i].available == NodeAvailable(node)
      && r[i].onoff == OnOffValue(node.attributes, r[i].endpoint)
    ensures forall ep :: ep in OnOffEndpoints(node.attributes) <==> exists i | 0 <= i < |r| :: r[i].endpoint == ep
  {
    RecordsForSet(node, OnOffEndpoints(node.attributes))
  }

  /** The records for the endpoints of `s`, in ascending order. */
  ghost function RecordsForSet(node: NodeSnapshot, s: set<int>): (r: seq<EndpointInfo>)
    ensures forall i, j | 0 <= i < j < |r| :: r[i].endpoint < r[j].endpoint
    ensures forall i | 0 <= i < |r| :: r[i] == Record(node, r[i].endpoint)
    ensures forall ep :: ep in s <==> exists i | 0 <= i < |r| :: r[i].endpoint == ep
  {
    var eps := SortedElements(s);
    var r := RecordsFor(node, eps);
    forall ep | ep in eps ensures exists i | 0 <= i < |r| :: r[i].endpoint == ep {
      var i :| 0 <= i < |eps| && eps[i] == ep;
      assert r[i].endpoint == ep;
    }
    r
  }

  /** The record for endpoint `ep` of `node`. */
  function Record(node: NodeSnapshot, ep: int): EndpointInfo {
    EndpointInfo(node.nodeId, ep, NodeAvailable(node), OnOffValue(node.attributes, ep))
  }

  /** One record per endpoint of `eps`, in that order. */
  function RecordsFor(node: NodeSnapshot, eps: seq<int>): (r: seq<EndpointInfo>)
    ensures |r| == |eps|
    ensures forall i | 0 <= i < |r| :: r[i] == Record(node, eps[i])
  {
    if eps == [] then [] else RecordsFor(node, eps[..|eps| - 1]) + [Record(node, eps[|eps| - 1])]
  }

  /** How one more item changes what the first loop has collected. */
  lemma ExtractStep(attrs: seq<(string, AttrValue)>, n: nat)
    requires n < |attrs|
    ensures OnOffEndpoints(attrs[..n + 1]) == OnOffEndpoints(attrs[..n]) + KeyEndpoints(attrs[n].0)
    ensures forall ep ::
              OnOffValue(attrs[..n + 1], ep)
              == if OnOffAttributeKey(attrs[n].0, ep) then Some(Truthy(attrs[n].1)) else OnOffValue(attrs[..n], ep)
  {
    assert attrs[..n + 1][..n] == attrs[..n];
  }

  /**
   * The first half of `extract_onoff_endpoints_from_node`: one pass over the attribute
   * items, collecting the endpoints that carry cluster 6 and, per endpoint, the truthiness
   * of the last value of attribute 0.
   */
  method CollectOnOff(attrs: seq<(string, AttrValue)>) returns (endpointsWithOnOff: set<int>, onoffStateByEp: map<int, bool>)
    ensures endpointsWithOnOff == OnOffEndpoints(attrs)
    ensures forall ep :: OnOffValue(attrs, ep) == if ep in onoffStateByEp then Some(onoffStateByEp[ep]) else None
  {
    endpointsWithOnOff := {};
    onoffStateByEp := map[];
    for n := 0 to |attrs|
      invariant endpointsWithOnOff == OnOffEndpoints(attrs[..n])
      invariant forall ep :: OnOffValue(attrs[..n], ep) == if ep in onoffStateByEp then Some(onoffStateByEp[ep]) else None
    {
      ExtractStep(attrs, n);
      var (k, v) := attrs[n];
      var parsed := ParseAttrKey(k);
      if parsed.None? {
        continue;
      }
      var AttrKey(ep, cl, at) := parsed.value;
      if cl == OnOffClusterId {
        endpointsWithOnOff := endpointsWithOnOff + {ep};
        if at == OnOffAttributeId {
          onoffStateByEp := onoffStateByEp[ep := Truthy(v)];
        }
      }
    }
    assert attrs[..|attrs|] == attrs;
  }

  /**
   * `extract_onoff_endpoints_from_node`: collect the OnOff endpoints, then build one record
   * per endpoint in ascending order.
   */
  method ExtractOnOffEndpointsFromNode(node: NodeSnapshot) returns (infos: seq<EndpointInfo>)
    ensures infos == Extract(node)
  {
    var endpointsWithOnOff, onoffStateByEp := CollectOnOff(node.attributes);
    var eps := SortedList(endpointsWithOnOff);
    infos := BuildRecords(node, eps, onoffStateByEp);
    assert Extract(node) == RecordsFor(node, eps);
  }

  /** The second half: one record per endpoint of `eps`, its on/off value looked up in `onoffStateByEp`. */
  method BuildRecords(node: NodeSnapshot, eps: seq<int>, onoffStateByEp: map<int, bool>) returns (infos: seq<EndpointInfo>)
    requires forall ep :: OnOffValue(node.attributes, ep) == if ep in onoffStateByEp then Some(onoffStateByEp[ep]) else None
    ensures infos == RecordsFor(node, eps)
  {
    var nodeId := node.nodeId;
    var available := NodeAvailable(node);
    infos := [];
    for i := 0 to |eps|
      invariant infos == RecordsFor(node, eps[..i])
    {
      var onoff := if eps[i] in onoffStateByEp then Some(onoffStateByEp[eps[i]]) else None;
      assert onoff == OnOffValue(node.attributes, eps[i]);
      assert eps[..i + 1][..i] == eps[..i];
      infos := infos + [EndpointInfo(nodeId, eps[i], available, onoff)];
    }
    assert eps[..|eps|] == eps;
  }

  /** A key that does not parse, or names another cluster, changes nothing wherever it sits. */
  lemma IrrelevantItemIgnored(node: NodeSnapshot, i: nat, key: string, v: AttrValue)
    requires i <= |node.attributes|
    requires ParseAttrKey(key).None? || ParseAttrKey(key).value.cluster != OnOffClusterId
    ensures Extract(node.(attributes := node.attributes[..i] + [(key, v)] + node.attributes[i..])) == Extract(node)
  {
    var a, b := node.attributes[..i], node.attributes[i..];
    assert node.attributes == a + b;
    IrrelevantItemCollected(a, b, key, v);
    var node' := node.(attributes := a + [(key, v)] + b);
    var s := OnOffEndpoints(node.attributes);
    assert Extract(node') == RecordsForSet(node', s);
    SameValuesSameRecords(node, node', s);
  }

  /** Two nodes that agree on id, availability and every on/off value give the same records. */
  lemma SameValuesSameRecords(node: NodeSnapshot, node': NodeSnapshot, s: set<int>)
    requires node'.nodeId == node.nodeId && node'.available == node.available
    requires forall ep :: OnOffValue(node'.attributes, ep) == OnOffValue(node.attributes, ep)
    ensures RecordsForSet(node', s) == RecordsForSet(node, s)
  {
    var eps := SortedElements(s);
    var r, r' := RecordsFor(node, eps), RecordsFor(node', eps);
    assert forall k | 0 <= k < |r| :: r[k] == r'[k];
  }

  /** The same, for what the first loop collects. */
  lemma IrrelevantItemCollected(a: seq<(string, AttrValue)>, b: seq<(string, AttrValue)>, key: string, v: AttrValue)
    requires ParseAttrKey(key).None? || ParseAttrKey(key).value.cluster != OnOffClusterId
    ensures OnOffEndpoints(a + [(key, v)] + b) == OnOffEndpoints(a + b)
    ensures forall ep :: OnOffValue(a + [(key, v)] + b, ep) == OnOffValue(a + b, ep)
  {
    assert [(key, v)][..0] == [];
    assert OnOffEndpoints([(key, v)]) == {};
    OnOffEndpointsAppend(a, [(key, v)]);
    OnOffEndpointsAppend(a + [(key, v)], b);
    OnOffEndpointsAppend(a, b);
    forall ep ensures OnOffValue(a + [(key, v)] + b, ep) == OnOffValue(a + b, ep) {
      assert OnOffValue([(key, v)], ep) == None;
      OnOffValueAppend(a, [(key, v)], ep);
      OnOffValueAppend(a + [(key, v)], b, ep);
      OnOffValueAppend(a, b, ep);
    }
  }

  /** The items of the example snapshot below. */
  function ExampleItems(): seq<(string, AttrValue)> {
    [("1/6/0", Bool(true)), ("1/6/1", Bool(false)), ("2/3/0", Bool(true))]
  }

  /** "1/6/1" and "2/3/0" parse to their three ints. */
  lemma ExampleKeysParse()
    ensures ParseAttrKey("1/6/1") == Some(AttrKey(1, 6, 1))
    ensures ParseAttrKey("2/3/0") == Some(AttrKey(2, 3, 0))
  {
    SmallIntStrings();
    ParseAttrKeyRoundTrip(AttrKey(1, 6, 1));
    assert AttrKeyString(AttrKey(1, 6, 1)) == "1/6/1";
    ParseAttrKeyRoundTrip(AttrKey(2, 3, 0));
    assert AttrKeyString(AttrKey(2, 3, 0)) == "2/3/0";
  }

  /** What the first loop collects from three items keyed (1, 6, 0) = true, (1, 6, 1) and (2, 3, 0). */
  lemma CollectedFromThreeKeys(items: seq<(string, AttrValue)>)
    requires |items| == 3 && items[0].1 == Bool(true)
    requires ParseAttrKey(items[0].0) == Some(AttrKey(1, 6, 0))
    requires ParseAttrKey(items[1].0) == Some(AttrKey(1, 6, 1))
    requires ParseAttrKey(items[2].0) == Some(AttrKey(2, 3, 0))
    ensures OnOffEndpoints(items) == {1}
    ensures OnOffValue(items, 1) == Some(true)
  {
    ExtractStep(items, 0);
    assert items[..0] == [];
    ExtractStep(items, 1);
    ExtractStep(items, 2);
    assert items[..3] == items;
  }

  /** What the first loop collects from the example items. */
  lemma ExampleCollected()
    ensures OnOffEndpoints(ExampleItems()) == {1}
    ensures OnOffValue(ExampleItems(), 1) == Some(true)
  {
    ParseAttrKeyOnOff();
    ExampleKeysParse();
    CollectedFromThreeKeys(ExampleItems());
  }

  /** Sorting a one-element set gives that element alone. */
  lemma SortedSingleton(x: int)
    ensures SortedElements({x}) == [x]
  {
    var eps := SortedElements({x});
    assert eps[0] in eps;
  }

  /**
   * The example snapshot {"1/6/0": true, "1/6/1": false, "2/3/0": true} gives exactly one
   * record, endpoint 1 with on/off true; endpoint 2 only carries cluster 3.
   */
  lemma ExtractExample(node: NodeSnapshot)
    requires node.attributes == ExampleItems()
    ensures Extract(node) == [EndpointInfo(node.nodeId, 1, NodeAvailable(node), Some(true))]
  {
    ExampleCollected();
    SortedSingleton(1);
    assert [1][..0] == [];
  }
}
