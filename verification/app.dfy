/**
 * The bridge application (matter2mqtt_app.py): the state-diffing publisher that turns a
 * snapshot of Matter nodes into retained MQTT messages, one step of the command consumer,
 * the exit rule of the periodic refresh, and shutdown.
 */
module App {
  import opened Wrappers
  import opened Text
  import opened Models
  import opened Helpers
  import opened Topics
  import opened Bridge
  import opened Commander

  /** The cache key of an endpoint, `(node_id, endpoint)`. */
  type Key = (int, int)

  function KeyOf(ep: EndpointInfo): Key {
    (ep.nodeId, ep.endpoint)
  }

  /** `last_avail` and `last_state`: the values last published per endpoint. */
  datatype Cache = Cache(avail: map<Key, bool>, state: map<Key, bool>)

  function AvailPayload(available: bool): string {
    if available then PayloadAvailable else PayloadUnavailable
  }

  function StatePayload(on: bool): string {
    if on then PayloadOn else PayloadOff
  }

  function DiscoveryPublication(ep: EndpointInfo): Publication {
    Publication(HaDiscoveryTopic(ep.nodeId, ep.endpoint), DiscoveryConfig(ep.nodeId, ep.endpoint))
  }

  function AvailPublication(ep: EndpointInfo): Publication {
    Publication(TopicAvailable(ep.nodeId, ep.endpoint), Plain(AvailPayload(ep.available)))
  }

  function StatePublication(nodeId: int, endpoint: int, on: bool): Publication {
    Publication(TopicState(nodeId, endpoint), Plain(StatePayload(on)))
  }

  /** The discovery publications of the endpoints, in order. */
  function DiscoveryLog(eps: seq<EndpointInfo>): seq<Publication> {
    if eps == [] then [] else DiscoveryLog(eps[..|eps| - 1]) + [DiscoveryPublication(eps[|eps| - 1])]
  }

  /** One discovery publication per endpoint, in the order of the endpoints. */
  lemma {:induction false} DiscoveryLogCovers(eps: seq<EndpointInfo>)
    ensures |DiscoveryLog(eps)| == |eps|
    ensures forall i | 0 <= i < |eps| :: DiscoveryLog(eps)[i] == DiscoveryPublication(eps[i])
    decreases |eps|
  {
    if eps != [] {
      DiscoveryLogCovers(eps[..|eps| - 1]);
    }
  }

  /** The cache already holds what the endpoint reports, so nothing is published for it. */
  predicate Agrees(ep: EndpointInfo, c: Cache) {
    && KeyOf(ep) in c.avail && c.avail[KeyOf(ep)] == ep.available
    && (ep.onoff.Some? ==> KeyOf(ep) in c.state && c.state[KeyOf(ep)] == ep.onoff.value)
  }

  /** Availability: published when missing from or different from `last_avail`, then cached. */
  function SyncAvail(ep: EndpointInfo, c: Cache): (seq<Publication>, Cache) {
    var k := KeyOf(ep);
    if k !in c.avail || c.avail[k] != ep.available then
      ([AvailPublication(ep)], c.(avail := c.avail[k := ep.available]))
    else ([], c)
  }

  /** State: published when known and missing from or different from `last_state`, then cached. */
  function SyncState(ep: EndpointInfo, c: Cache): (seq<Publication>, Cache) {
    var k := KeyOf(ep);
    if ep.onoff.Some? && (k !in c.state || c.state[k] != ep.onoff.value) then
      ([StatePublication(ep.nodeId, ep.endpoint, ep.onoff.value)], c.(state := c.state[k := ep.onoff.value]))
    else ([], c)
  }

  /**
   * One endpoint of `refresh_snapshot`'s second loop, availability then state. Afterwards
   * the cache holds what the endpoint reports, and something was published exactly when
   * it did not already.
   */
  function SyncEndpoint(ep: EndpointInfo, c: Cache): (r: (seq<Publication>, Cache))
    ensures r.1.avail == c.avail[KeyOf(ep) := ep.available]
    ensures r.1.state == if ep.onoff.Some? then c.state[KeyOf(ep) := ep.onoff.value] else c.state
    ensures r.0 == [] <==> Agrees(ep, c)
    ensures |r.0| <= 2
  {
    var (l1, c1) := SyncAvail(ep, c);
    var (l2, c2) := SyncState(ep, c1);
    (l1 + l2, c2)
  }

  /**
   * Topic by topic: the availability topic is published exactly when `last_avail` is missing
   * or differs, the state topic exactly when the state is known and `last_state` is missing
   * or differs, and nothing else is published.
   */
  lemma SyncEndpointPerTopic(ep: EndpointInfo, c: Cache)
    ensures var r := SyncEndpoint(ep, c); var k := KeyOf(ep);
      (exists p | p in r.0 :: p.topic == TopicAvailable(ep.nodeId, ep.endpoint)) <==>
        (k !in c.avail || c.avail[k] != ep.available)
    ensures var r := SyncEndpoint(ep, c); var k := KeyOf(ep);
      (exists p | p in r.0 :: p.topic == TopicState(ep.nodeId, ep.endpoint)) <==>
        (ep.onoff.Some? && (k !in c.state || c.state[k] != ep.onoff.value))
    ensures forall p | p in SyncEndpoint(ep, c).0 ::
      p == AvailPublication(ep) || (ep.onoff.Some? && p == StatePublication(ep.nodeId, ep.endpoint, ep.onoff.value))
  {
    RetainedTopicsDisjoint(ep.nodeId, ep.endpoint, ep.nodeId, ep.endpoint);
    var (l1, c1) := SyncAvail(ep, c);
    var (l2, c2) := SyncState(ep, c1);
    assert SyncEndpoint(ep, c).0 == l1 + l2;
    assert c1.state == c.state;
  }

  /** The second loop over all endpoints: availability then state, endpoint by endpoint. */
  function SyncAll(eps: seq<EndpointInfo>, c: Cache): (seq<Publication>, Cache) {
    if eps == [] then ([], c)
    else
      var (log, c1) := SyncAll(eps[..|eps| - 1], c);
      var (more, c2) := SyncEndpoint(eps[|eps| - 1], c1);
      (log + more, c2)
  }

  lemma SyncAllSnoc(eps: seq<EndpointInfo>, ep: EndpointInfo, c: Cache)
    ensures SyncAll(eps + [ep], c).0 == SyncAll(eps, c).0 + SyncEndpoint(ep, SyncAll(eps, c).1).0
    ensures SyncAll(eps + [ep], c).1 == SyncEndpoint(ep, SyncAll(eps, c).1).1
  {
    assert (eps + [ep])[..|eps|] == eps;
  }

  /**
   * `refresh_snapshot` on the extracted endpoints: nothing at all when there are none;
   * otherwise every discovery message first, then availability and state per endpoint.
   */
  function Refresh(eps: seq<EndpointInfo>, c: Cache): (seq<Publication>, Cache) {
    if eps == [] then ([], c)
    else (DiscoveryLog(eps) + SyncAll(eps, c).0, SyncAll(eps, c).1)
  }

  /** The endpoints of every node of a snapshot, node by node. */
  ghost function SnapshotEndpoints(nodes: seq<NodeSnapshot>): seq<EndpointInfo> {
    if nodes == [] then [] else SnapshotEndpoints(nodes[..|nodes| - 1]) + Extract(nodes[|nodes| - 1])
  }

  lemma SnapshotEndpointsStep(nodes: seq<NodeSnapshot>, i: nat)
    requires i < |nodes|
    ensures SnapshotEndpoints(nodes[..i + 1]) == SnapshotEndpoints(nodes[..i]) + Extract(nodes[i])
  {
    assert nodes[..i + 1][..i] == nodes[..i];
  }

  /** No two endpoints share a `(node_id, endpoint)` key. */
  predicate UniqueKeys(eps: seq<EndpointInfo>) {
    forall i, j | 0 <= i < j < |eps| :: KeyOf(eps[i]) != KeyOf(eps[j])
  }

  // ---------------------------------------------------------------------------
  // What a refresh publishes

  /** A refresh with no endpoints publishes nothing and leaves both caches alone. */
  lemma RefreshEmpty(nodes: seq<NodeSnapshot>, c: Cache)
    requires forall i | 0 <= i < |nodes| :: OnOffEndpoints(nodes[i].attributes) == {}
    ensures Refresh(SnapshotEndpoints(nodes), c) == ([], c)
  {
    SnapshotEndpointsEmpty(nodes);
  }

  lemma {:induction false} SnapshotEndpointsEmpty(nodes: seq<NodeSnapshot>)
    requires forall i | 0 <= i < |nodes| :: OnOffEndpoints(nodes[i].attributes) == {}
    ensures SnapshotEndpoints(nodes) == []
    decreases |nodes|
  {
    if nodes != [] {
      var last := nodes[|nodes| - 1];
      SnapshotEndpointsEmpty(nodes[..|nodes| - 1]);
    }
  }

  /** The second loop publishes plain text only, never a discovery message. */
  lemma {:induction false} SyncAllPlain(eps: seq<EndpointInfo>, c: Cache)
    ensures forall i | 0 <= i < |SyncAll(eps, c).0| :: SyncAll(eps, c).0[i].payload.Plain?
    decreases |eps|
  {
    if eps != [] {
      var init := eps[..|eps| - 1];
      SyncAllPlain(init, c);
      var l1 := SyncAll(init, c).0;
      var more := SyncEndpoint(eps[|eps| - 1], SyncAll(init, c).1).0;
      assert SyncAll(eps, c).0 == l1 + more;
    }
  }

  /**
   * Every endpoint gets its discovery message on every non-empty refresh, and all of them
   * come before any availability or state message.
   */
  lemma DiscoveryFirst(eps: seq<EndpointInfo>, c: Cache)
    requires eps != []
    ensures var log := Refresh(eps, c).0;
      && |eps| <= |log|
      && (forall i | 0 <= i < |eps| :: log[i] == DiscoveryPublication(eps[i]))
      && (forall i | |eps| <= i < |log| :: log[i].payload.Plain?)
  {
    var d: seq<Publication> := DiscoveryLog(eps);
    var rest: seq<Publication> := SyncAll(eps, c).0;
    assert Refresh(eps, c).0 == d + rest;
    DiscoveryLogCovers(eps);
    SyncAllPlain(eps, c);
    forall i | |eps| <= i < |d + rest| ensures (d + rest)[i].payload.Plain? {
      assert (d + rest)[i] == rest[i - |eps|];
    }
  }

  /** A step for another key does not disturb what the cache holds for this one. */
  lemma SyncEndpointKeepsOthers(ep: EndpointInfo, other: EndpointInfo, c: Cache)
    requires KeyOf(ep) != KeyOf(other) && Agrees(other, c)
    ensures Agrees(other, SyncEndpoint(ep, c).1)
  {
  }

  /** After the second loop, the cache holds what every endpoint reported. */
  lemma {:induction false} SyncAllAgrees(eps: seq<EndpointInfo>, c: Cache)
    requires UniqueKeys(eps)
    ensures forall ep | ep in eps :: Agrees(ep, SyncAll(eps, c).1)
    decreases |eps|
  {
    if eps != [] {
      var init := eps[..|eps| - 1];
      var last := eps[|eps| - 1];
      SyncAllAgrees(init, c);
      var c1 := SyncAll(init, c).1;
      forall ep | ep in eps ensures Agrees(ep, SyncAll(eps, c).1) {
        if ep != last {
          var i :| 0 <= i < |eps| && eps[i] == ep;
          assert i < |eps| - 1;
          assert ep in init;
          SyncEndpointKeepsOthers(last, ep, c1);
        }
      }
    }
  }

  /** When the cache already agrees with every endpoint, the second loop publishes nothing. */
  lemma {:induction false} SyncAllQuiet(eps: seq<EndpointInfo>, c: Cache)
    requires forall ep | ep in eps :: Agrees(ep, c)
    ensures SyncAll(eps, c).0 == []
    ensures SyncAll(eps, c).1 == c
    decreases |eps|
  {
    if eps != [] {
      var init := eps[..|eps| - 1];
      forall ep | ep in init ensures Agrees(ep, c) {
        assert ep in eps;
      }
      SyncAllQuiet(init, c);
      var last := eps[|eps| - 1];
      assert Agrees(last, c);
      assert c.avail[KeyOf(last) := last.available] == c.avail;
      assert last.onoff.Some? ==> c.state[KeyOf(last) := last.onoff.value] == c.state;
    }
  }

  /** Running refresh twice on the same snapshot: the second run publishes only discovery messages. */
  lemma SecondRefreshOnlyDiscovery(eps: seq<EndpointInfo>, c: Cache)
    requires UniqueKeys(eps)
    ensures var c1 := Refresh(eps, c).1;
      Refresh(eps, c1) == (DiscoveryLog(eps), c1)
  {
    if eps != [] {
      var c1 := SyncAll(eps, c).1;
      assert Refresh(eps, c).1 == c1;
      SyncAllAgrees(eps, c);
      SyncAllQuiet(eps, c1);
      assert Refresh(eps, c1) == (DiscoveryLog(eps) + [], c1);
      assert DiscoveryLog(eps) + [] == DiscoveryLog(eps);
    }
  }

  // ---------------------------------------------------------------------------
  // The retained topics reflect the cache

  /** The payload of the last publication on `topic`, if any. */
  function LastPayload(log: seq<Publication>, topic: string): Option<Payload> {
    if log == [] then None
    else if log[|log| - 1].topic == topic then Some(log[|log| - 1].payload)
    else LastPayload(log[..|log| - 1], topic)
  }

  lemma {:induction false} LastPayloadAppend(a: seq<Publication>, b: seq<Publication>, topic: string)
    ensures LastPayload(a + b, topic) == if LastPayload(b, topic).Some? then LastPayload(b, topic) else LastPayload(a, topic)
    decreases |b|
  {
    if b == [] {
      assert a + b == a;
    } else {
      assert (a + b)[..|a + b| - 1] == a + b[..|b| - 1];
      LastPayloadAppend(a, b[..|b| - 1], topic);
    }
  }

  /**
   * `last_avail` and `last_state` mean what they say: each cached value is the payload
   * last published on that endpoint's retained topic.
   */
  predicate CacheMatchesLog(c: Cache, log: seq<Publication>) {
    && (forall k | k in c.avail :: LastPayload(log, TopicAvailable(k.0, k.1)) == Some(Plain(AvailPayload(c.avail[k]))))
    && (forall k | k in c.state :: LastPayload(log, TopicState(k.0, k.1)) == Some(Plain(StatePayload(c.state[k]))))
  }

  /** Publishing an availability payload and caching it keeps the cache and the log in step. */
  lemma PublishAvailKeepsMatch(c: Cache, log: seq<Publication>, k: Key, available: bool)
    requires CacheMatchesLog(c, log)
    ensures CacheMatchesLog(c.(avail := c.avail[k := available]),
                            log + [Publication(TopicAvailable(k.0, k.1), Plain(AvailPayload(available)))])
  {
    var log' := log + [Publication(TopicAvailable(k.0, k.1), Plain(AvailPayload(available)))];
    assert log'[..|log'| - 1] == log;
    forall k2 | k2 in c.state
      ensures LastPayload(log', TopicState(k2.0, k2.1)) == Some(Plain(StatePayload(c.state[k2])))
    {
      RetainedTopicsDisjoint(k2.0, k2.1, k.0, k.1);
    }
    forall k2 | k2 in c.avail && k2 != k
      ensures LastPayload(log', TopicAvailable(k2.0, k2.1)) == Some(Plain(AvailPayload(c.avail[k2])))
    {
      TopicAvailableInjective(k.0, k.1, k2.0, k2.1);
    }
  }

  /** Publishing a state payload and caching it keeps the cache and the log in step. */
  lemma PublishStateKeepsMatch(c: Cache, log: seq<Publication>, k: Key, on: bool)
    requires CacheMatchesLog(c, log)
    ensures CacheMatchesLog(c.(state := c.state[k := on]), log + [StatePublication(k.0, k.1, on)])
  {
    var log' := log + [StatePublication(k.0, k.1, on)];
    assert log'[..|log'| - 1] == log;
    forall k2 | k2 in c.avail
      ensures LastPayload(log', TopicAvailable(k2.0, k2.1)) == Some(Plain(AvailPayload(c.avail[k2])))
    {
      RetainedTopicsDisjoint(k.0, k.1, k2.0, k2.1);
    }
    forall k2 | k2 in c.state && k2 != k
      ensures LastPayload(log', TopicState(k2.0, k2.1)) == Some(Plain(StatePayload(c.state[k2])))
    {
      TopicStateInjective(k.0, k.1, k2.0, k2.1);
    }
  }

  /** Publishing what the second loop publishes for one endpoint keeps the cache and the log in step. */
  lemma SyncEndpointKeepsMatch(ep: EndpointInfo, c: Cache, log: seq<Publication>)
    requires CacheMatchesLog(c, log)
    ensures CacheMatchesLog(SyncEndpoint(ep, c).1, log + SyncEndpoint(ep, c).0)
  {
    var l1, c1 := SyncAvail(ep, c).0, SyncAvail(ep, c).1;
    if l1 != [] {
      PublishAvailKeepsMatch(c, log, KeyOf(ep), ep.available);
    } else {
      assert log + l1 == log;
    }
    var l2, c2 := SyncState(ep, c1).0, SyncState(ep, c1).1;
    if l2 != [] {
      PublishStateKeepsMatch(c1, log + l1, KeyOf(ep), ep.onoff.value);
    } else {
      assert log + l1 + l2 == log + l1;
    }
    assert SyncEndpoint(ep, c) == (l1 + l2, c2);
    assert log + l1 + l2 == log + (l1 + l2);
  }

  lemma {:induction false} SyncAllKeepsMatch(eps: seq<EndpointInfo>, c: Cache, log: seq<Publication>)
    requires CacheMatchesLog(c, log)
    ensures CacheMatchesLog(SyncAll(eps, c).1, log + SyncAll(eps, c).0)
    decreases |eps|
  {
    if eps != [] {
      var init := eps[..|eps| - 1];
      SyncAllKeepsMatch(init, c, log);
      var l1, c1 := SyncAll(init, c).0, SyncAll(init, c).1;
      SyncEndpointKeepsMatch(eps[|eps| - 1], c1, log + l1);
      var more, c2 := SyncEndpoint(eps[|eps| - 1], c1).0, SyncEndpoint(eps[|eps| - 1], c1).1;
      assert SyncAll(eps, c) == (l1 + more, c2);
      assert log + l1 + more == log + (l1 + more);
    } else {
      assert log + [] == log;
    }
  }

  /** Discovery messages never land on an availability or state topic. */
  lemma DiscoveryKeepsMatch(eps: seq<EndpointInfo>, c: Cache, log: seq<Publication>)
    requires CacheMatchesLog(c, log)
    ensures CacheMatchesLog(c, log + DiscoveryLog(eps))
  {
    var d := DiscoveryLog(eps);
    forall k | k in c.avail
      ensures LastPayload(log + d, TopicAvailable(k.0, k.1)) == Some(Plain(AvailPayload(c.avail[k])))
    {
      LastPayloadAppend(log, d, TopicAvailable(k.0, k.1));
      DiscoveryLogMisses(eps, TopicAvailable(k.0, k.1), k);
    }
    forall k | k in c.state
      ensures LastPayload(log + d, TopicState(k.0, k.1)) == Some(Plain(StatePayload(c.state[k])))
    {
      LastPayloadAppend(log, d, TopicState(k.0, k.1));
      DiscoveryLogMisses(eps, TopicState(k.0, k.1), k);
    }
  }

  lemma {:induction false} DiscoveryLogMisses(eps: seq<EndpointInfo>, topic: string, k: Key)
    requires topic == TopicAvailable(k.0, k.1) || topic == TopicState(k.0, k.1)
    ensures LastPayload(DiscoveryLog(eps), topic) == None
    decreases |eps|
  {
    if eps != [] {
      var ep := eps[|eps| - 1];
      RetainedTopicsDisjoint(ep.nodeId, ep.endpoint, k.0, k.1);
      DiscoveryLogMisses(eps[..|eps| - 1], topic, k);
      var d := DiscoveryLog(eps);
      assert d == DiscoveryLog(eps[..|eps| - 1]) + [DiscoveryPublication(ep)];
      assert d[..|d| - 1] == DiscoveryLog(eps[..|eps| - 1]);
    }
  }

  /** A refresh keeps every cached value equal to the payload last published for it. */
  lemma RefreshKeepsMatch(eps: seq<EndpointInfo>, c: Cache, log: seq<Publication>)
    requires CacheMatchesLog(c, log)
    ensures var (more, c') := Refresh(eps, c);
      CacheMatchesLog(c', log + more)
  {
    if eps != [] {
      DiscoveryKeepsMatch(eps, c, log);
      SyncAllKeepsMatch(eps, c, log + DiscoveryLog(eps));
      assert Refresh(eps, c) == (DiscoveryLog(eps) + SyncAll(eps, c).0, SyncAll(eps, c).1);
      assert log + DiscoveryLog(eps) + SyncAll(eps, c).0 == log + (DiscoveryLog(eps) + SyncAll(eps, c).0);
    } else {
      assert log + [] == log;
    }
  }

  /**
   * When the cache matches the retained messages, a refresh leaves every endpoint's retained
   * availability, and its retained state when known, equal to what the snapshot reports.
   */
  lemma RefreshPublishesSnapshot(eps: seq<EndpointInfo>, c: Cache, log: seq<Publication>)
    requires CacheMatchesLog(c, log) && UniqueKeys(eps)
    ensures var log' := log + Refresh(eps, c).0;
      forall ep | ep in eps ::
        && LastPayload(log', TopicAvailable(ep.nodeId, ep.endpoint)) == Some(Plain(AvailPayload(ep.available)))
        && (ep.onoff.Some? ==>
              LastPayload(log', TopicState(ep.nodeId, ep.endpoint)) == Some(Plain(StatePayload(ep.onoff.value))))
  {
    RefreshKeepsMatch(eps, c, log);
    if eps != [] {
      SyncAllAgrees(eps, c);
    }
  }

  // ---------------------------------------------------------------------------
  // Snapshots of several nodes

  /** Matter node ids are distinct within one snapshot. */
  predicate DistinctNodeIds(nodes: seq<NodeSnapshot>) {
    forall i, j | 0 <= i < j < |nodes| :: nodes[i].nodeId != nodes[j].nodeId
  }

  lemma ConcatUniqueKeys(a: seq<EndpointInfo>, b: seq<EndpointInfo>)
    requires UniqueKeys(a) && UniqueKeys(b)
    requires forall i, j | 0 <= i < |a| && 0 <= j < |b| :: a[i].nodeId != b[j].nodeId
    ensures UniqueKeys(a + b)
  {
    forall i, j | 0 <= i < j < |a + b| ensures KeyOf((a + b)[i]) != KeyOf((a + b)[j]) {
      if j < |a| {
        assert (a + b)[i] == a[i] && (a + b)[j] == a[j];
      } else if i >= |a| {
        assert (a + b)[i] == b[i - |a|] && (a + b)[j] == b[j - |a|];
      } else {
        assert (a + b)[i] == a[i] && (a + b)[j] == b[j - |a|];
      }
    }
  }

  /** With distinct node ids, no two extracted endpoints share a cache key. */
  lemma {:induction false} SnapshotKeysUnique(nodes: seq<NodeSnapshot>)
    requires DistinctNodeIds(nodes)
    ensures UniqueKeys(SnapshotEndpoints(nodes))
    decreases |nodes|
  {
    if nodes != [] {
      var init := nodes[..|nodes| - 1];
      var last := nodes[|nodes| - 1];
      assert DistinctNodeIds(init);
      SnapshotKeysUnique(init);
      forall k | 0 <= k < |init| ensures init[k].nodeId != last.nodeId {
        assert init[k] == nodes[k];
      }
      SnapshotOmitsNode(init, last.nodeId);
      var a: seq<EndpointInfo>, b: seq<EndpointInfo> := SnapshotEndpoints(init), Extract(last);
      ConcatUniqueKeys(a, b);
      assert SnapshotEndpoints(nodes) == a + b;
    }
  }

  /** A node id no node of the snapshot carries appears on none of its endpoints. */
  lemma {:induction false} SnapshotOmitsNode(nodes: seq<NodeSnapshot>, nodeId: int)
    requires forall k | 0 <= k < |nodes| :: nodes[k].nodeId != nodeId
    ensures forall i | 0 <= i < |SnapshotEndpoints(nodes)| :: SnapshotEndpoints(nodes)[i].nodeId != nodeId
    decreases |nodes|
  {
    if nodes != [] {
      var init := nodes[..|nodes| - 1];
      assert forall k | 0 <= k < |init| :: init[k] == nodes[k];
      SnapshotOmitsNode(init, nodeId);
      var a: seq<EndpointInfo>, b: seq<EndpointInfo> := SnapshotEndpoints(init), Extract(nodes[|nodes| - 1]);
      AppendOmitsNode(a, b, nodeId);
    }
  }

  lemma AppendOmitsNode(a: seq<EndpointInfo>, b: seq<EndpointInfo>, nodeId: int)
    requires forall i | 0 <= i < |a| :: a[i].nodeId != nodeId
    requires forall i | 0 <= i < |b| :: b[i].nodeId != nodeId
    ensures forall i | 0 <= i < |a + b| :: (a + b)[i].nodeId != nodeId
  {
  }

  /** A second refresh on the same snapshot of distinct nodes publishes only discovery messages. */
  lemma SnapshotRefreshSettles(nodes: seq<NodeSnapshot>, c: Cache)
    requires DistinctNodeIds(nodes)
    ensures var eps := SnapshotEndpoints(nodes);
      var c1 := Refresh(eps, c).1;
      Refresh(eps, c1) == (DiscoveryLog(eps), c1)
  {
    SnapshotKeysUnique(nodes);
    SecondRefreshOnlyDiscovery(SnapshotEndpoints(nodes), c);
  }

  // ---------------------------------------------------------------------------
  // The periodic refresh

  /**
   * After a failed refresh, the periodic task stops when the application is no longer
   * running or the error is the noise of a closing transport; otherwise it carries on.
   */
  predicate ExitsOnRefreshError(running: bool, message: string) {
    !running || Contains(message, "closing transport") || Contains(message, "Cannot write to closing transport")
  }

  /** The second message test is subsumed by the first: "Cannot write to closing transport" contains "closing transport". */
  lemma ExitRuleSecondTestRedundant(running: bool, message: string)
    ensures ExitsOnRefreshError(running, message) <==> !running || Contains(message, "closing transport")
  {
    var long: string := "Cannot write to closing transport";
    var short: string := "closing transport";
    assert long == "Cannot write to " + short;
    ContainsSuffix("Cannot write to ", short);
    if Contains(message, long) {
      ContainsTransitive(message, long, short);
    }
  }

  /** What one wake-up of the periodic task finds: a snapshot, or the error the fetch raised. */
  datatype Round = Fetched(nodes: seq<NodeSnapshot>) | Raised(message: string)

  /** The publications and cache after one round that does not end the periodic refresh. */
  ghost function AfterRound(round: Round, log: seq<Publication>, c: Cache): (seq<Publication>, Cache) {
    match round
    case Fetched(nodes) => (log + Refresh(SnapshotEndpoints(nodes), c).0, Refresh(SnapshotEndpoints(nodes), c).1)
    case Raised(_) => (log, c)
  }

  /**
   * The periodic task over a sequence of wake-ups: the publications and cache that result,
   * and the number of rounds it handles before it returns.
   */
  ghost function RunRounds(running: bool, rounds: seq<Round>, log: seq<Publication>, c: Cache)
    : (seq<Publication>, Cache, nat)
    decreases |rounds|
  {
    if !running || rounds == [] then (log, c, 0)
    else if rounds[0].Raised? && ExitsOnRefreshError(running, rounds[0].message) then (log, c, 1)
    else
      var (log1, c1) := AfterRound(rounds[0], log, c);
      var (l, c2, k) := RunRounds(running, rounds[1..], log1, c1);
      (l, c2, k + 1)
  }

  /** Handling round `i` and carrying on from round `i + 1`. */
  lemma RunRoundsNext(rounds: seq<Round>, i: nat, log: seq<Publication>, c: Cache)
    requires i < |rounds|
    requires !(rounds[i].Raised? && ExitsOnRefreshError(true, rounds[i].message))
    ensures var next := AfterRound(rounds[i], log, c);
      var a, b := RunRounds(true, rounds[i..], log, c), RunRounds(true, rounds[i + 1..], next.0, next.1);
      a.0 == b.0 && a.1 == b.1 && a.2 == b.2 + 1
  {
    assert rounds[i..][1..] == rounds[i + 1..];
  }

  /** A round whose error ends the periodic refresh is the last one handled. */
  lemma RunRoundsExit(rounds: seq<Round>, i: nat, log: seq<Publication>, c: Cache)
    requires i < |rounds|
    requires rounds[i].Raised? && ExitsOnRefreshError(true, rounds[i].message)
    ensures RunRounds(true, rounds[i..], log, c) == (log, c, 1)
  {
  }

  /** A closing-transport error among the rounds. */
  predicate ClosingNoise(round: Round) {
    round.Raised? && Contains(round.message, "closing transport")
  }

  /**
   * While running, the periodic refresh handles every round up to and including the first one that
   * raises the closing-transport error, and stops there.
   */
  lemma {:induction false} RunRoundsHandled(rounds: seq<Round>, log: seq<Publication>, c: Cache)
    ensures var k := RunRounds(true, rounds, log, c).2;
      && k <= |rounds|
      && (forall i | 0 <= i < k - 1 :: !ClosingNoise(rounds[i]))
      && (k < |rounds| ==> 0 < k && ClosingNoise(rounds[k - 1]))
    decreases |rounds|
  {
    if rounds != [] {
      ExitRuleSecondTestRedundant(true, if rounds[0].Raised? then rounds[0].message else "");
      if !ClosingNoise(rounds[0]) {
        var (log1, c1) := AfterRound(rounds[0], log, c);
        RunRoundsHandled(rounds[1..], log1, c1);
        var k := RunRounds(true, rounds[1..], log1, c1).2;
        assert RunRounds(true, rounds, log, c).2 == k + 1;
        forall i | 0 <= i < k ensures !ClosingNoise(rounds[i]) {
          if i > 0 {
            assert rounds[i] == rounds[1..][i - 1];
          }
        }
        if k < |rounds[1..]| {
          assert rounds[k] == rounds[1..][k - 1];
        }
      }
    }
  }

  /** The periodic task keeps the cache equal to the last retained payloads. */
  lemma {:induction false} RunRoundsKeepsMatch(running: bool, rounds: seq<Round>, log: seq<Publication>, c: Cache)
    requires CacheMatchesLog(c, log)
    ensures var (l, c2, _) := RunRounds(running, rounds, log, c);
      CacheMatchesLog(c2, l)
    decreases |rounds|
  {
    if running && rounds != [] && !(rounds[0].Raised? && ExitsOnRefreshError(running, rounds[0].message)) {
      var (log1, c1) := AfterRound(rounds[0], log, c);
      if rounds[0].Fetched? {
        RefreshKeepsMatch(SnapshotEndpoints(rounds[0].nodes), c, log);
      }
      RunRoundsKeepsMatch(running, rounds[1..], log1, c1);
    }
  }

  // ---------------------------------------------------------------------------
  // One step of the command consumer

  /** What the bridge and the commander together have done so far. */
  datatype World = World(log: seq<Publication>, cache: Cache, channel: Channel)

  /** Why a consumer step logged an error instead of confirming the command. */
  datatype StepError = CommanderUnavailable | CommandFailed(error: Error) | SnapshotFailed

  /** The optimistic publication of the desired state, for `on` and `off` only. */
  function OptimisticLog(cmd: MqttCommand): (log: seq<Publication>)
    ensures cmd.action == ActionToggle ==> log == []
    ensures cmd.action == ActionOn ==> log == [StatePublication(cmd.nodeId, cmd.endpoint, true)]
    ensures cmd.action == ActionOff ==> log == [StatePublication(cmd.nodeId, cmd.endpoint, false)]
  {
    if cmd.action in {ActionOn, ActionOff} then [StatePublication(cmd.nodeId, cmd.endpoint, cmd.action == ActionOn)]
    else []
  }

  /**
   * The rest of the step after the optimistic publication: without a commander client the
   * command fails at once; otherwise it is sent and, when that succeeds, the snapshot is
   * refreshed to confirm the real state. Every failure is logged and swallowed.
   */
  ghost function SendAndConfirm(library: bool, w: World, cmd: MqttCommand, o: Oracle, snapshot: Option<seq<NodeSnapshot>>)
    : (Outcome<StepError>, World)
  {
    if !w.channel.client then (Fail(CommanderUnavailable), w)
    else
      var (r, ch) := SetOnOffSpec(library, w.channel, cmd.nodeId, cmd.endpoint, cmd.action, o);
      if r.Failure? then (Fail(CommandFailed(r.error)), w.(channel := ch))
      else
        match snapshot
        case None => (Fail(SnapshotFailed), w.(channel := ch))
        case Some(nodes) =>
          var (more, c) := Refresh(SnapshotEndpoints(nodes), w.cache);
          (Pass, World(w.log + more, c, ch))
  }

  /** The consumer step as the source has it: the optimistic publication leaves `last_state` alone. */
  ghost function ConsumeAsWritten(library: bool, w: World, cmd: MqttCommand, o: Oracle, snapshot: Option<seq<NodeSnapshot>>)
    : (Outcome<StepError>, World)
  {
    SendAndConfirm(library, w.(log := w.log + OptimisticLog(cmd)), cmd, o, snapshot)
  }

  /** The cache after the optimistic publication, recording the state that was published. */
  function OptimisticCache(cmd: MqttCommand, c: Cache): (c': Cache)
    ensures c'.avail == c.avail
    ensures cmd.action == ActionOn ==> c'.state == c.state[(cmd.nodeId, cmd.endpoint) := true]
    ensures cmd.action == ActionOff ==> c'.state == c.state[(cmd.nodeId, cmd.endpoint) := false]
    ensures cmd.action == ActionToggle ==> c' == c
  {
    if cmd.action in {ActionOn, ActionOff} then c.(state := c.state[(cmd.nodeId, cmd.endpoint) := cmd.action == ActionOn])
    else c
  }

  /** The corrected consumer step: the optimistic publication is recorded in `last_state` too. */
  ghost function Consume(library: bool, w: World, cmd: MqttCommand, o: Oracle, snapshot: Option<seq<NodeSnapshot>>)
    : (Outcome<StepError>, World)
  {
    SendAndConfirm(library, World(w.log + OptimisticLog(cmd), OptimisticCache(cmd, w.cache), w.channel), cmd, o, snapshot)
  }

  lemma SendAndConfirmKeepsMatch(library: bool, w: World, cmd: MqttCommand, o: Oracle, snapshot: Option<seq<NodeSnapshot>>)
    requires CacheMatchesLog(w.cache, w.log)
    ensures var w' := SendAndConfirm(library, w, cmd, o, snapshot).1;
      CacheMatchesLog(w'.cache, w'.log)
  {
    if w.channel.client && snapshot.Some? {
      RefreshKeepsMatch(SnapshotEndpoints(snapshot.value), w.cache, w.log);
    }
  }

  /** The corrected step keeps every cached state equal to the payload last published for it. */
  lemma ConsumeKeepsMatch(library: bool, w: World, cmd: MqttCommand, o: Oracle, snapshot: Option<seq<NodeSnapshot>>)
    requires CacheMatchesLog(w.cache, w.log)
    ensures var w' := Consume(library, w, cmd, o, snapshot).1;
      CacheMatchesLog(w'.cache, w'.log)
  {
    if cmd.action in {ActionOn, ActionOff} {
      PublishStateKeepsMatch(w.cache, w.log, (cmd.nodeId, cmd.endpoint), cmd.action == ActionOn);
    } else {
      assert w.log + OptimisticLog(cmd) == w.log;
    }
    SendAndConfirmKeepsMatch(library, World(w.log + OptimisticLog(cmd), OptimisticCache(cmd, w.cache), w.channel), cmd, o, snapshot);
  }

  /**
   * With the corrected step, the next refresh of a snapshot of distinct nodes leaves every
   * retained state equal to what the device reports, whatever the command did.
   */
  lemma ConsumeThenRefreshTruthful(library: bool, w: World, cmd: MqttCommand, o: Oracle,
                                   snapshot: Option<seq<NodeSnapshot>>, nodes: seq<NodeSnapshot>)
    requires CacheMatchesLog(w.cache, w.log) && DistinctNodeIds(nodes)
    ensures var w' := Consume(library, w, cmd, o, snapshot).1;
      var eps := SnapshotEndpoints(nodes);
      var log := w'.log + Refresh(eps, w'.cache).0;
      forall ep | ep in eps && ep.onoff.Some? ::
        LastPayload(log, TopicState(ep.nodeId, ep.endpoint)) == Some(Plain(StatePayload(ep.onoff.value)))
  {
    var w' := Consume(library, w, cmd, o, snapshot).1;
    ConsumeKeepsMatch(library, w, cmd, o, snapshot);
    SnapshotKeysUnique(nodes);
    RefreshPublishesSnapshot(SnapshotEndpoints(nodes), w'.cache, w'.log);
  }

  /**
   * As written, the step breaks that: with `ON` retained and cached, a command `off` that
   * cannot be sent publishes `OFF`, and the next refresh of the device, still on, publishes
   * no state at all, so `OFF` stays retained.
   */
  lemma ConsumeAsWrittenLeavesStaleState(library: bool, nodeId: int, endpoint: int, o: Oracle)
    ensures var k := (nodeId, endpoint);
      var ep := EndpointInfo(nodeId, endpoint, true, Some(true));
      var w := World([AvailPublication(ep), StatePublication(nodeId, endpoint, true)],
                     Cache(map[k := true], map[k := true]), Channel(false, false, []));
      var w' := ConsumeAsWritten(library, w, MqttCommand(nodeId, endpoint, ActionOff), o, None).1;
      var log := w'.log + Refresh([ep], w'.cache).0;
      && CacheMatchesLog(w.cache, w.log)
      && !CacheMatchesLog(w'.cache, w'.log)
      && LastPayload(log, TopicState(nodeId, endpoint)) == Some(Plain(PayloadOff))
  {
    var k := (nodeId, endpoint);
    var ep := EndpointInfo(nodeId, endpoint, true, Some(true));
    var avail := AvailPublication(ep);
    var on := StatePublication(nodeId, endpoint, true);
    var off := StatePublication(nodeId, endpoint, false);
    var w := World([avail, on], Cache(map[k := true], map[k := true]), Channel(false, false, []));
    RetainedTopicsDisjoint(nodeId, endpoint, nodeId, endpoint);
    assert [avail, on][..1] == [avail];
    assert LastPayload([avail, on], TopicAvailable(nodeId, endpoint)) == Some(Plain(AvailPayload(true)));
    assert CacheMatchesLog(w.cache, w.log);
    assert OptimisticLog(MqttCommand(nodeId, endpoint, ActionOff)) == [off];
    var w' := ConsumeAsWritten(library, w, MqttCommand(nodeId, endpoint, ActionOff), o, None).1;
    assert w' == w.(log := [avail, on, off]);
    assert LastPayload(w'.log, TopicState(nodeId, endpoint)) == Some(Plain(PayloadOff));
    assert Agrees(ep, w'.cache);
    assert SyncAll([ep], w'.cache).0 == [] by {
      assert [ep][..0] == [];
    }
    assert Refresh([ep], w'.cache).0 == DiscoveryLog([ep]);
    LastPayloadAppend(w'.log, DiscoveryLog([ep]), TopicState(nodeId, endpoint));
    DiscoveryLogMisses([ep], TopicState(nodeId, endpoint), k);
  }

  /** Every action the bridge queues is one the commander accepts. */
  lemma QueuedActionsAccepted(topic: string, payload: string)
    requires ParseCommand(topic, payload).Some?
    ensures CommandFor(ParseCommand(topic, payload).value.action).Some?
  {
  }

  // ---------------------------------------------------------------------------
  // Shutdown

  /** The resources `stop` closes, in order. */
  datatype Resource = MqttClient | MatterWebSocket | MatterCommands

  /** Whether the application runs, the close attempts so far, and the commander's state. */
  datatype Lifecycle = Lifecycle(running: bool, closed: seq<Resource>, channel: Channel)

  /**
   * `stop`: only the first call does anything. It clears `running` and attempts to close
   * the MQTT client, the WebSocket and the commander, each whatever the earlier ones raised.
   */
  function StopSpec(s: Lifecycle, disconnectOk: bool): (s': Lifecycle)
    ensures !s'.running
    ensures s.running ==> !s'.channel.client && !s'.channel.session
    ensures s.running ==> s'.closed == s.closed + [MqttClient, MatterWebSocket, MatterCommands]
    ensures !s.running ==> s' == s
  {
    if !s.running then s
    else Lifecycle(false, s.closed + [MqttClient, MatterWebSocket, MatterCommands], CloseSpec(s.channel, disconnectOk).1)
  }

  /** Stopping twice is stopping once. */
  lemma StopIdempotent(s: Lifecycle, ok1: bool, ok2: bool)
    ensures StopSpec(StopSpec(s, ok1), ok2) == StopSpec(s, ok1)
  {
  }

  // ---------------------------------------------------------------------------
  // The application object

  /** `Matter2MQTT`: the bridge, the command queue, the commander and the two caches. */
  class Matter2Mqtt {
    const queue: CommandQueue
    const mqtt: MqttBridge
    const commander: MatterCommander
    var lastAvail: map<Key, bool>
    var lastState: map<Key, bool>
    var running: bool
    /** The close attempts `stop` has made, in order. */
    var closed: seq<Resource>

    function Cached(): Cache
      reads this
    {
      Cache(lastAvail, lastState)
    }

    function Current(): World
      reads this, mqtt, commander
    {
      World(mqtt.published, Cached(), commander.State())
    }

    function Life(): Lifecycle
      reads this, commander
    {
      Lifecycle(running, closed, commander.State())
    }

    constructor (library: bool)
      ensures fresh(queue) && fresh(mqtt) && fresh(commander)
      ensures queue.items == [] && mqtt.queue == queue && commander.library == library
      ensures Current() == World([], Cache(map[], map[]), Channel(false, false, []))
      ensures running && closed == []
    {
      var q := new CommandQueue();
      queue := q;
      mqtt := new MqttBridge(q);
      commander := new MatterCommander(library);
      lastAvail := map[];
      lastState := map[];
      running := true;
      closed := [];
    }

    /** `publish_ha_discovery`: one retained discovery message for the endpoint. */
    method PublishHaDiscovery(ep: EndpointInfo)
      modifies mqtt
      ensures mqtt.published == old(mqtt.published) + [DiscoveryPublication(ep)]
    {
      mqtt.PublishRetained(HaDiscoveryTopic(ep.nodeId, ep.endpoint), DiscoveryConfig(ep.nodeId, ep.endpoint));
    }

    /** The first loop of `refresh_snapshot`: the endpoints of every node, in order. */
    method CollectEndpoints(nodes: seq<NodeSnapshot>) returns (endpoints: seq<EndpointInfo>)
      ensures endpoints == SnapshotEndpoints(nodes)
    {
      endpoints := [];
      for i := 0 to |nodes|
        invariant endpoints == SnapshotEndpoints(nodes[..i])
      {
        var infos := ExtractOnOffEndpointsFromNode(nodes[i]);
        endpoints := endpoints + infos;
        SnapshotEndpointsStep(nodes, i);
      }
      assert nodes[..|nodes|] == nodes;
    }

    /** The first loop of `refresh_snapshot`'s publishing: every discovery message. */
    method PublishAllDiscovery(endpoints: seq<EndpointInfo>)
      modifies mqtt
      ensures mqtt.published == old(mqtt.published) + DiscoveryLog(endpoints)
    {
      for i := 0 to |endpoints|
        invariant mqtt.published == old(mqtt.published) + DiscoveryLog(endpoints[..i])
      {
        PublishHaDiscovery(endpoints[i]);
        assert endpoints[..i + 1][..i] == endpoints[..i];
        assert DiscoveryLog(endpoints[..i + 1]) == DiscoveryLog(endpoints[..i]) + [DiscoveryPublication(endpoints[i])];
      }
      assert endpoints[..|endpoints|] == endpoints;
    }

    /** The second loop: availability and state of every endpoint, through the caches. */
    method SyncEndpoints(endpoints: seq<EndpointInfo>)
      modifies this, mqtt
      ensures mqtt.published == old(mqtt.published) + SyncAll(endpoints, old(Cached())).0
      ensures Cached() == SyncAll(endpoints, old(Cached())).1
      ensures running == old(running) && closed == old(closed)
    {
      for i := 0 to |endpoints|
        invariant mqtt.published == old(mqtt.published) + SyncAll(endpoints[..i], old(Cached())).0
        invariant Cached() == SyncAll(endpoints[..i], old(Cached())).1
        invariant running == old(running) && closed == old(closed)
      {
        ghost var before := mqtt.published;
        SyncOne(endpoints[i]);
        SyncAllSnoc(endpoints[..i], endpoints[i], old(Cached()));
        assert endpoints[..i + 1] == endpoints[..i] + [endpoints[i]];
        assert mqtt.published == before + SyncEndpoint(endpoints[i], SyncAll(endpoints[..i], old(Cached())).1).0;
      }
      assert endpoints[..|endpoints|] == endpoints;
    }

    /** The publishing part of `refresh_snapshot`, on the extracted endpoints. */
    method PublishEndpoints(endpoints: seq<EndpointInfo>)
      modifies this, mqtt
      ensures mqtt.published == old(mqtt.published) + Refresh(endpoints, old(Cached())).0
      ensures Cached() == Refresh(endpoints, old(Cached())).1
      ensures running == old(running) && closed == old(closed)
    {
      if endpoints == [] {
        assert mqtt.published == old(mqtt.published) + [];
        return;
      }
      PublishAllDiscovery(endpoints);
      SyncEndpoints(endpoints);
      assert mqtt.published == old(mqtt.published) + (DiscoveryLog(endpoints) + SyncAll(endpoints, old(Cached())).0);
    }

    /**
     * `refresh_snapshot`, given what `snapshot_nodes` returned (`None` when it raised):
     * publishes `Refresh` of the extracted endpoints and leaves the caches as it says.
     */
    method RefreshSnapshot(snapshot: Option<seq<NodeSnapshot>>) returns (r: Outcome<StepError>)
      modifies this, mqtt
      ensures snapshot.None? ==> r == Fail(SnapshotFailed) && mqtt.published == old(mqtt.published) && Cached() == old(Cached())
      ensures snapshot.Some? ==>
        && r == Pass
        && mqtt.published == old(mqtt.published) + Refresh(SnapshotEndpoints(snapshot.value), old(Cached())).0
        && Cached() == Refresh(SnapshotEndpoints(snapshot.value), old(Cached())).1
      ensures running == old(running) && closed == old(closed)
    {
      if snapshot.None? {
        return Fail(SnapshotFailed);
      }
      r := Pass;
      var endpoints := CollectEndpoints(snapshot.value);
      PublishEndpoints(endpoints);
    }

    /** The body of the second loop for one endpoint: availability, then state. */
    method SyncOne(ep: EndpointInfo)
      modifies this, mqtt
      ensures mqtt.published == old(mqtt.published) + SyncEndpoint(ep, old(Cached())).0
      ensures Cached() == SyncEndpoint(ep, old(Cached())).1
      ensures running == old(running) && closed == old(closed)
    {
      var key := KeyOf(ep);
      if key !in lastAvail || lastAvail[key] != ep.available {
        lastAvail := lastAvail[key := ep.available];
        mqtt.PublishRetained(TopicAvailable(ep.nodeId, ep.endpoint), Plain(AvailPayload(ep.available)));
      }
      if ep.onoff.Some? && (key !in lastState || lastState[key] != ep.onoff.value) {
        lastState := lastState[key := ep.onoff.value];
        mqtt.PublishRetained(TopicState(ep.nodeId, ep.endpoint), Plain(StatePayload(ep.onoff.value)));
      }
    }

    /**
     * One iteration of `command_consumer_task`, once `get` has returned the head of the
     * queue: the step as the source has it, errors logged rather than raised.
     */
    method ConsumeOne(o: Oracle, snapshot: Option<seq<NodeSnapshot>>) returns (r: Outcome<StepError>)
      requires queue.items != []
      modifies this, mqtt, queue, commander
      ensures queue.items == old(queue.items)[1..]
      ensures (r, Current()) == ConsumeAsWritten(commander.library, old(Current()), old(queue.items)[0], o, snapshot)
      ensures running == old(running) && closed == old(closed)
    {
      var cmd := queue.Get();
      assert cmd == old(queue.items)[0];
      if cmd.action in {ActionOn, ActionOff} {
        var desired := cmd.action == ActionOn;
        mqtt.PublishRetained(TopicState(cmd.nodeId, cmd.endpoint), Plain(StatePayload(desired)));
      }
      assert mqtt.published == old(mqtt.published) + OptimisticLog(cmd);
      assert Current() == old(Current()).(log := old(Current()).log + OptimisticLog(cmd));
      if !commander.client {
        return Fail(CommanderUnavailable);
      }
      var sent := commander.SetOnOff(cmd.nodeId, cmd.endpoint, cmd.action, o);
      if sent.Failure? {
        return Fail(CommandFailed(sent.error));
      }
      r := RefreshSnapshot(snapshot);
    }

    /**
     * `periodic_refresh_task` over a sequence of wake-ups: refresh on each, and after a
     * failed refresh stop when the exit rule says so. Returns the number of rounds handled.
     */
    method PeriodicRefresh(rounds: seq<Round>) returns (handled: nat)
      modifies this, mqtt
      ensures (mqtt.published, Cached(), handled) == RunRounds(old(running), rounds, old(mqtt.published), old(Cached()))
      ensures running == old(running) && closed == old(closed)
    {
      handled := 0;
      ghost var target := RunRounds(old(running), rounds, old(mqtt.published), old(Cached()));
      assert rounds[0..] == rounds;
      while running && handled < |rounds|
        invariant handled <= |rounds|
        invariant running == old(running) && closed == old(closed)
        invariant !running ==> handled == 0 && mqtt.published == old(mqtt.published) && Cached() == old(Cached())
        invariant running ==>
          var rest := RunRounds(true, rounds[handled..], mqtt.published, Cached());
          rest.0 == target.0 && rest.1 == target.1 && handled + rest.2 == target.2
        decreases |rounds| - handled
      {
        ghost var before := (mqtt.published, Cached());
        match rounds[handled]
        case Fetched(nodes) =>
          var _ := RefreshSnapshot(Some(nodes));
          assert (mqtt.published, Cached()) == AfterRound(rounds[handled], before.0, before.1);
          RunRoundsNext(rounds, handled, before.0, before.1);
          handled := handled + 1;
        case Raised(message) =>
          if ExitsOnRefreshError(running, message) {
            RunRoundsExit(rounds, handled, before.0, before.1);
            handled := handled + 1;
            return;
          }
          RunRoundsNext(rounds, handled, before.0, before.1);
          handled := handled + 1;
      }
      if running {
        assert rounds[handled..] == [];
      }
    }

    /** `stop`, given whether the commander's disconnect succeeds; only the first call acts. */
    method Stop(disconnectOk: bool)
      modifies this, commander
      ensures Life() == StopSpec(old(Life()), disconnectOk)
      ensures Cached() == old(Cached())
    {
      if !running {
        return;
      }
      running := false;
      closed := closed + [MqttClient];
      closed := closed + [MatterWebSocket];
      closed := closed + [MatterCommands];
      var _ := commander.Close(disconnectOk);
    }
  }
}
