/**
 * The MQTT topics of one endpoint (topics.py): its retained state and availability
 * topics, its Home Assistant discovery topic, and the command topic announced in
 * the discovery message.
 */
module Topics {
  import opened Text
  import opened Models

  /** `str(i)` never contains a slash or an underscore, so it is safe as one topic level. */
  lemma IntToStringHasNoSeparator(i: int)
    ensures '/' !in IntToString(i) && '_' !in IntToString(i)
  {
  }

  /** A topic made of the given levels, separated by slashes. */
  function Topic(levels: seq<string>): string
    requires |levels| > 0
  {
    Join(levels, '/')
  }

  /** Joining four levels writes them out with a separator between each pair. */
  lemma JoinFour(a: string, b: string, c: string, d: string, sep: char)
    ensures Join([a, b, c, d], sep) == a + [sep] + b + [sep] + c + [sep] + d
  {
    var l := [a, b, c, d];
    assert l[1..] == [b, c, d] && l[1..][1..] == [c, d] && l[1..][1..][1..] == [d];
    assert Join([c, d], sep) == c + [sep] + d;
    assert Join([b, c, d], sep) == b + [sep] + (c + [sep] + d);
    assert Join(l, sep) == a + [sep] + (b + [sep] + (c + [sep] + d));
  }

  /** `topic_state`: the levels `matter`, node id, endpoint, `state`. */
  function TopicState(nodeId: int, endpoint: int): string {
    Topic(["matter", IntToString(nodeId), IntToString(endpoint), "state"])
  }

  /** `topic_available`: the levels `matter`, node id, endpoint, `available`. */
  function TopicAvailable(nodeId: int, endpoint: int): string {
    Topic(["matter", IntToString(nodeId), IntToString(endpoint), "available"])
  }

  /** The `command_topic` of the discovery message: `matter`, node id, endpoint, `set`. */
  function CommandTopic(nodeId: int, endpoint: int): string {
    Topic(["matter", IntToString(nodeId), IntToString(endpoint), "set"])
  }

  /** A `matter/<node>/<endpoint>/<leaf>` topic splits back into its four levels. */
  lemma NodeLevels(nodeId: int, endpoint: int, leaf: string)
    requires '/' !in leaf
    ensures Split(Topic(["matter", IntToString(nodeId), IntToString(endpoint), leaf]), '/', -1)
         == ["matter", IntToString(nodeId), IntToString(endpoint), leaf]
  {
    IntToStringHasNoSeparator(nodeId);
    IntToStringHasNoSeparator(endpoint);
    var l := ["matter", IntToString(nodeId), IntToString(endpoint), leaf];
    assert forall i | 0 <= i < 4 :: '/' !in l[i];
    SplitOfJoin(l, '/', -1);
  }

  /** The state topic splits back into `matter`, the node id, the endpoint and `state`. */
  lemma TopicStateLevels(nodeId: int, endpoint: int)
    ensures Split(TopicState(nodeId, endpoint), '/', -1) == ["matter", IntToString(nodeId), IntToString(endpoint), "state"]
  {
    NodeLevels(nodeId, endpoint, "state");
  }

  /** The availability topic splits back into `matter`, the node id, the endpoint and `available`. */
  lemma TopicAvailableLevels(nodeId: int, endpoint: int)
    ensures Split(TopicAvailable(nodeId, endpoint), '/', -1) == ["matter", IntToString(nodeId), IntToString(endpoint), "available"]
  {
    NodeLevels(nodeId, endpoint, "available");
  }

  /** The command topic splits back into `matter`, the node id, the endpoint and `set`. */
  lemma CommandTopicLevels(nodeId: int, endpoint: int)
    ensures Split(CommandTopic(nodeId, endpoint), '/', -1) == ["matter", IntToString(nodeId), IntToString(endpoint), "set"]
  {
    NodeLevels(nodeId, endpoint, "set");
  }

  /** The f-string `matter/{node_id}/{endpoint}/state`, character for character. */
  lemma TopicStateText(nodeId: int, endpoint: int)
    ensures TopicState(nodeId, endpoint) == "matter/" + IntToString(nodeId) + "/" + IntToString(endpoint) + "/state"
  {
    JoinFour("matter", IntToString(nodeId), IntToString(endpoint), "state", '/');
  }

  /** The f-string `matter/{node_id}/{endpoint}/available`, character for character. */
  lemma TopicAvailableText(nodeId: int, endpoint: int)
    ensures TopicAvailable(nodeId, endpoint) == "matter/" + IntToString(nodeId) + "/" + IntToString(endpoint) + "/available"
  {
    JoinFour("matter", IntToString(nodeId), IntToString(endpoint), "available", '/');
  }

  /** The per-endpoint level of the discovery topic, `matter_<node>_<endpoint>`. */
  function DiscoveryObjectId(nodeId: int, endpoint: int): string {
    Join(["matter", IntToString(nodeId), IntToString(endpoint)], '_')
  }

  /** The object id has no slash, and splits at underscores back into `matter`, the node id and the endpoint. */
  lemma DiscoveryObjectIdLevels(nodeId: int, endpoint: int)
    ensures '/' !in DiscoveryObjectId(nodeId, endpoint)
    ensures Split(DiscoveryObjectId(nodeId, endpoint), '_', -1) == ["matter", IntToString(nodeId), IntToString(endpoint)]
  {
    IntToStringHasNoSeparator(nodeId);
    IntToStringHasNoSeparator(endpoint);
    var parts := ["matter", IntToString(nodeId), IntToString(endpoint)];
    assert parts[1..] == [IntToString(nodeId), IntToString(endpoint)];
    assert parts[1..][1..] == [IntToString(endpoint)];
    assert forall i | 0 <= i < 3 :: '_' !in parts[i];
    SplitOfJoin(parts, '_', -1);
    var id := Join(parts, '_');
    assert Join(parts[1..], '_') == IntToString(nodeId) + ['_'] + IntToString(endpoint);
    assert id == "matter" + ['_'] + Join(parts[1..], '_');
  }

  /** `ha_discovery_topic`: the levels `homeassistant`, `light`, `matter_<node>_<endpoint>`, `config`. */
  function HaDiscoveryTopic(nodeId: int, endpoint: int): string {
    Topic(["homeassistant", HaDiscoveryDeviceClass, DiscoveryObjectId(nodeId, endpoint), "config"])
  }

  /** The discovery topic splits back into `homeassistant`, the device class, the object id and `config`. */
  lemma HaDiscoveryTopicLevels(nodeId: int, endpoint: int)
    ensures Split(HaDiscoveryTopic(nodeId, endpoint), '/', -1)
         == ["homeassistant", HaDiscoveryDeviceClass, DiscoveryObjectId(nodeId, endpoint), "config"]
  {
    DiscoveryObjectIdLevels(nodeId, endpoint);
    var l := ["homeassistant", HaDiscoveryDeviceClass, DiscoveryObjectId(nodeId, endpoint), "config"];
    assert forall i | 0 <= i < 4 :: '/' !in l[i];
    SplitOfJoin(l, '/', -1);
  }

  /** The f-string `matter_{node_id}_{endpoint}`, character for character. */
  lemma DiscoveryObjectIdText(nodeId: int, endpoint: int)
    ensures DiscoveryObjectId(nodeId, endpoint) == "matter_" + IntToString(nodeId) + "_" + IntToString(endpoint)
  {
    var n, e := IntToString(nodeId), IntToString(endpoint);
    var parts := ["matter", n, e];
    assert parts[1..] == [n, e] && parts[1..][1..] == [e];
    assert Join([n, e], '_') == n + ['_'] + e;
    assert Join(parts, '_') == "matter" + ['_'] + Join(parts[1..], '_');
  }

  /** The f-string `homeassistant/{HA_DISCOVERY_DEVICE_CLASS}/matter_{node_id}_{endpoint}/config`. */
  lemma HaDiscoveryTopicText(nodeId: int, endpoint: int)
    ensures HaDiscoveryTopic(nodeId, endpoint)
         == "homeassistant/" + HaDiscoveryDeviceClass + "/" + DiscoveryObjectId(nodeId, endpoint) + "/config"
  {
    JoinFour("homeassistant", HaDiscoveryDeviceClass, DiscoveryObjectId(nodeId, endpoint), "config", '/');
  }

  /** Distinct (node, endpoint) keys have distinct state topics. */
  lemma TopicStateInjective(n1: int, e1: int, n2: int, e2: int)
    ensures TopicState(n1, e1) == TopicState(n2, e2) ==> n1 == n2 && e1 == e2
  {
    if TopicState(n1, e1) == TopicState(n2, e2) {
      TopicStateLevels(n1, e1);
      TopicStateLevels(n2, e2);
      var p1, p2 := Split(TopicState(n1, e1), '/', -1), Split(TopicState(n2, e2), '/', -1);
      assert p1[1] == p2[1] && p1[2] == p2[2];
      IntToStringInjective(n1, n2);
      IntToStringInjective(e1, e2);
    }
  }

  /** Distinct (node, endpoint) keys have distinct availability topics. */
  lemma TopicAvailableInjective(n1: int, e1: int, n2: int, e2: int)
    ensures TopicAvailable(n1, e1) == TopicAvailable(n2, e2) ==> n1 == n2 && e1 == e2
  {
    if TopicAvailable(n1, e1) == TopicAvailable(n2, e2) {
      TopicAvailableLevels(n1, e1);
      TopicAvailableLevels(n2, e2);
      var p1, p2 := Split(TopicAvailable(n1, e1), '/', -1), Split(TopicAvailable(n2, e2), '/', -1);
      assert p1[1] == p2[1] && p1[2] == p2[2];
      IntToStringInjective(n1, n2);
      IntToStringInjective(e1, e2);
    }
  }

  /** Distinct (node, endpoint) keys have distinct discovery topics. */
  lemma HaDiscoveryTopicInjective(n1: int, e1: int, n2: int, e2: int)
    ensures HaDiscoveryTopic(n1, e1) == HaDiscoveryTopic(n2, e2) ==> n1 == n2 && e1 == e2
  {
    if HaDiscoveryTopic(n1, e1) == HaDiscoveryTopic(n2, e2) {
      HaDiscoveryTopicLevels(n1, e1);
      HaDiscoveryTopicLevels(n2, e2);
      DiscoveryObjectIdLevels(n1, e1);
      DiscoveryObjectIdLevels(n2, e2);
      var p1, p2 := Split(HaDiscoveryTopic(n1, e1), '/', -1), Split(HaDiscoveryTopic(n2, e2), '/', -1);
      assert p1[2] == p2[2];
      var q1, q2 := Split(p1[2], '_', -1), Split(p2[2], '_', -1);
      assert q1[1] == q2[1] && q1[2] == q2[2];
      IntToStringInjective(n1, n2);
      IntToStringInjective(e1, e2);
    }
  }

  /**
   * The three retained topics never collide: no state topic is an availability topic,
   * and no discovery topic is either, whatever the two keys.
   */
  lemma RetainedTopicsDisjoint(n1: int, e1: int, n2: int, e2: int)
    ensures TopicState(n1, e1) != TopicAvailable(n2, e2)
    ensures HaDiscoveryTopic(n1, e1) != TopicState(n2, e2)
    ensures HaDiscoveryTopic(n1, e1) != TopicAvailable(n2, e2)
  {
    TopicStateLevels(n1, e1);
    TopicAvailableLevels(n2, e2);
    TopicStateLevels(n2, e2);
    HaDiscoveryTopicLevels(n1, e1);
    assert Split(TopicState(n1, e1), '/', -1)[3] != Split(TopicAvailable(n2, e2), '/', -1)[3];
    assert Split(HaDiscoveryTopic(n1, e1), '/', -1)[0] != Split(TopicState(n2, e2), '/', -1)[0];
    assert Split(HaDiscoveryTopic(n1, e1), '/', -1)[0] != Split(TopicAvailable(n2, e2), '/', -1)[0];
  }

  /** No retained topic is a command topic, so the bridge never hears its own publications as commands. */
  lemma CommandTopicNotRetained(n1: int, e1: int, n2: int, e2: int)
    ensures CommandTopic(n1, e1) != TopicState(n2, e2)
    ensures CommandTopic(n1, e1) != TopicAvailable(n2, e2)
    ensures CommandTopic(n1, e1) != HaDiscoveryTopic(n2, e2)
  {
    CommandTopicLevels(n1, e1);
    TopicStateLevels(n2, e2);
    TopicAvailableLevels(n2, e2);
    HaDiscoveryTopicLevels(n2, e2);
    assert Split(CommandTopic(n1, e1), '/', -1)[3] != Split(TopicState(n2, e2), '/', -1)[3];
    assert Split(CommandTopic(n1, e1), '/', -1)[3] != Split(TopicAvailable(n2, e2), '/', -1)[3];
    assert Split(CommandTopic(n1, e1), '/', -1)[0] != Split(HaDiscoveryTopic(n2, e2), '/', -1)[0];
  }
}
