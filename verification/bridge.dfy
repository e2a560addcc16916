/**
 * The MQTT side of the bridge (mqtt_bridge.py): turning an inbound message on
 * `matter/<node>/<endpoint>/set` into a command on the FIFO command queue, and
 * publishing retained messages, recorded as a log of publications.
 */
module Bridge {
  import opened Wrappers
  import opened Text
  import opened Models
  import opened Topics

  /** What a retained message carries: plain text, or the discovery JSON of an endpoint. */
  datatype Payload = Plain(s: string) | DiscoveryConfig(nodeId: int, endpoint: int)

  /** One retained publication, in the order the bridge made it. */
  datatype Publication = Publication(topic: string, payload: Payload)

  // ---------------------------------------------------------------------------
  // Parsing an inbound message

  /** The decoded payload, stripped of surrounding whitespace and upper-cased. */
  function NormalizePayload(payload: string): string {
    Upper(Strip(payload))
  }

  /** The payload families: ON, 1, TRUE switch on; OFF, 0, FALSE switch off; TOGGLE, T toggle. */
  function ActionFor(normalized: string): (r: Option<string>)
    ensures r.Some? ==> r.value in {ActionOn, ActionOff, ActionToggle}
  {
    if normalized in {"ON", "1", "TRUE"} then Some(ActionOn)
    else if normalized in {"OFF", "0", "FALSE"} then Some(ActionOff)
    else if normalized in {"TOGGLE", "T"} then Some(ActionToggle)
    else None
  }

  /**
   * The node and endpoint of a command topic: exactly four levels, the first `matter`,
   * the last `set`, the middle two integers. Anything else is ignored.
   */
  function ParseCommandTopic(topic: string): Option<(int, int)> {
    var parts := Split(topic, '/', -1);
    if |parts| != 4 || parts[0] != "matter" || parts[3] != "set" then None
    else
      match (ParseInt(parts[1]), ParseInt(parts[2]))
      case (Some(nodeId), Some(endpoint)) => Some((nodeId, endpoint))
      case _ => None
  }

  /** The command an inbound message yields, or `None` when it is ignored. */
  function ParseCommand(topic: string, payload: string): (r: Option<MqttCommand>)
    ensures r.Some? ==> ParseCommandTopic(topic) == Some((r.value.nodeId, r.value.endpoint))
    ensures r.Some? ==> ActionFor(NormalizePayload(payload)) == Some(r.value.action)
    ensures r.None? ==> ParseCommandTopic(topic).None? || ActionFor(NormalizePayload(payload)).None?
  {
    match (ParseCommandTopic(topic), ActionFor(NormalizePayload(payload)))
    case (Some((nodeId, endpoint)), Some(action)) => Some(MqttCommand(nodeId, endpoint, action))
    case _ => None
  }

  /**
   * An accepted topic is literally `matter/<a>/<b>/set` with four levels, where `a` and
   * `b` read as the node id and endpoint.
   */
  lemma AcceptedTopicShape(topic: string) returns (a: string, b: string)
    requires ParseCommandTopic(topic).Some?
    ensures topic == Topic(["matter", a, b, "set"])
    ensures '/' !in a && '/' !in b
    ensures ParseInt(a) == Some(ParseCommandTopic(topic).value.0)
    ensures ParseInt(b) == Some(ParseCommandTopic(topic).value.1)
  {
    var parts := Split(topic, '/', -1);
    JoinOfSplit(topic, '/', -1);
    SplitPiecesAvoidSep(topic, '/');
    a, b := parts[1], parts[2];
    assert parts == ["matter", a, b, "set"];
  }

  /** The command topic announced for (n, e) parses back to (n, e). */
  lemma CommandTopicRoundTrip(nodeId: int, endpoint: int)
    ensures ParseCommandTopic(CommandTopic(nodeId, endpoint)) == Some((nodeId, endpoint))
  {
    CommandTopicLevels(nodeId, endpoint);
    ParseIntOfIntToString(nodeId);
    ParseIntOfIntToString(endpoint);
  }

  /** A message on the announced command topic with a known payload yields exactly that command. */
  lemma CommandRoundTrip(nodeId: int, endpoint: int, payload: string)
    requires ActionFor(NormalizePayload(payload)).Some?
    ensures ParseCommand(CommandTopic(nodeId, endpoint), payload)
         == Some(MqttCommand(nodeId, endpoint, ActionFor(NormalizePayload(payload)).value))
  {
    CommandTopicRoundTrip(nodeId, endpoint);
  }

  /** A topic that is not four levels `matter/.../.../set` yields nothing, whatever the payload. */
  lemma MalformedTopicIgnored(topic: string, payload: string)
    requires var parts := Split(topic, '/', -1);
      |parts| != 4 || parts[0] != "matter" || parts[3] != "set"
    ensures ParseCommand(topic, payload).None?
  {
  }

  /** A node or endpoint level that is not an integer yields nothing. */
  lemma NonIntegerLevelIgnored(a: string, b: string, payload: string)
    requires '/' !in a && '/' !in b
    requires ParseInt(a).None? || ParseInt(b).None?
    ensures ParseCommand(Topic(["matter", a, b, "set"]), payload).None?
  {
    SplitOfJoin(["matter", a, b, "set"], '/', -1);
  }

  /** Whitespace around the payload does not matter. */
  lemma PayloadPaddingIgnored(w1: string, payload: string, w2: string)
    requires AllSpace(w1) && AllSpace(w2)
    ensures NormalizePayload(w1 + payload + w2) == NormalizePayload(payload)
  {
    StripIgnoresPadding(w1, payload, w2);
  }

  /** Letter case of the payload does not matter: upper-casing it first changes nothing. */
  lemma PayloadCaseIgnored(payload: string)
    ensures NormalizePayload(Upper(payload)) == NormalizePayload(payload)
  {
    UpperStripCommute(payload);
    UpperIdempotent(Strip(payload));
  }

  /** A payload without surrounding whitespace is only upper-cased. */
  lemma NormalizeUnpadded(payload: string)
    requires payload == [] || (!IsSpace(payload[0]) && !IsSpace(payload[|payload| - 1]))
    ensures NormalizePayload(payload) == Upper(payload)
  {
    StripUnpadded(payload);
  }

  lemma UpperTwo(a: char, b: char)
    ensures Upper([a, b]) == [UpperChar(a), UpperChar(b)]
  {
  }

  /** "on" normalises to "ON". */
  lemma LowerOnSpelling()
    ensures NormalizePayload("on") == "ON"
  {
    NormalizeUnpadded(['o', 'n']);
    UpperTwo('o', 'n');
  }

  /** "ON" normalises to itself. */
  lemma UpperOnSpelling()
    ensures NormalizePayload("ON") == "ON"
  {
    NormalizeUnpadded(['O', 'N']);
    UpperTwo('O', 'N');
  }

  /** One space on each side does not matter. */
  lemma SpacePadded(payload: string)
    ensures NormalizePayload([' '] + payload + [' ']) == NormalizePayload(payload)
  {
    assert AllSpace([' ']);
    PayloadPaddingIgnored([' '], payload, [' ']);
  }

  /** "On" normalises to "ON". */
  lemma MixedOnSpelling()
    ensures NormalizePayload("On") == "ON"
  {
    NormalizeUnpadded(['O', 'n']);
    UpperTwo('O', 'n');
  }

  /** " On " normalises to "ON": the padding goes, then the letters are upper-cased. */
  lemma PaddedOnSpelling()
    ensures NormalizePayload(" On ") == "ON"
  {
    var padded := [' '] + "On" + [' '];
    assert padded == " On ";
    SpacePadded("On");
    MixedOnSpelling();
    assert NormalizePayload(padded) == "ON";
  }

  /** "on", " On " and "ON" all yield action `on` on a command topic. */
  lemma OnSpellings(nodeId: int, endpoint: int)
    ensures ParseCommand(CommandTopic(nodeId, endpoint), "on") == Some(MqttCommand(nodeId, endpoint, ActionOn))
    ensures ParseCommand(CommandTopic(nodeId, endpoint), " On ") == Some(MqttCommand(nodeId, endpoint, ActionOn))
    ensures ParseCommand(CommandTopic(nodeId, endpoint), "ON") == Some(MqttCommand(nodeId, endpoint, ActionOn))
  {
    LowerOnSpelling();
    UpperOnSpelling();
    PaddedOnSpelling();
    CommandTopicRoundTrip(nodeId, endpoint);
  }

  /** "blorp" is no known payload, so it yields no command on any topic. */
  lemma UnknownPayloadIgnored(topic: string)
    ensures ParseCommand(topic, "blorp").None?
  {
    StripUnpadded("blorp");
    var u := Upper("blorp");
    assert u[0] == 'B';
    assert |u| == 5;
  }

  // ---------------------------------------------------------------------------
  // The command queue and the bridge

  /** The FIFO queue between the MQTT callback and the command consumer. */
  class CommandQueue {
    var items: seq<MqttCommand>

    constructor ()
      ensures items == []
    {
      items := [];
    }

    /** `put_nowait`: append at the tail. */
    method PutNowait(cmd: MqttCommand)
      modifies this
      ensures items == old(items) + [cmd]
    {
      items := items + [cmd];
    }

    /** `get`, once a command is waiting: take the head. */
    method Get() returns (cmd: MqttCommand)
      requires items != []
      modifies this
      ensures [cmd] + items == old(items)
    {
      cmd := items[0];
      items := items[1..];
    }
  }

  /** The bridge: its command queue and the retained messages it has published. */
  class MqttBridge {
    const queue: CommandQueue
    var published: seq<Publication>

    constructor (queue: CommandQueue)
      ensures this.queue == queue && published == []
    {
      this.queue := queue;
      published := [];
    }

    /** `publish_retained`: one more retained publication at the end of the log. */
    method PublishRetained(topic: string, payload: Payload)
      modifies this
      ensures published == old(published) + [Publication(topic, payload)]
    {
      published := published + [Publication(topic, payload)];
    }

    /**
     * `_on_message`: a well-formed command is appended to the queue; anything else is
     * dropped. Earlier queue entries and the publication log are left alone.
     */
    method OnMessage(topic: string, payload: string)
      modifies queue
      ensures queue.items == old(queue.items) + match ParseCommand(topic, payload)
        case Some(cmd) => [cmd]
        case None => []
    {
      var normalized := Upper(Strip(payload));
      var parts := Split(topic, '/', -1);
      if |parts| != 4 || parts[0] != "matter" || parts[3] != "set" {
        return;
      }
      var nodeId := ParseInt(parts[1]);
      var endpoint := ParseInt(parts[2]);
      if nodeId.None? || endpoint.None? {
        return;
      }
      var action: string;
      if normalized in {"ON", "1", "TRUE"} {
        action := ActionOn;
      } else if normalized in {"OFF", "0", "FALSE"} {
        action := ActionOff;
      } else if normalized in {"TOGGLE", "T"} {
        action := ActionToggle;
      } else {
        return;
      }
      queue.PutNowait(MqttCommand(nodeId.value, endpoint.value, action));
    }
  }
}
