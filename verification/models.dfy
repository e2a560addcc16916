/**
 * The bridge's constants (constants.py) and shared records (models.py), plus the
 * shape of one node of the Matter server's snapshot.
 */
module Models {
  import opened Wrappers

  /** The Matter OnOff cluster and its OnOff attribute. */
  const OnOffClusterId: int := 6
  const OnOffAttributeId: int := 0

  /** Retained payloads for the state and availability topics. */
  const PayloadOn: string := "ON"
  const PayloadOff: string := "OFF"
  const PayloadAvailable: string := "true"
  const PayloadUnavailable: string := "false"

  /** Home Assistant component under which endpoints are announced. */
  const HaDiscoveryDeviceClass: string := "light"

  /** The actions an MQTT command can carry. */
  const ActionOn: string := "on"
  const ActionOff: string := "off"
  const ActionToggle: string := "toggle"

  /** An endpoint carrying the OnOff cluster; `onoff` is `None` when its value is unknown. */
  datatype EndpointInfo = EndpointInfo(nodeId: int, endpoint: int, available: bool, onoff: Option<bool>)

  /** A command received over MQTT; `action` is one of "on", "off", "toggle". */
  datatype MqttCommand = MqttCommand(nodeId: int, endpoint: int, action: string)

  /**
   * A JSON attribute value as the Matter server reports it. Lists and objects are
   * represented by their number of members, which is all that truthiness looks at.
   */
  datatype AttrValue =
    | Null
    | Bool(b: bool)
    | Int(i: int)
    | Real(nonzero: bool)
    | Str(s: string)
    | Container(size: nat)

  /** Python's `bool(v)`: `None`, `False`, zero, the empty string and empty containers are false. */
  predicate Truthy(v: AttrValue) {
    match v
    case Null => false
    case Bool(b) => b
    case Int(i) => i != 0
    case Real(nonzero) => nonzero
    case Str(s) => s != ""
    case Container(size) => size > 0
  }

  /**
   * One node of the snapshot: its id, its optional "available" entry, and the items of
   * its "attributes" dict in insertion order (an absent or null dict is empty).
   */
  datatype NodeSnapshot = NodeSnapshot(nodeId: int, available: Option<AttrValue>, attributes: seq<(string, AttrValue)>)

  /** `bool(node.get("available", False))`. */
  predicate NodeAvailable(node: NodeSnapshot) {
    match node.available
    case None => false
    case Some(v) => Truthy(v)
  }
}
