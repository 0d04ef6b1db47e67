/** The binary sensor platform: which attribute a sensor reports and its
    device class, from the node's attributes and, for window and door
    sensors, from the groups named in the entry's options. */
module BinarySensor {
  import opened Wrappers
  import opened Homee
  import Text

  datatype BinaryDeviceClass = Opening | Plug | LockClass | Window | Door

  /** Profiles a binary sensor node may have. */
  const BinarySensorProfiles: seq<NodeProfile> := [
    OpenCloseSensor, OpenCloseAndTemperatureSensor,
    OpenCloseWithTemperatureAndBrightnessSensor, Lock]

  /** is_binary_sensor_node: the profile alone decides. */
  predicate IsBinarySensorNode(node: Node) {
    node.profile in BinarySensorProfiles
  }

  /** get_device_class: opening on OPEN_CLOSE by default, a plug on ON_OFF
      when the node has one, a lock on LOCK_STATE when it has that, the
      later test taking precedence. */
  function GetDeviceClass(node: Node): (r: (BinaryDeviceClass, AttributeType))
    ensures r.1 == LockState <==> HasAttribute(node, LockState)
    ensures r.1 == OnOff <==> HasAttribute(node, OnOff) && !HasAttribute(node, LockState)
    ensures r.1 == OpenClose <==> !HasAttribute(node, OnOff) && !HasAttribute(node, LockState)
    ensures r.0 == (match r.1 case LockState => LockClass case OnOff => Plug case _ => Opening)
  {
    var (deviceClass, stateAttr) := (Opening, OpenClose);
    var (deviceClass, stateAttr) := if HasAttribute(node, OnOff) then (Plug, OnOff) else (deviceClass, stateAttr);
    if HasAttribute(node, LockState) then (LockClass, LockState) else (deviceClass, stateAttr)
  }

  /** Whether one of the node's groups has its decimal id in a group list
      from the options. */
  predicate InGroups(node: Node, groupIds: seq<string>) {
    exists g :: g in node.groups && Text.IntToString(g) in groupIds
  }

  /** The device class after the group override: window groups win over
      door groups, and both over the attribute-based class. */
  function ConfiguredClass(node: Node, options: EntryOptions): (c: BinaryDeviceClass)
    ensures c == Window <==> InGroups(node, options.windowGroups)
    ensures c == Door <==> !InGroups(node, options.windowGroups) && InGroups(node, options.doorGroups)
    ensures !InGroups(node, options.windowGroups) && !InGroups(node, options.doorGroups) ==>
              c == GetDeviceClass(node).0
  {
    if InGroups(node, options.windowGroups) then Window
    else if InGroups(node, options.doorGroups) then Door
    else GetDeviceClass(node).0
  }

  /** A homee binary sensor entity. Its device class and state attribute are
      fields that _configure_device_class rewrites. */
  class HomeeBinarySensor {
    const node: Node
    const options: EntryOptions
    var deviceClass: BinaryDeviceClass
    var stateAttr: AttributeType

    /** HomeeBinarySensor(node, entry): opening on OPEN_CLOSE, then
        _configure_device_class. */
    constructor (node: Node, options: EntryOptions)
      ensures this.node == node && this.options == options
      ensures deviceClass == ConfiguredClass(node, options)
      ensures stateAttr == GetDeviceClass(node).1
    {
      this.node := node;
      this.options := options;
      deviceClass := Opening;
      stateAttr := OpenClose;
      new;
      ConfigureDeviceClass();
    }

    /** _configure_device_class: the attribute-based class and state
        attribute, then the window or door override. */
    method ConfigureDeviceClass()
      modifies this
      ensures deviceClass == ConfiguredClass(node, options)
      ensures stateAttr == GetDeviceClass(node).1
    {
      var (c, s) := GetDeviceClass(node);
      deviceClass, stateAttr := c, s;
      if InGroups(node, options.windowGroups) {
        deviceClass := Window;
      } else if InGroups(node, options.doorGroups) {
        deviceClass := Door;
      }
    }

    /** unique_id: "{node.id}-binary_sensor-{state attribute code}". The
        numeric type codes belong to the hub client library and are a
        parameter here. */
    function UniqueId(codeOf: AttributeType -> int): string
      reads this
    {
      Text.EntityUniqueId(node.id, "binary_sensor", codeOf(stateAttr))
    }

    /** is_on: the truth of the state attribute's value. */
    function IsOn(): (r: Result<bool, Fault>)
      reads this
      ensures r.Failure? <==> !HasAttribute(node, stateAttr)
      ensures r.Success? ==> (r.value <==> AttributeValue(node, stateAttr).value != 0)
    {
      match AttributeValue(node, stateAttr)
      case Failure(e) => Failure(e)
      case Success(v) => Success(v != 0)
    }
  }

  /** The nodes the platform makes binary sensors for, in order. */
  function BinarySensorNodes(nodes: seq<Node>): (r: seq<Node>)
    ensures forall n :: n in r <==> n in nodes && IsBinarySensorNode(n)
    ensures |r| <= |nodes|
  {
    if |nodes| == 0 then []
    else
      var front := nodes[..|nodes| - 1];
      var last := nodes[|nodes| - 1];
      assert forall n :: n in nodes <==> n in front || n == last;
      BinarySensorNodes(front) + if IsBinarySensorNode(last) then [last] else []
  }

  /** The state a new sensor of this node and these options is left in. */
  predicate MadeFor(s: HomeeBinarySensor, node: Node, options: EntryOptions)
    reads s
  {
    s.node == node && s.options == options &&
    s.deviceClass == ConfiguredClass(node, options) && s.stateAttr == GetDeviceClass(node).1
  }

  /** async_setup_entry of the binary sensor platform, over the imported nodes. */
  method SetupBinarySensors(nodes: seq<Node>, options: EntryOptions) returns (devices: seq<HomeeBinarySensor>)
    ensures |devices| == |BinarySensorNodes(nodes)|
    ensures forall i :: 0 <= i < |devices| ==> MadeFor(devices[i], BinarySensorNodes(nodes)[i], options)
  {
    devices := [];
    for n := 0 to |nodes|
      invariant |devices| == |BinarySensorNodes(nodes[..n])|
      invariant forall i :: 0 <= i < |devices| ==> MadeFor(devices[i], BinarySensorNodes(nodes[..n])[i], options)
    {
      var node := nodes[n];
      assert nodes[..n + 1][..n] == nodes[..n];
      if !IsBinarySensorNode(node) {
        assert BinarySensorNodes(nodes[..n + 1]) == BinarySensorNodes(nodes[..n]);
        continue;
      }
      assert BinarySensorNodes(nodes[..n + 1]) == BinarySensorNodes(nodes[..n]) + [node];
      var sensor := new HomeeBinarySensor(node, options);
      devices := devices + [sensor];
    }
    assert nodes[..|nodes|] == nodes;
  }

  /** Sensors of nodes with distinct non-negative ids have distinct unique
      ids, whatever attributes they report, as long as type codes are
      non-negative. */
  lemma UniqueIdsDistinct(a: HomeeBinarySensor, b: HomeeBinarySensor, codeOf: AttributeType -> int)
    requires 0 <= a.node.id && 0 <= b.node.id && a.node.id != b.node.id
    requires codeOf(a.stateAttr) >= 0 && codeOf(b.stateAttr) >= 0
    ensures a.UniqueId(codeOf) != b.UniqueId(codeOf)
  {
    if a.UniqueId(codeOf) == b.UniqueId(codeOf) {
      Text.EntityUniqueIdInjective("binary_sensor", a.node.id, codeOf(a.stateAttr), b.node.id, codeOf(b.stateAttr));
    }
  }
}
