/** The sensor platform: one sensor per energy, position or up/down
    attribute of every imported node, numbered per attribute type, with its
    device and state class and its display name. */
module Sensor {
  import opened Wrappers
  import opened Homee
  import Text

  datatype SensorDeviceClass = Power | Energy

  datatype SensorStateClass = Measurement | TotalIncreasing

  /** Attribute types that become sensors. */
  const ValidAttributes: seq<AttributeType> := [CurrentEnergyUse, AccumulatedEnergyUse, Position, UpDown]

  /** Attribute types measured at a point in time. */
  const MeasurementAttributes: seq<AttributeType> := [CurrentEnergyUse, Position, UpDown]

  /** get_device_class: power for the current consumption, energy for the
      accumulated one. */
  function GetDeviceClass(a: Attribute): (c: Option<SensorDeviceClass>)
    ensures c == Some(Power) <==> a.attrType == CurrentEnergyUse
    ensures c == Some(Energy) <==> a.attrType == AccumulatedEnergyUse
  {
    if a.attrType == CurrentEnergyUse then Some(Power)
    else if a.attrType == AccumulatedEnergyUse then Some(Energy)
    else None
  }

  /** get_state_class: a measurement for the point-in-time types, a
      total that only increases for the accumulated consumption. */
  function GetStateClass(a: Attribute): (c: Option<SensorStateClass>)
    ensures c == Some(Measurement) <==> a.attrType in MeasurementAttributes
    ensures c == Some(TotalIncreasing) <==> a.attrType == AccumulatedEnergyUse
    ensures a.attrType in ValidAttributes ==> c.Some?
  {
    if a.attrType in MeasurementAttributes then Some(Measurement)
    else if a.attrType == AccumulatedEnergyUse then Some(TotalIncreasing)
    else None
  }

  /** The string a device class formats to. */
  function DeviceClassText(c: SensorDeviceClass): string {
    match c
    case Power => "power"
    case Energy => "energy"
  }

  /** The identifier under which the hub client library declares an
      attribute type. `OtherType` codes are given none: the model does not
      tell the codes the library declares apart from those it does not. */
  function TypeIdentifier(t: AttributeType): (r: Option<string>)
    ensures r.None? <==> t.OtherType?
  {
    match t
    case OnOff => Some("ON_OFF")
    case DimmingLevel => Some("DIMMING_LEVEL")
    case Color => Some("COLOR")
    case Hue => Some("HUE")
    case ColorTemperature => Some("COLOR_TEMPERATURE")
    case ColorMode => Some("COLOR_MODE")
    case UpDown => Some("UP_DOWN")
    case OpenClose => Some("OPEN_CLOSE")
    case Position => Some("POSITION")
    case LockState => Some("LOCK_STATE")
    case Brightness => Some("BRIGHTNESS")
    case CurrentEnergyUse => Some("CURRENT_ENERGY_USE")
    case AccumulatedEnergyUse => Some("ACCUMULATED_ENERGY_USE")
    case Temperature => Some("TEMPERATURE")
    case TargetTemperature => Some("TARGET_TEMPERATURE")
    case TargetTemperatureLow => Some("TARGET_TEMPERATURE_LOW")
    case TargetTemperatureHigh => Some("TARGET_TEMPERATURE_HIGH")
    case OtherType(_) => None
  }

  /** A homee sensor entity: its node, the attribute it measures, its
      classes, and its index among the node's sensors of that type. */
  datatype HomeeSensor = HomeeSensor(
    node: Node,
    measurement: Attribute,
    deviceClass: Option<SensorDeviceClass>,
    stateClass: Option<SensorStateClass>,
    index: int)
  {
    /** unique_id: "{node.id}-sensor-{attribute.id}". */
    function UniqueId(): string {
      Text.EntityUniqueId(node.id, "sensor", measurement.id)
    }

    /** The name before numbering: the attribute's own name unless it is
        empty or "None", else the device class, else the type identifier;
        with no identifier the name stays unbound. */
    function BaseName(): Result<string, Fault> {
      if measurement.name != "" && measurement.name != "None" then Success(measurement.name)
      else if deviceClass.Some? then Success(DeviceClassText(deviceClass.value))
      else match TypeIdentifier(measurement.attrType)
        case Some(key) => Success(key)
        case None => Failure(UnboundLocal)
    }

    /** name: the base name, followed by " {index+1}" from the second
        sensor of a type on. */
    function Name(): (r: Result<string, Fault>)
      ensures r.Failure? <==> BaseName().Failure?
      ensures r.Success? && index <= 0 ==> r.value == BaseName().value
      ensures r.Success? && index > 0 ==>
                r.value == BaseName().value + " " + Text.NatToString(index + 1)
    {
      match BaseName()
      case Failure(e) => Failure(e)
      case Success(name) => Success(if index > 0 then name + " " + Text.IntToString(index + 1) else name)
    }
  }

  /** HomeeSensor(node, entry, attribute, index). */
  function MakeSensor(node: Node, a: Attribute, index: int): HomeeSensor {
    HomeeSensor(node, a, GetDeviceClass(a), GetStateClass(a), index)
  }

  /** The number of attributes that become sensors. */
  function CountValid(attrs: seq<Attribute>): (c: nat)
    ensures c <= |attrs|
  {
    if |attrs| == 0 then 0
    else CountValid(attrs[..|attrs| - 1]) + if attrs[|attrs| - 1].attrType in ValidAttributes then 1 else 0
  }

  /** The sensors the inner setup loop creates for a node from a list of its
      attributes: one per attribute of a valid type, indexed by how many
      attributes of the same type came before it. */
  function SensorsOf(node: Node, attrs: seq<Attribute>): (r: seq<HomeeSensor>)
    ensures |r| == CountValid(attrs)
  {
    if |attrs| == 0 then []
    else
      var front := attrs[..|attrs| - 1];
      var a := attrs[|attrs| - 1];
      SensorsOf(node, front) + if a.attrType in ValidAttributes then [MakeSensor(node, a, CountType(front, a.attrType))] else []
  }

  /** The sensors the platform creates for a list of nodes, in order. */
  function SensorEntities(nodes: seq<Node>): seq<HomeeSensor> {
    if |nodes| == 0 then []
    else SensorEntities(nodes[..|nodes| - 1]) + SensorsOf(nodes[|nodes| - 1], nodes[|nodes| - 1].attributes)
  }

  /** One step of the counters: appending an attribute adds its type to
      the seen types and raises the count of its type only. */
  lemma CountsStep(prefix: seq<Attribute>, a: Attribute)
    ensures forall x :: x in prefix + [a] <==> x in prefix || x == a
    ensures CountType(prefix + [a], a.attrType) == CountType(prefix, a.attrType) + 1
    ensures forall t :: t != a.attrType ==> CountType(prefix + [a], t) == CountType(prefix, t)
    ensures (prefix + [a])[..|prefix|] == prefix
  {
    assert (prefix + [a])[..|prefix|] == prefix;
  }

  /** SensorsOf grows by at most the sensor of the appended attribute. */
  lemma SensorsOfAppend(node: Node, prefix: seq<Attribute>, a: Attribute)
    ensures SensorsOf(node, prefix + [a]) == SensorsOf(node, prefix) +
              if a.attrType in ValidAttributes then [MakeSensor(node, a, CountType(prefix, a.attrType))] else []
  {
    assert (prefix + [a])[..|prefix|] == prefix;
  }

  /** The counters after one attribute: its type gets a counter starting
      at zero, which a valid type then raises by one. */
  function Bump(counts: map<AttributeType, int>, a: Attribute): map<AttributeType, int> {
    var seen := if a.attrType in counts then counts else counts[a.attrType := 0];
    if a.attrType in ValidAttributes then seen[a.attrType := seen[a.attrType] + 1] else seen
  }

  /** The per-type counters of the setup loop after a list of attributes. */
  function CountsMap(attrs: seq<Attribute>): map<AttributeType, int> {
    if |attrs| == 0 then map[] else Bump(CountsMap(attrs[..|attrs| - 1]), attrs[|attrs| - 1])
  }

  /** The counters hold a key for every type seen so far, and for valid
      types the number of attributes of that type seen so far. */
  lemma {:induction false} CountsMapCounts(attrs: seq<Attribute>, t: AttributeType)
    ensures t in CountsMap(attrs) <==> CountType(attrs, t) > 0
    ensures t in CountsMap(attrs) ==> CountsMap(attrs)[t] == if t in ValidAttributes then CountType(attrs, t) else 0
  {
    if |attrs| > 0 {
      CountsMapCounts(attrs[..|attrs| - 1], t);
    }
  }

  /** async_setup_entry of the sensor platform, over the imported nodes. */
  method SetupSensors(nodes: seq<Node>) returns (devices: seq<HomeeSensor>)
    ensures devices == SensorEntities(nodes)
  {
    devices := [];
    for n := 0 to |nodes|
      invariant devices == SensorEntities(nodes[..n])
    {
      var node := nodes[n];
      assert nodes[..n + 1][..n] == nodes[..n];
      var nodeSensors := NodeSensors(node);
      devices := devices + nodeSensors;
    }
    assert nodes[..|nodes|] == nodes;
  }

  /** The inner loop of async_setup_entry for one node: fresh per-type
      counters, and a sensor for each attribute of a valid type. */
  method NodeSensors(node: Node) returns (devices: seq<HomeeSensor>)
    ensures devices == SensorsOf(node, node.attributes)
  {
    devices := [];
    var sensorTypeCounts: map<AttributeType, int> := map[];
    for j := 0 to |node.attributes|
      invariant sensorTypeCounts == CountsMap(node.attributes[..j])
      invariant devices == SensorsOf(node, node.attributes[..j])
    {
      var attribute := node.attributes[j];
      ghost var prefix := node.attributes[..j];
      ghost var counts0 := sensorTypeCounts;
      assert node.attributes[..j + 1] == prefix + [attribute];
      assert (prefix + [attribute])[..j] == prefix;
      CountsMapCounts(prefix, attribute.attrType);
      SensorsOfAppend(node, prefix, attribute);
      if attribute.attrType !in sensorTypeCounts {
        sensorTypeCounts := sensorTypeCounts[attribute.attrType := 0];
      }
      if attribute.attrType in ValidAttributes {
        var sensorIndex := sensorTypeCounts[attribute.attrType];
        assert sensorIndex == CountType(prefix, attribute.attrType);
        devices := devices + [MakeSensor(node, attribute, sensorIndex)];
        sensorTypeCounts := sensorTypeCounts[attribute.attrType := sensorTypeCounts[attribute.attrType] + 1];
      }
      assert sensorTypeCounts == Bump(counts0, attribute);
      assert devices == SensorsOf(node, prefix + [attribute]);
    }
    assert node.attributes[..|node.attributes|] == node.attributes;
  }

  /** The sensor of the j-th attribute of a valid type sits after the
      sensors of the valid attributes before it, and its index counts the
      earlier attributes of its type. */
  lemma {:induction false} SensorOfAttribute(node: Node, attrs: seq<Attribute>, j: nat)
    requires j < |attrs| && attrs[j].attrType in ValidAttributes
    ensures CountValid(attrs[..j]) < |SensorsOf(node, attrs)|
    ensures SensorsOf(node, attrs)[CountValid(attrs[..j])] ==
              MakeSensor(node, attrs[j], CountType(attrs[..j], attrs[j].attrType))
  {
    var front := attrs[..|attrs| - 1];
    if j < |attrs| - 1 {
      assert front[..j] == attrs[..j];
      SensorOfAttribute(node, front, j);
    } else {
      assert front == attrs[..j];
    }
  }

  /** Two sensors of the same type on one node with different indices and
      no own name get different names. */
  lemma UnnamedSensorNamesDistinct(s1: HomeeSensor, s2: HomeeSensor)
    requires s1.measurement.attrType == s2.measurement.attrType && s1.deviceClass == s2.deviceClass
    requires s1.measurement.name in ["", "None"] && s2.measurement.name in ["", "None"]
    requires 0 <= s1.index < s2.index
    requires s1.Name().Success?
    ensures s2.Name().Success? && s1.Name().value != s2.Name().value
  {
    var base := s1.BaseName().value;
    assert s2.BaseName() == s1.BaseName();
    var t2 := Text.NatToString(s2.index + 1);
    assert s2.Name().value == base + " " + t2;
    if s1.index == 0 {
      assert |s1.Name().value| < |s2.Name().value|;
    } else {
      var t1 := Text.NatToString(s1.index + 1);
      assert s1.Name().value == base + " " + t1;
      Text.NatToStringDistinct(s1.index + 1, s2.index + 1);
      Text.PrependDistinct(base + " ", t1, t2);
    }
  }

  /** Sensors whose attributes have distinct non-negative ids get distinct
      unique ids, within a node or across nodes. */
  lemma UniqueIdsDistinct(s1: HomeeSensor, s2: HomeeSensor)
    requires 0 <= s1.node.id && 0 <= s2.node.id && 0 <= s1.measurement.id && 0 <= s2.measurement.id
    requires s1.node.id != s2.node.id || s1.measurement.id != s2.measurement.id
    ensures s1.UniqueId() != s2.UniqueId()
  {
    if s1.UniqueId() == s2.UniqueId() {
      Text.EntityUniqueIdInjective("sensor", s1.node.id, s1.measurement.id, s2.node.id, s2.measurement.id);
    }
  }

  /** Every sensor the platform creates has a name: the types that become
      sensors either have a device class or a declared identifier. */
  lemma CreatedSensorsAreNamed(nodes: seq<Node>, s: HomeeSensor)
    requires s in SensorEntities(nodes)
    ensures s.Name().Success?
  {
    SensorEntitiesShape(nodes, s);
  }

  /** Every sensor the platform creates is built by MakeSensor from a valid
      attribute of one of the nodes. */
  lemma {:induction false} SensorEntitiesShape(nodes: seq<Node>, s: HomeeSensor)
    requires s in SensorEntities(nodes)
    ensures s.node in nodes && s.measurement in s.node.attributes && s.measurement.attrType in ValidAttributes
    ensures s == MakeSensor(s.node, s.measurement, s.index)
  {
    var front := nodes[..|nodes| - 1];
    var last := nodes[|nodes| - 1];
    if s in SensorEntities(front) {
      SensorEntitiesShape(front, s);
      assert s.node in nodes;
    } else {
      assert s in SensorsOf(last, last.attributes);
      SensorsOfAreMade(last, last.attributes, s);
    }
  }

  /** Every sensor of SensorsOf is made for one of the given attributes,
      of a valid type, with an index below the count of its type. */
  lemma {:induction false} SensorsOfAreMade(node: Node, attrs: seq<Attribute>, s: HomeeSensor)
    requires s in SensorsOf(node, attrs)
    ensures s == MakeSensor(node, s.measurement, s.index)
    ensures s.measurement in attrs && s.measurement.attrType in ValidAttributes && s.stateClass.Some?
    ensures 0 <= s.index < CountType(attrs, s.measurement.attrType)
  {
    var front := attrs[..|attrs| - 1];
    var a := attrs[|attrs| - 1];
    assert attrs == front + [a];
    CountsStep(front, a);
    if s in SensorsOf(node, front) {
      SensorsOfAreMade(node, front, s);
      assert CountType(front, s.measurement.attrType) <= CountType(attrs, s.measurement.attrType);
    } else {
      assert s == MakeSensor(node, a, CountType(front, a.attrType));
    }
  }
}
