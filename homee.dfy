/** The hub's data model as the integration sees it: nodes with a profile,
    an ordered list of attributes and group memberships; the attribute
    lookups of HomeeNodeHelper; and the value writes that entities issue
    through the integration's set_value service. */
module Homee {
  import opened Wrappers

  /** Node profiles named by the integration's classifiers. Their numeric
      codes belong to the hub client library; every other profile is
      OtherProfile. */
  datatype NodeProfile =
    | DimmableLight | DimmableColorLight | DimmableExtendedColorLight
    | DimmableColorTemperatureLight | DimmableLightWithBrightnessSensor
    | DimmableLightWithBrightnessAndPresenceSensor | DimmableLightWithPresenceSensor
    | DimmableRgbwLight | DimmablePlug | DimmableSwitch | DimmableMeteringSwitch
    | DimmableMeteringPlug
    | ElectricMotorMeteringSwitch | ElectricMotorMeteringSwitchWithoutSlatPosition
    | GarageDoorOperator | ShutterPositionSwitch
    | OpenCloseSensor | OpenCloseAndTemperatureSensor
    | OpenCloseWithTemperatureAndBrightnessSensor | Lock
    | OnOffPlug | MeteringPlug | DoubleOnOffPlug | ImpulsePlug
    | MeteringSwitch | OnOffSwitch | DoubleOnOffSwitch | OnOffSwitchWithBinaryInput
    | DoubleMeteringSwitch
    | RadiatorThermostat | ThermostatWithHeatingAndCooling | HeatingSystem
    | OtherProfile(profileCode: int)

  /** Attribute types named by the integration; every other type is OtherType. */
  datatype AttributeType =
    | OnOff | DimmingLevel | Color | Hue | ColorTemperature | ColorMode
    | UpDown | OpenClose | Position | LockState | Brightness
    | CurrentEnergyUse | AccumulatedEnergyUse
    | Temperature | TargetTemperature | TargetTemperatureLow | TargetTemperatureHigh
    | OtherType(typeCode: int)

  datatype Attribute = Attribute(
    id: int,
    attrType: AttributeType,
    editable: bool,
    currentValue: int,
    name: string,
    unit: string)

  /** A node; groups holds the ids of the groups the node belongs to. */
  datatype Node = Node(
    id: int,
    name: string,
    profile: NodeProfile,
    attributes: seq<Attribute>,
    groups: seq<int>)

  datatype Group = Group(id: int, nodes: seq<Node>)

  /** The options of a config entry that the platforms read. groups is None
      when the option was never set; the window and door group lists read as
      empty when unset. Group ids are stored as decimal strings. */
  datatype EntryOptions = EntryOptions(
    groups: Option<seq<string>>,
    windowGroups: seq<string>,
    doorGroups: seq<string>)

  /** Errors raised by the modelled code. */
  datatype Fault =
    | AttributeNotFound(missingType: AttributeType)  // HomeeNodeHelper.attribute
    | NoneHasNoField(absentType: AttributeType)      // a field read on a lookup that gave None
    | IndexError
    | KeyError
    | ValueError
    | TypeError
    | UnboundLocal
    | NoneGroup   // reading the nodes of a group id the hub does not know

  /** A value sent to the hub. Num is an exact number; the others stand for
      host-side floating-point conversions that are not modelled. */
  datatype Value =
    | Num(n: int)
    | Decimal(x: real)
    | BrightnessScaled(uiBrightness: int)      // brightness / 2.55
    | KelvinOfMired(mired: int)                // mired -> Kelvin
    | PackedRgbOfHs(hue: real, saturation: real)  // hs -> RGB -> 24-bit integer

  /** One call of the set_value service: node id, attribute id, value. */
  datatype Write = Write(nodeId: int, attributeId: int, value: Value)

  /** has_attribute: some attribute of the node has type t. */
  predicate HasAttribute(node: Node, t: AttributeType) {
    exists a :: a in node.attributes && a.attrType == t
  }

  /** Some editable attribute of the node has type t. */
  predicate HasEditableAttribute(node: Node, t: AttributeType) {
    exists a :: a in node.attributes && a.attrType == t && a.editable
  }

  /** The attribute a type lookup finds: the node keeps a map from type to
      attribute filled in list order, so the last attribute of a type wins. */
  function FindByType(attrs: seq<Attribute>, t: AttributeType): (r: Option<Attribute>)
    ensures r.Some? <==> exists a :: a in attrs && a.attrType == t
    ensures r.Some? ==> r.value in attrs && r.value.attrType == t
  {
    if |attrs| == 0 then None
    else if attrs[|attrs| - 1].attrType == t then Some(attrs[|attrs| - 1])
    else
      var r := FindByType(attrs[..|attrs| - 1], t);
      assert forall a :: a in attrs ==> a in attrs[..|attrs| - 1] || a == attrs[|attrs| - 1];
      r
  }

  /** The attribute found is the last of its type: no later attribute has
      type t. */
  lemma {:induction false} FindByTypeIsLast(attrs: seq<Attribute>, t: AttributeType)
    requires FindByType(attrs, t).Some?
    ensures exists i :: 0 <= i < |attrs| && attrs[i] == FindByType(attrs, t).value &&
              forall j :: i < j < |attrs| ==> attrs[j].attrType != t
  {
    var n := |attrs|;
    if attrs[n - 1].attrType != t {
      var front := attrs[..n - 1];
      FindByTypeIsLast(front, t);
      var i :| 0 <= i < |front| && front[i] == FindByType(front, t).value &&
               forall j :: i < j < |front| ==> front[j].attrType != t;
      assert FindByType(attrs, t) == FindByType(front, t);
      assert attrs[i] == front[i];
      forall j | i < j < n
        ensures attrs[j].attrType != t
      {
        if j < n - 1 {
          assert attrs[j] == front[j];
        }
      }
      assert 0 <= i < n && attrs[i] == FindByType(attrs, t).value;
    } else {
      assert FindByType(attrs, t) == Some(attrs[n - 1]);
    }
  }

  /** get_attribute: the attribute of that type, or None. */
  function GetAttribute(node: Node, t: AttributeType): Option<Attribute> {
    FindByType(node.attributes, t)
  }

  /** attribute: the current value of the attribute of that type. */
  function AttributeValue(node: Node, t: AttributeType): (r: Result<int, Fault>)
    ensures r.Failure? <==> !HasAttribute(node, t)
    ensures r.Failure? ==> r.error == AttributeNotFound(t)
    ensures r.Success? ==> exists a :: a in node.attributes && a.attrType == t && a.currentValue == r.value
  {
    match GetAttribute(node, t)
    case None => Failure(AttributeNotFound(t))
    case Some(a) => Success(a.currentValue)
  }

  /** async_set_value(t, v): a write to the attribute the type lookup finds;
      reading the id of a missing attribute fails. */
  function SetValueByType(node: Node, t: AttributeType, v: Value): (r: Result<Write, Fault>)
    ensures r.Failure? <==> !HasAttribute(node, t)
    ensures r.Success? ==> r.value.nodeId == node.id && r.value.value == v &&
                           exists a :: a in node.attributes && a.attrType == t && a.id == r.value.attributeId
  {
    match GetAttribute(node, t)
    case None => Failure(NoneHasNoField(t))
    case Some(a) => Success(Write(node.id, a.id, v))
  }

  /** One attribute after the hub applied value v to attribute id. */
  function Written(a: Attribute, id: int, v: int): Attribute {
    if a.id == id then a.(currentValue := v) else a
  }

  /** Every attribute with the given id takes value v; the rest keep theirs. */
  function WriteValue(attrs: seq<Attribute>, id: int, v: int): (r: seq<Attribute>)
    ensures |r| == |attrs|
    ensures forall i :: 0 <= i < |attrs| ==> r[i] == Written(attrs[i], id, v) && r[i].attrType == attrs[i].attrType
  {
    if |attrs| == 0 then [] else WriteValue(attrs[..|attrs| - 1], id, v) + [Written(attrs[|attrs| - 1], id, v)]
  }

  /** The hub accepting an exact write and reporting the new value back. */
  function ApplyWrite(node: Node, w: Write): (r: Node)
    requires w.value.Num?
    ensures r.id == node.id && r.profile == node.profile && r.groups == node.groups && r.name == node.name
    ensures r.attributes == if w.nodeId == node.id then WriteValue(node.attributes, w.attributeId, w.value.n)
                            else node.attributes
  {
    if w.nodeId == node.id then node.(attributes := WriteValue(node.attributes, w.attributeId, w.value.n))
    else node
  }

  /** After an exact write to the attribute a type lookup finds, the lookup
      finds the same attribute carrying the written value. */
  lemma {:induction false} FindByTypeAfterWrite(attrs: seq<Attribute>, t: AttributeType, id: int, v: int)
    requires FindByType(attrs, t).Some? && FindByType(attrs, t).value.id == id
    ensures FindByType(WriteValue(attrs, id, v), t) == Some(FindByType(attrs, t).value.(currentValue := v))
  {
    var n := |attrs|;
    var front := attrs[..n - 1];
    var written := WriteValue(attrs, id, v);
    assert written == WriteValue(front, id, v) + [Written(attrs[n - 1], id, v)];
    assert written[..n - 1] == WriteValue(front, id, v);
    if attrs[n - 1].attrType != t {
      FindByTypeAfterWrite(front, t, id, v);
    }
  }

  /** Writing v to the attribute a type lookup finds, and reading that type
      back once the hub applied the write, gives v. */
  lemma ReadBackAfterWrite(node: Node, t: AttributeType, v: int)
    requires HasAttribute(node, t)
    ensures GetAttribute(node, t).Some?
    ensures AttributeValue(ApplyWrite(node, Write(node.id, GetAttribute(node, t).value.id, Num(v))), t) == Success(v)
  {
    var a := GetAttribute(node, t).value;
    FindByTypeAfterWrite(node.attributes, t, a.id, v);
    var node' := ApplyWrite(node, Write(node.id, a.id, Num(v)));
    assert node'.attributes == WriteValue(node.attributes, a.id, v);
    assert GetAttribute(node', t) == Some(a.(currentValue := v));
  }

  /** The number of attributes of type t. */
  function CountType(attrs: seq<Attribute>, t: AttributeType): (c: nat)
    ensures c <= |attrs|
  {
    if |attrs| == 0 then 0
    else CountType(attrs[..|attrs| - 1], t) + (if attrs[|attrs| - 1].attrType == t then 1 else 0)
  }

  /** No attribute of type t exactly when the count of t is zero. */
  lemma {:induction false} CountTypeZero(attrs: seq<Attribute>, t: AttributeType)
    ensures CountType(attrs, t) == 0 <==> forall a :: a in attrs ==> a.attrType != t
  {
    if |attrs| > 0 {
      var front := attrs[..|attrs| - 1];
      CountTypeZero(front, t);
      assert forall a :: a in attrs <==> a in front || a == attrs[|attrs| - 1];
    }
  }
}
