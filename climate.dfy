/** The climate platform: target-temperature features, the unit lookup of
    the TEMPERATURE attribute, the fixed heating mode, and the target
    temperature write. */
module Climate {
  import opened Wrappers
  import opened Homee

  datatype ClimateFeature = TargetTemperatureFeature | TargetTemperatureRangeFeature

  datatype TemperatureUnit = Celsius | Fahrenheit

  datatype HvacMode = Heat

  const ClimateProfiles: seq<NodeProfile> := [RadiatorThermostat, ThermostatWithHeatingAndCooling, HeatingSystem]

  /** HOMEE_UNIT_TO_HA_UNIT. */
  const UnitMap: map<string, TemperatureUnit> := map["°C" := Celsius, "°F" := Fahrenheit]

  /** The features get_climate_features computes: the defaults, the target
      temperature with that attribute, and the range with both bounds. */
  function ClimateFeatures(node: Node, default: set<ClimateFeature>): (f: set<ClimateFeature>)
    ensures default <= f
    ensures TargetTemperatureFeature in f <==>
              TargetTemperatureFeature in default || HasAttribute(node, TargetTemperature)
    ensures TargetTemperatureRangeFeature in f <==>
              TargetTemperatureRangeFeature in default ||
              (HasAttribute(node, TargetTemperatureLow) && HasAttribute(node, TargetTemperatureHigh))
  {
    default +
    (if HasAttribute(node, TargetTemperature) then {TargetTemperatureFeature} else {}) +
    (if HasAttribute(node, TargetTemperatureLow) && HasAttribute(node, TargetTemperatureHigh)
     then {TargetTemperatureRangeFeature} else {})
  }

  /** get_climate_features. */
  method GetClimateFeatures(node: Node, default: set<ClimateFeature>) returns (features: set<ClimateFeature>)
    ensures features == ClimateFeatures(node, default)
  {
    features := default;
    if HasAttribute(node, TargetTemperature) {
      features := features + {TargetTemperatureFeature};
    }
    if HasAttribute(node, TargetTemperatureLow) && HasAttribute(node, TargetTemperatureHigh) {
      features := features + {TargetTemperatureRangeFeature};
    }
  }

  /** is_climate_node: the profile alone decides. */
  predicate IsClimateNode(node: Node) {
    node.profile in ClimateProfiles
  }

  /** A homee climate entity and the features it computed when created. */
  datatype HomeeClimate = HomeeClimate(node: Node, features: set<ClimateFeature>)
  {
    /** temperature_unit: the unit string of the TEMPERATURE attribute,
        translated; reading the unit of a missing attribute and looking up
        an unknown unit both fail. */
    function TemperatureUnitOf(): (r: Result<TemperatureUnit, Fault>)
      ensures r == Failure(NoneHasNoField(Temperature)) <==> !HasAttribute(node, Temperature)
      ensures r == Success(Celsius) <==> HasAttribute(node, Temperature) && GetAttribute(node, Temperature).value.unit == "°C"
      ensures r == Success(Fahrenheit) <==> HasAttribute(node, Temperature) && GetAttribute(node, Temperature).value.unit == "°F"
      ensures r == Failure(KeyError) <==>
                HasAttribute(node, Temperature) && GetAttribute(node, Temperature).value.unit !in ["°C", "°F"]
    {
      match GetAttribute(node, Temperature)
      case None => Failure(NoneHasNoField(Temperature))
      case Some(a) => if a.unit in UnitMap then Success(UnitMap[a.unit]) else Failure(KeyError)
    }

    /** hvac_modes: heating only. */
    function HvacModes(): seq<HvacMode> {
      [Heat]
    }

    /** hvac_mode: always heating. */
    function HvacModeNow(): (m: HvacMode)
      ensures m in HvacModes()
    {
      Heat
    }

    /** current_temperature: the TEMPERATURE value. */
    function CurrentTemperature(): (r: Result<int, Fault>)
      ensures r.Failure? <==> !HasAttribute(node, Temperature)
      ensures r.Success? ==> r.value == GetAttribute(node, Temperature).value.currentValue
    {
      AttributeValue(node, Temperature)
    }

    /** target_temperature: the TARGET_TEMPERATURE value. */
    function TargetTemperatureNow(): (r: Result<int, Fault>)
      ensures r.Failure? <==> !HasAttribute(node, TargetTemperature)
      ensures r.Success? ==> r.value == GetAttribute(node, TargetTemperature).value.currentValue
    {
      AttributeValue(node, TargetTemperature)
    }

    /** async_set_temperature: a write to TARGET_TEMPERATURE only when a
        temperature argument is given. */
    function SetTemperature(temperature: Option<real>): (r: Result<Option<Write>, Fault>)
      ensures temperature.None? ==> r == Success(None)
      ensures temperature.Some? ==>
                (r.Failure? <==> !HasAttribute(node, TargetTemperature)) &&
                (r.Success? ==> r.value.Some? && r.value.value.value == Decimal(temperature.value))
    {
      if temperature.None? then Success(None)
      else match SetValueByType(node, TargetTemperature, Decimal(temperature.value))
        case Failure(e) => Failure(e)
        case Success(w) => Success(Some(w))
    }
  }

  /** The entity HomeeClimate(node, entry) creates: its features are
      get_climate_features of its node, with no defaults. */
  function MakeClimate(node: Node): (c: HomeeClimate)
    ensures c.node == node
    ensures TargetTemperatureFeature in c.features <==> HasAttribute(node, TargetTemperature)
    ensures TargetTemperatureRangeFeature in c.features <==>
              HasAttribute(node, TargetTemperatureLow) && HasAttribute(node, TargetTemperatureHigh)
  {
    HomeeClimate(node, ClimateFeatures(node, {}))
  }

  /** HomeeClimate(node, entry). */
  method NewClimate(node: Node) returns (c: HomeeClimate)
    ensures c == MakeClimate(node)
  {
    var features := GetClimateFeatures(node, {});
    c := HomeeClimate(node, features);
  }

  /** The climate nodes among the given ones, in their order. */
  function ClimateNodes(nodes: seq<Node>): (r: seq<Node>)
    ensures forall n :: n in r <==> n in nodes && IsClimateNode(n)
    ensures |r| <= |nodes|
  {
    if |nodes| == 0 then []
    else
      var front := nodes[..|nodes| - 1];
      var last := nodes[|nodes| - 1];
      assert forall n :: n in nodes <==> n in front || n == last;
      ClimateNodes(front) + if IsClimateNode(last) then [last] else []
  }

  /** async_setup_entry of the climate platform, over the imported nodes:
      one entity per climate node, in node order. */
  method SetupClimates(nodes: seq<Node>) returns (devices: seq<HomeeClimate>)
    ensures |devices| == |ClimateNodes(nodes)|
    ensures forall i :: 0 <= i < |devices| ==> devices[i] == MakeClimate(ClimateNodes(nodes)[i])
  {
    devices := [];
    for i := 0 to |nodes|
      invariant |devices| == |ClimateNodes(nodes[..i])|
      invariant forall k :: 0 <= k < |devices| ==> devices[k] == MakeClimate(ClimateNodes(nodes[..i])[k])
    {
      var node := nodes[i];
      assert nodes[..i + 1][..i] == nodes[..i];
      if !IsClimateNode(node) {
        assert ClimateNodes(nodes[..i + 1]) == ClimateNodes(nodes[..i]);
        continue;
      }
      assert ClimateNodes(nodes[..i + 1]) == ClimateNodes(nodes[..i]) + [node];
      var climate := NewClimate(node);
      devices := devices + [climate];
    }
    assert nodes[..|nodes|] == nodes;
  }

  /** Every climate node gets an entity, and every entity is made for a
      climate node. */
  lemma {:induction false} ClimateEntitiesOfClimateNodes(nodes: seq<Node>, devices: seq<HomeeClimate>)
    requires |devices| == |ClimateNodes(nodes)|
    requires forall i :: 0 <= i < |devices| ==> devices[i] == MakeClimate(ClimateNodes(nodes)[i])
    ensures forall n :: n in nodes && IsClimateNode(n) ==> MakeClimate(n) in devices
    ensures forall c :: c in devices ==> c.node in nodes && IsClimateNode(c.node) && c == MakeClimate(c.node)
  {
    var cn := ClimateNodes(nodes);
    forall n | n in nodes && IsClimateNode(n)
      ensures MakeClimate(n) in devices
    {
      var k :| 0 <= k < |cn| && cn[k] == n;
      assert devices[k] == MakeClimate(n);
    }
    forall c | c in devices
      ensures c.node in nodes && IsClimateNode(c.node) && c == MakeClimate(c.node)
    {
      var k :| 0 <= k < |devices| && devices[k] == c;
      assert cn[k] in cn;
    }
  }

  /** The target temperature is written to the attribute it is read from,
      and a write is possible exactly when a target can be read. */
  lemma SetTemperatureTarget(c: HomeeClimate, t: real)
    ensures c.SetTemperature(Some(t)).Success? <==> c.TargetTemperatureNow().Success?
    ensures c.SetTemperature(Some(t)).Success? ==>
              var a := GetAttribute(c.node, TargetTemperature).value;
              c.SetTemperature(Some(t)).value.value == Write(c.node.id, a.id, Decimal(t)) &&
              c.TargetTemperatureNow() == Success(a.currentValue)
  {
  }
}
