/** The light platform: which nodes are lights, how many light entities a
    node gives and which attributes each binds, the RGB packing of the
    COLOR attribute, and the writes a light sends when turned on or off. */
module Light {
  import opened Wrappers
  import opened Homee
  import Text

  /** Attribute types a light absorbs after its ON_OFF attribute. */
  const LightAttributes: seq<AttributeType> :=
    [DimmingLevel, Color, Hue, ColorTemperature, ColorMode]

  /** Profiles a light node may have. */
  const LightProfiles: seq<NodeProfile> := [
    DimmableLight, DimmableColorLight, DimmableExtendedColorLight,
    DimmableColorTemperatureLight, DimmableLightWithBrightnessSensor,
    DimmableLightWithBrightnessAndPresenceSensor, DimmableLightWithPresenceSensor,
    DimmableRgbwLight, DimmablePlug, DimmableSwitch, DimmableMeteringSwitch,
    DimmableMeteringPlug]

  /** The host colour modes a light can support. */
  datatype ColorModeFlag = BrightnessMode | HsMode | ColorTempMode

  /** The lower and upper colour temperature bounds a light reports, in mired. */
  const MinMireds: int := 153
  const MaxMireds: int := 556

  // ---------------------------------------------------------------------
  // Features

  /** get_light_features: the default flags plus one flag per kind of
      light attribute the node has. */
  method GetLightFeatures(node: Node, default: set<ColorModeFlag>) returns (features: set<ColorModeFlag>)
    ensures default <= features
    ensures BrightnessMode in features <==> BrightnessMode in default || HasAttribute(node, DimmingLevel)
    ensures HsMode in features <==> HsMode in default || HasAttribute(node, Color) || HasAttribute(node, Hue)
    ensures ColorTempMode in features <==> ColorTempMode in default || HasAttribute(node, ColorTemperature)
  {
    features := default;
    if HasAttribute(node, DimmingLevel) {
      features := features + {BrightnessMode};
    }
    if HasAttribute(node, Color) || HasAttribute(node, Hue) {
      features := features + {HsMode};
    }
    if HasAttribute(node, ColorTemperature) {
      features := features + {ColorTempMode};
    }
  }

  // ---------------------------------------------------------------------
  // RGB packing

  /** rgb_list_to_decimal: red in the high byte, blue in the low byte. */
  function RgbListToDecimal(color: seq<int>): (r: int)
    requires |color| >= 3
    ensures (forall k :: 0 <= k < 3 ==> 0 <= color[k] < 0x100) ==> 0 <= r < 0x100_0000
  {
    color[0] * 0x10000 + color[1] * 0x100 + color[2]
  }

  /** decimal_to_rgb_list. Masking with a contiguous run of bits and shifting
      right is, for every Python integer, a floor division followed by a
      remainder; Dafny's / and % agree with Python's for positive divisors. */
  function DecimalToRgbList(color: int): (rgb: seq<int>)
    ensures |rgb| == 3
    ensures forall k :: 0 <= k < 3 ==> 0 <= rgb[k] <= 255
  {
    [(color / 0x10000) % 0x100, (color / 0x100) % 0x100, color % 0x100]
  }

  lemma RgbRoundTrip(r: int, g: int, b: int)
    requires 0 <= r <= 255 && 0 <= g <= 255 && 0 <= b <= 255
    ensures DecimalToRgbList(RgbListToDecimal([r, g, b])) == [r, g, b]
  {
    var c := RgbListToDecimal([r, g, b]);
    assert c == (r * 0x100 + g) * 0x100 + b;
    assert c % 0x100 == b && c / 0x100 == r * 0x100 + g;
    ShiftTwice(c);
  }

  /** Packing the unpacked channels gives the value's low 24 bits, which is
      the value itself for every 24-bit colour. */
  lemma DecimalRoundTrip(c: int)
    ensures RgbListToDecimal(DecimalToRgbList(c)) == c % 0x1000000
    ensures 0 <= c <= 0xFFFFFF ==> RgbListToDecimal(DecimalToRgbList(c)) == c
  {
    var q := c / 0x100;
    ShiftTwice(c);
    var q2 := q / 0x100;
    assert c == q * 0x100 + c % 0x100;
    assert q == q2 * 0x100 + q % 0x100;
    var low := (q2 % 0x100) * 0x10000 + (q % 0x100) * 0x100 + c % 0x100;
    assert c == (q2 / 0x100) * 0x1000000 + low;
    assert 0 <= low < 0x1000000;
  }

  /** Shifting right by 16 bits is shifting right by 8 bits twice. */
  lemma ShiftTwice(a: int)
    ensures a / 0x10000 == (a / 0x100) / 0x100
  {
    var q := a / 0x100;
    var q2 := q / 0x100;
    assert a == q * 0x100 + a % 0x100;
    assert q == q2 * 0x100 + q % 0x100;
    assert a == q2 * 0x10000 + ((q % 0x100) * 0x100 + a % 0x100);
  }

  // ---------------------------------------------------------------------
  // Attribute sets

  /** The editable ON_OFF attributes of a list, in list order. */
  function EditableOnOffs(attrs: seq<Attribute>): seq<Attribute> {
    if |attrs| == 0 then []
    else
      var front := EditableOnOffs(attrs[..|attrs| - 1]);
      var a := attrs[|attrs| - 1];
      if a.attrType == OnOff && a.editable then front + [a] else front
  }

  /** The editable ON_OFF attributes are exactly the attributes of type
      ON_OFF that are editable. */
  lemma {:induction false} EditableOnOffsMembers(attrs: seq<Attribute>)
    ensures forall a :: a in EditableOnOffs(attrs) <==> a in attrs && a.attrType == OnOff && a.editable
  {
    if |attrs| > 0 {
      var front := attrs[..|attrs| - 1];
      EditableOnOffsMembers(front);
      assert forall x :: x in attrs <==> x in front || x == attrs[|attrs| - 1];
    }
  }

  /** The attribute a lookup by id finds: the first one in list order. */
  function AttributeWithId(attrs: seq<Attribute>, id: int): (r: Option<Attribute>)
    ensures r.Some? ==> r.value in attrs && r.value.id == id
  {
    if |attrs| == 0 then None
    else if attrs[0].id == id then Some(attrs[0])
    else
      var r := AttributeWithId(attrs[1..], id);
      assert r.Some? ==> r.value in attrs;
      r
  }

  /** The lookup by id finds something exactly when some attribute has the id. */
  lemma {:induction false} AttributeWithIdFound(attrs: seq<Attribute>, id: int)
    ensures AttributeWithId(attrs, id).Some? <==> exists a :: a in attrs && a.id == id
  {
    if |attrs| > 0 && attrs[0].id != id {
      AttributeWithIdFound(attrs[1..], id);
      assert forall a :: a in attrs ==> a == attrs[0] || a in attrs[1..];
    }
  }

  /** The number of attributes whose id is at least lo. */
  function CountIdsFrom(attrs: seq<Attribute>, lo: int): (c: nat)
    ensures c <= |attrs|
  {
    if |attrs| == 0 then 0 else CountIdsFrom(attrs[1..], lo) + (if attrs[0].id >= lo then 1 else 0)
  }

  /** Raising the bound never adds attributes, and removes the one found at lo. */
  lemma {:induction false} CountIdsFromStep(attrs: seq<Attribute>, lo: int)
    ensures CountIdsFrom(attrs, lo + 1) <= CountIdsFrom(attrs, lo)
    ensures AttributeWithId(attrs, lo).Some? ==> CountIdsFrom(attrs, lo + 1) < CountIdsFrom(attrs, lo)
  {
    if |attrs| > 0 {
      CountIdsFromStep(attrs[1..], lo);
    }
  }

  /** An attribute is not above its own id. */
  lemma {:induction false} CountIdsAbove(attrs: seq<Attribute>, a: Attribute)
    requires a in attrs
    ensures CountIdsFrom(attrs, a.id + 1) < |attrs|
  {
    if attrs[0] != a {
      CountIdsAbove(attrs[1..], a);
    }
  }

  /** The attribute found k ids above baseId. */
  function RunAt(attrs: seq<Attribute>, baseId: int, k: int): Option<Attribute> {
    AttributeWithId(attrs, baseId + k)
  }

  /** Whether the lookup k ids above baseId continues a light's run. */
  predicate ContinuesRun(attrs: seq<Attribute>, baseId: int, k: int) {
    RunAt(attrs, baseId, k).Some? && RunAt(attrs, baseId, k).value.attrType in LightAttributes
  }

  /** Whether the lookup k ids above baseId finds an attribute of type t. */
  predicate RunHasType(attrs: seq<Attribute>, baseId: int, k: int, t: AttributeType) {
    RunAt(attrs, baseId, k).Some? && RunAt(attrs, baseId, k).value.attrType == t
  }

  /** The number of consecutive ids, from offset on, that continue the run. */
  function RunLength(attrs: seq<Attribute>, baseId: int, offset: nat): nat
    decreases CountIdsFrom(attrs, baseId + offset)
  {
    if ContinuesRun(attrs, baseId, offset) then
      CountIdsFromStep(attrs, baseId + offset);
      1 + RunLength(attrs, baseId, offset + 1)
    else 0
  }

  /** The scan of get_light_attribute_sets from lookup offset `offset` on:
      each attribute that continues the run is stored under its type.
      Entries already there stay, and those of non-light types keep their
      attribute. */
  function ExtendLightSet(attrs: seq<Attribute>, baseId: int, offset: nat, light: map<AttributeType, Attribute>): map<AttributeType, Attribute>
    decreases CountIdsFrom(attrs, baseId + offset)
  {
    if ContinuesRun(attrs, baseId, offset) then
      CountIdsFromStep(attrs, baseId + offset);
      var a := RunAt(attrs, baseId, offset).value;
      ExtendLightSet(attrs, baseId, offset + 1, light[a.attrType := a])
    else light
  }

  /** Entries already in the set stay, and those of non-light types keep
      their attribute. */
  lemma {:induction false} ExtendLightSetKeeps(attrs: seq<Attribute>, baseId: int, offset: nat, light: map<AttributeType, Attribute>)
    ensures light.Keys <= ExtendLightSet(attrs, baseId, offset, light).Keys
    ensures forall t :: t in light && t !in LightAttributes ==> ExtendLightSet(attrs, baseId, offset, light)[t] == light[t]
    decreases CountIdsFrom(attrs, baseId + offset)
  {
    if ContinuesRun(attrs, baseId, offset) {
      CountIdsFromStep(attrs, baseId + offset);
      var a := RunAt(attrs, baseId, offset).value;
      ExtendLightSetKeeps(attrs, baseId, offset + 1, light[a.attrType := a]);
    }
  }

  /** One step of the scan: a lookup that continues the run stores its
      attribute and moves on, one that does not ends the scan. */
  lemma ExtendLightSetStep(attrs: seq<Attribute>, baseId: int, offset: nat, light: map<AttributeType, Attribute>)
    ensures !ContinuesRun(attrs, baseId, offset) ==> ExtendLightSet(attrs, baseId, offset, light) == light
    ensures ContinuesRun(attrs, baseId, offset) ==>
              var a := RunAt(attrs, baseId, offset).value;
              && ExtendLightSet(attrs, baseId, offset, light) == ExtendLightSet(attrs, baseId, offset + 1, light[a.attrType := a])
              && CountIdsFrom(attrs, baseId + (offset + 1)) < CountIdsFrom(attrs, baseId + offset)
  {
    CountIdsFromStep(attrs, baseId + offset);
  }

  /** The attribute set of the light built around the ON_OFF attribute target. */
  function LightSetFor(node: Node, target: Attribute): (s: map<AttributeType, Attribute>)
    ensures OnOff in s && s[OnOff] == target
  {
    ExtendLightSetKeeps(node.attributes, target.id, 1, map[OnOff := target]);
    ExtendLightSet(node.attributes, target.id, 1, map[OnOff := target])
  }

  /** get_light_attribute_sets: None when there is no index-th editable
      ON_OFF attribute, otherwise the set scanned from it. */
  method GetLightAttributeSets(node: Node, index: nat) returns (r: Option<map<AttributeType, Attribute>>)
    ensures r.None? <==> index >= |EditableOnOffs(node.attributes)|
    ensures r.Some? ==> r.value == LightSetFor(node, EditableOnOffs(node.attributes)[index])
  {
    var onOffAttributes := EditableOnOffs(node.attributes);
    if index >= |onOffAttributes| {
      return None;
    }
    var targetLight := onOffAttributes[index];
    var light := map[OnOff := targetLight];
    var lookupOffset: nat := 1;
    var nextIdValid := true;
    while nextIdValid
      invariant ExtendLightSet(node.attributes, targetLight.id, lookupOffset, light) == LightSetFor(node, targetLight)
      decreases CountIdsFrom(node.attributes, targetLight.id + lookupOffset)
    {
      var attributeWithNextId := AttributeWithId(node.attributes, targetLight.id + lookupOffset);
      ExtendLightSetStep(node.attributes, targetLight.id, lookupOffset, light);
      if attributeWithNextId.None? {
        nextIdValid := false;
        break;
      }
      if attributeWithNextId.value.attrType !in LightAttributes {
        nextIdValid := false;
        break;
      } else {
        assert ContinuesRun(node.attributes, targetLight.id, lookupOffset);
        light := light[attributeWithNextId.value.attrType := attributeWithNextId.value];
        lookupOffset := lookupOffset + 1;
      }
    }
    return Some(light);
  }

  /** Every lookup in the run continues it and the one after it does not. */
  lemma {:induction false} RunShape(attrs: seq<Attribute>, baseId: int, offset: nat)
    ensures forall k :: offset <= k < offset + RunLength(attrs, baseId, offset) ==> ContinuesRun(attrs, baseId, k)
    ensures !ContinuesRun(attrs, baseId, offset + RunLength(attrs, baseId, offset))
    decreases CountIdsFrom(attrs, baseId + offset)
  {
    if ContinuesRun(attrs, baseId, offset) {
      CountIdsFromStep(attrs, baseId + offset);
      RunShape(attrs, baseId, offset + 1);
    }
  }

  /** The scan stores each run attribute under its type, a later one of the
      same type replacing an earlier one, on top of what was there before. */
  lemma {:induction false} ExtendLightSetEntries(attrs: seq<Attribute>, baseId: int, offset: nat, light: map<AttributeType, Attribute>)
    ensures var s := ExtendLightSet(attrs, baseId, offset, light); var n := RunLength(attrs, baseId, offset);
            forall t :: t in s ==>
              (t in light && s[t] == light[t] &&
                 forall k :: offset <= k < offset + n ==> !RunHasType(attrs, baseId, k, t)) ||
              (exists k :: offset <= k < offset + n && RunAt(attrs, baseId, k) == Some(s[t]) && s[t].attrType == t &&
                 forall k' :: k < k' < offset + n ==> !RunHasType(attrs, baseId, k', t))
    ensures var s := ExtendLightSet(attrs, baseId, offset, light); var n := RunLength(attrs, baseId, offset);
            forall k :: offset <= k < offset + n ==> RunAt(attrs, baseId, k).Some? && RunAt(attrs, baseId, k).value.attrType in s
    decreases CountIdsFrom(attrs, baseId + offset)
  {
    var s := ExtendLightSet(attrs, baseId, offset, light);
    var n := RunLength(attrs, baseId, offset);
    if ContinuesRun(attrs, baseId, offset) {
      CountIdsFromStep(attrs, baseId + offset);
      var a := RunAt(attrs, baseId, offset).value;
      var light' := light[a.attrType := a];
      ExtendLightSetEntries(attrs, baseId, offset + 1, light');
      ExtendLightSetKeeps(attrs, baseId, offset + 1, light');
      assert s == ExtendLightSet(attrs, baseId, offset + 1, light');
      assert n == 1 + RunLength(attrs, baseId, offset + 1);
      forall t | t in s
        ensures (t in light && s[t] == light[t] &&
                   forall k :: offset <= k < offset + n ==> !RunHasType(attrs, baseId, k, t)) ||
                (exists k :: offset <= k < offset + n && RunAt(attrs, baseId, k) == Some(s[t]) && s[t].attrType == t &&
                   forall k' :: k < k' < offset + n ==> !RunHasType(attrs, baseId, k', t))
      {
        if t in light' && s[t] == light'[t] &&
           forall k :: offset + 1 <= k < offset + n ==> !RunHasType(attrs, baseId, k, t) {
          if t == a.attrType {
            assert RunAt(attrs, baseId, offset) == Some(s[t]);
          } else {
            assert !RunHasType(attrs, baseId, offset, t);
          }
        }
      }
    }
  }

  /** The scan of a light's run stops after at most as many lookups as the
      node has attributes. */
  lemma LightRunBounded(node: Node, target: Attribute)
    requires target in node.attributes
    ensures RunLength(node.attributes, target.id, 1) + 1 <= |node.attributes|
  {
    RunLengthBound(node.attributes, target.id, 1);
    CountIdsAbove(node.attributes, target);
  }

  /** The attribute set of a light: besides ON_OFF, every entry is a light
      attribute found k ids above the target, for a k in the run, and the
      last of its type in the run. */
  lemma LightSetEntries(node: Node, target: Attribute)
    ensures var s := LightSetFor(node, target); var n := RunLength(node.attributes, target.id, 1);
            forall t :: t in s && t != OnOff ==>
              t in LightAttributes && s[t].attrType == t &&
              exists k :: 1 <= k <= n && RunAt(node.attributes, target.id, k) == Some(s[t]) &&
                forall k' :: k < k' <= n ==> !RunHasType(node.attributes, target.id, k', t)
  {
    var attrs := node.attributes;
    var s := LightSetFor(node, target);
    var n := RunLength(attrs, target.id, 1);
    RunShape(attrs, target.id, 1);
    ExtendLightSetEntries(attrs, target.id, 1, map[OnOff := target]);
    forall t | t in s && t != OnOff
      ensures t in LightAttributes && s[t].attrType == t
    {
      var k :| 1 <= k < 1 + n && RunAt(attrs, target.id, k) == Some(s[t]) && s[t].attrType == t;
      assert ContinuesRun(attrs, target.id, k);
    }
  }

  /** Every lookup of a light's run continues it, binds its type, and the
      lookup after the run does not continue it. */
  lemma LightSetRun(node: Node, target: Attribute)
    ensures var s := LightSetFor(node, target); var n := RunLength(node.attributes, target.id, 1);
            && (forall k :: 1 <= k <= n ==>
                  ContinuesRun(node.attributes, target.id, k) && RunAt(node.attributes, target.id, k).value.attrType in s)
            && !ContinuesRun(node.attributes, target.id, n + 1)
  {
    RunShape(node.attributes, target.id, 1);
    ExtendLightSetEntries(node.attributes, target.id, 1, map[OnOff := target]);
  }

  /** The run cannot be longer than there are attributes above its base. */
  lemma {:induction false} RunLengthBound(attrs: seq<Attribute>, baseId: int, offset: nat)
    ensures RunLength(attrs, baseId, offset) <= CountIdsFrom(attrs, baseId + offset)
    decreases CountIdsFrom(attrs, baseId + offset)
  {
    if ContinuesRun(attrs, baseId, offset) {
      CountIdsFromStep(attrs, baseId + offset);
      RunLengthBound(attrs, baseId, offset + 1);
    }
  }

  // ---------------------------------------------------------------------
  // Entities

  /** A homee light entity: the node, the attributes of its set, its index. */
  datatype HomeeLight = HomeeLight(
    node: Node,
    onOff: Attribute,
    dimmer: Option<Attribute>,
    hue: Option<Attribute>,
    color: Option<Attribute>,
    temperature: Option<Attribute>,
    mode: Option<Attribute>,
    index: nat)
  {
    /** name: None for the first light of a node, "light {index+1}" after. */
    function Name(): (r: Option<string>)
      ensures r.None? <==> index == 0
      ensures r.Some? ==> r.value == "light " + Text.IntToString(index + 1)
    {
      if index == 0 then None else Some("light " + Text.IntToString(index + 1))
    }

    /** unique_id: "{node.id}-light-{on_off.id}". */
    function UniqueId(): string {
      Text.EntityUniqueId(node.id, "light", onOff.id)
    }

    /** hs_color, up to the RGB-to-HS conversion: no colour while the mode
        attribute reads 2 (colour temperature mode), otherwise the RGB
        channels of the COLOR attribute. */
    function HsColor(): (r: Result<Option<seq<int>>, Fault>)
      ensures r == Success(None) <==> mode.Some? && mode.value.currentValue == 2
      ensures r.Failure? <==> !(mode.Some? && mode.value.currentValue == 2) && color.None?
      ensures r.Success? && r.value.Some? ==>
                color.Some? && r.value.value == DecimalToRgbList(color.value.currentValue)
    {
      if mode.Some? && mode.value.currentValue == 2 then Success(None)
      else if color.None? then Failure(NoneHasNoField(Color))
      else Success(Some(DecimalToRgbList(color.value.currentValue)))
    }

    /** async_turn_on: the writes issued in order, and the error raised
        after them, if any. */
    function TurnOn(args: TurnOnArgs): (d: Dispatch)
      ensures |d.writes| >= 1 && d.writes[0] == Write(node.id, onOff.id, Num(1))
      ensures args.hsColor.Some? && hue.None? && color.Some? ==>
                d.fault.None? && d.writes[|d.writes| - 1] ==
                  Write(node.id, color.value.id, PackedRgbOfHs(args.hsColor.value.0, args.hsColor.value.1))
      ensures args.hsColor.Some? && hue.Some? && color.None? ==>
                d.fault.None? && d.writes[|d.writes| - 1] ==
                  Write(node.id, hue.value.id, PackedRgbOfHs(args.hsColor.value.0, args.hsColor.value.1))
      ensures (args.hsColor.None? || (hue.Some? && color.Some?)) ==>
                d.fault.None? && forall w :: w in d.writes ==> !w.value.PackedRgbOfHs?
      ensures d.fault.Some? <==> args.hsColor.Some? && hue.None? && color.None?
      ensures (exists w :: w in d.writes && w.value.BrightnessScaled?) <==> args.brightness.Some? && dimmer.Some?
      ensures (exists w :: w in d.writes && w.value.KelvinOfMired?) <==> args.colorTemp.Some? && temperature.Some?
      ensures args.brightness.Some? && dimmer.Some? ==>
                d.writes[1] == Write(node.id, dimmer.value.id, BrightnessScaled(args.brightness.value))
      ensures args.colorTemp.Some? && temperature.Some? ==>
                var k := if args.brightness.Some? && dimmer.Some? then 2 else 1;
                k < |d.writes| && d.writes[k] == Write(node.id, temperature.value.id, KelvinOfMired(args.colorTemp.value))
      ensures |d.writes| == 1 + (if args.brightness.Some? && dimmer.Some? then 1 else 0)
                              + (if args.colorTemp.Some? && temperature.Some? then 1 else 0)
                              + (if args.hsColor.Some? && (hue.None? != color.None?) then 1 else 0)
    {
      var onWrite := [Write(node.id, onOff.id, Num(1))];
      var withBrightness := onWrite +
        if args.brightness.Some? && dimmer.Some?
        then [Write(node.id, dimmer.value.id, BrightnessScaled(args.brightness.value))] else [];
      var withTemperature := withBrightness +
        if args.colorTemp.Some? && temperature.Some?
        then [Write(node.id, temperature.value.id, KelvinOfMired(args.colorTemp.value))] else [];
      if args.hsColor.None? then Dispatch(withTemperature, None)
      else
        var packed := PackedRgbOfHs(args.hsColor.value.0, args.hsColor.value.1);
        if hue.None? then
          if color.None? then Dispatch(withTemperature, Some(NoneHasNoField(Color)))
          else Dispatch(withTemperature + [Write(node.id, color.value.id, packed)], None)
        else if color.None? then Dispatch(withTemperature + [Write(node.id, hue.value.id, packed)], None)
        else Dispatch(withTemperature, None)
    }

    /** async_turn_off: write 0 to the ON_OFF attribute. */
    function TurnOff(): (w: Write)
      ensures w.nodeId == node.id && w.attributeId == onOff.id && w.value == Num(0)
    {
      Write(node.id, onOff.id, Num(0))
    }
  }

  /** The keyword arguments of async_turn_on that the light reads. */
  datatype TurnOnArgs = TurnOnArgs(brightness: Option<int>, colorTemp: Option<int>, hsColor: Option<(real, real)>)

  /** The writes of a command, in order, and the error that ended it, if any. */
  datatype Dispatch = Dispatch(writes: seq<Write>, fault: Option<Fault>)

  function Bound(s: map<AttributeType, Attribute>, t: AttributeType): Option<Attribute> {
    if t in s then Some(s[t]) else None
  }

  /** HomeeLight(node, light_set, light_index). */
  function MakeLight(node: Node, s: map<AttributeType, Attribute>, index: nat): HomeeLight
    requires OnOff in s
  {
    HomeeLight(node, s[OnOff], Bound(s, DimmingLevel), Bound(s, Hue), Bound(s, Color),
               Bound(s, ColorTemperature), Bound(s, ColorMode), index)
  }

  /** is_light_node. */
  predicate IsLightNode(node: Node) {
    node.profile in LightProfiles && HasAttribute(node, OnOff)
  }

  /** The lights of a node from index `from` on, one per editable ON_OFF attribute. */
  function NodeLights(node: Node, from: nat): (r: seq<HomeeLight>)
    ensures |r| == if from >= |EditableOnOffs(node.attributes)| then 0 else |EditableOnOffs(node.attributes)| - from
    decreases |EditableOnOffs(node.attributes)| - from
  {
    var onOffs := EditableOnOffs(node.attributes);
    if from >= |onOffs| then []
    else [MakeLight(node, LightSetFor(node, onOffs[from]), from)] + NodeLights(node, from + 1)
  }

  /** The lights the platform creates for a list of nodes, in order. */
  function LightEntities(nodes: seq<Node>): seq<HomeeLight> {
    if |nodes| == 0 then []
    else
      var last := nodes[|nodes| - 1];
      LightEntities(nodes[..|nodes| - 1]) + if IsLightNode(last) then NodeLights(last, 0) else []
  }

  /** async_setup_entry of the light platform, over the imported nodes. */
  method SetupLights(nodes: seq<Node>) returns (devices: seq<HomeeLight>)
    ensures devices == LightEntities(nodes)
  {
    devices := [];
    for n := 0 to |nodes|
      invariant devices == LightEntities(nodes[..n])
    {
      var node := nodes[n];
      assert nodes[..n + 1][..n] == nodes[..n];
      if !IsLightNode(node) {
        assert LightEntities(nodes[..n + 1]) == LightEntities(nodes[..n]);
        continue;
      }
      ghost var before := devices;
      var index: nat := 0;
      var attributesExhausted := false;
      while !attributesExhausted
        invariant attributesExhausted ==> index >= |EditableOnOffs(node.attributes)|
        invariant devices + NodeLights(node, index) == before + NodeLights(node, 0)
        decreases |EditableOnOffs(node.attributes)| - index, !attributesExhausted
      {
        var lightSet := GetLightAttributeSets(node, index);
        if lightSet.Some? {
          devices := devices + [MakeLight(node, lightSet.value, index)];
          index := index + 1;
        } else {
          attributesExhausted := true;
        }
      }
      assert LightEntities(nodes[..n + 1]) == LightEntities(nodes[..n]) + NodeLights(node, 0);
    }
    assert nodes[..|nodes|] == nodes;
  }

  /** There is one light per editable ON_OFF attribute, and the i-th is built
      from the i-th of them. */
  lemma {:induction false} NodeLightsAt(node: Node, from: nat, i: nat)
    requires from <= i < |EditableOnOffs(node.attributes)|
    ensures |NodeLights(node, from)| == |EditableOnOffs(node.attributes)| - from
    ensures NodeLights(node, from)[i - from] ==
              MakeLight(node, LightSetFor(node, EditableOnOffs(node.attributes)[i]), i)
    decreases |EditableOnOffs(node.attributes)| - from
  {
    if from + 1 < |EditableOnOffs(node.attributes)| {
      NodeLightsAt(node, from + 1, if i == from then from + 1 else i);
    }
  }

  /** For a node: indices 0..k-1, one per editable ON_OFF attribute in list
      order, the name rule, and the unique id from the ON_OFF id. */
  lemma LightsOfNode(node: Node, i: nat)
    requires i < |EditableOnOffs(node.attributes)|
    ensures var lights := NodeLights(node, 0); var onOff := EditableOnOffs(node.attributes)[i];
            && |lights| == |EditableOnOffs(node.attributes)|
            && lights[i].node == node && lights[i].index == i && lights[i].onOff == onOff
            && lights[i].Name() == (if i == 0 then None else Some("light " + Text.IntToString(i + 1)))
            && lights[i].UniqueId() == Text.EntityUniqueId(node.id, "light", onOff.id)
  {
    NodeLightsAt(node, 0, i);
    var onOff := EditableOnOffs(node.attributes)[i];
    var e := MakeLight(node, LightSetFor(node, onOff), i);
    assert NodeLights(node, 0)[i] == e;
    assert e.node == node && e.index == i && e.onOff == onOff;
    assert e.Name() == (if i == 0 then None else Some("light " + Text.IntToString(i + 1)));
    assert e.UniqueId() == Text.EntityUniqueId(node.id, "light", onOff.id);
  }

  /** Lights of one node whose ON_OFF attributes have distinct non-negative
      ids get distinct unique ids. */
  lemma NodeLightIdsDistinct(node: Node, i: nat, j: nat)
    requires node.id >= 0
    requires i < j < |EditableOnOffs(node.attributes)|
    requires EditableOnOffs(node.attributes)[i].id >= 0 && EditableOnOffs(node.attributes)[j].id >= 0
    requires EditableOnOffs(node.attributes)[i].id != EditableOnOffs(node.attributes)[j].id
    ensures |NodeLights(node, 0)| == |EditableOnOffs(node.attributes)|
    ensures NodeLights(node, 0)[i].UniqueId() != NodeLights(node, 0)[j].UniqueId()
  {
    LightsOfNode(node, i);
    LightsOfNode(node, j);
    var onOffs := EditableOnOffs(node.attributes);
    if NodeLights(node, 0)[i].UniqueId() == NodeLights(node, 0)[j].UniqueId() {
      Text.EntityUniqueIdInjective("light", node.id, onOffs[i].id, node.id, onOffs[j].id);
    }
  }

  /** Every light the platform creates belongs to a light node and is bound
      to the editable ON_OFF attribute of its index. */
  lemma {:induction false} LightEntitiesFromLightNodes(nodes: seq<Node>, e: HomeeLight)
    requires e in LightEntities(nodes)
    ensures e.node in nodes && IsLightNode(e.node)
    ensures e.index < |EditableOnOffs(e.node.attributes)| && e.onOff == EditableOnOffs(e.node.attributes)[e.index]
  {
    var last := nodes[|nodes| - 1];
    var front := nodes[..|nodes| - 1];
    var tail := if IsLightNode(last) then NodeLights(last, 0) else [];
    assert LightEntities(nodes) == LightEntities(front) + tail;
    if e in LightEntities(front) {
      LightEntitiesFromLightNodes(front, e);
      assert e.node in front;
    } else {
      assert IsLightNode(last) && e in NodeLights(last, 0);
      var i :| 0 <= i < |NodeLights(last, 0)| && NodeLights(last, 0)[i] == e;
      NodeLightsLength(last, 0);
      LightsOfNode(last, i);
      assert e.node == last;
    }
  }

  /** A node gives as many lights as it has editable ON_OFF attributes. */
  lemma {:induction false} NodeLightsLength(node: Node, from: nat)
    ensures from <= |EditableOnOffs(node.attributes)| ==>
              |NodeLights(node, from)| == |EditableOnOffs(node.attributes)| - from
    decreases |EditableOnOffs(node.attributes)| - from
  {
    if from < |EditableOnOffs(node.attributes)| {
      NodeLightsLength(node, from + 1);
    }
  }
}
