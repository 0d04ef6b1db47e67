/** The switch platform: one switch entity per ON_OFF attribute of a plug
    or switch node, numbered per node, named after the node and the
    attribute, writing 1 and 0 to that attribute. */
module Switch {
  import opened Wrappers
  import opened Homee
  import Text

  datatype SwitchDeviceClass = Outlet | SwitchClass

  const PlugProfiles: seq<NodeProfile> := [
    OnOffPlug, MeteringPlug, DimmableMeteringPlug, DoubleOnOffPlug, ImpulsePlug]

  const SwitchProfiles: seq<NodeProfile> := [
    DimmableMeteringSwitch, MeteringSwitch, OnOffSwitch, DoubleOnOffSwitch,
    OnOffSwitchWithBinaryInput, DoubleMeteringSwitch, ShutterPositionSwitch,
    ElectricMotorMeteringSwitch, ElectricMotorMeteringSwitchWithoutSlatPosition]

  /** get_device_class: an outlet for a plug profile, a switch otherwise. */
  function GetDeviceClass(node: Node): (c: SwitchDeviceClass)
    ensures c == Outlet <==> node.profile in PlugProfiles
  {
    if node.profile in PlugProfiles then Outlet else SwitchClass
  }

  /** is_switch_node: an ON_OFF attribute and a plug or switch profile. */
  predicate IsSwitchNode(node: Node) {
    HasAttribute(node, OnOff) && (node.profile in PlugProfiles || node.profile in SwitchProfiles)
  }

  /** A homee switch entity: its node, its ON_OFF attribute, its index
      among the node's switches, and its device class. */
  datatype HomeeSwitch = HomeeSwitch(node: Node, onOff: Attribute, index: int, deviceClass: SwitchDeviceClass)
  {
    /** unique_id: "{node.id}-switch-{on_off.id}". */
    function UniqueId(): string {
      Text.EntityUniqueId(node.id, "switch", onOff.id)
    }

    /** name: node name and attribute name when the attribute has one;
        otherwise the node name, numbered from the second switch on. */
    function Name(): string {
      if onOff.name != "" then node.name + " " + onOff.name
      else if index > 0 then node.name + " " + Text.IntToString(index + 1)
      else node.name
    }

    /** is_on: the truth of the ON_OFF attribute's value. */
    predicate IsOn() {
      onOff.currentValue != 0
    }

    /** async_turn_on: write 1 to the ON_OFF attribute by id. */
    function TurnOn(): (w: Write)
      ensures w.nodeId == node.id && w.attributeId == onOff.id && w.value == Num(1)
    {
      Write(node.id, onOff.id, Num(1))
    }

    /** async_turn_off: write 0 to the ON_OFF attribute by id. */
    function TurnOff(): (w: Write)
      ensures w.nodeId == node.id && w.attributeId == onOff.id && w.value == Num(0)
    {
      Write(node.id, onOff.id, Num(0))
    }

    /** current_power_w: the CURRENT_ENERGY_USE value, or None. */
    function CurrentPowerW(): (r: Option<int>)
      ensures r.Some? <==> HasAttribute(node, CurrentEnergyUse)
      ensures r.Some? ==> AttributeValue(node, CurrentEnergyUse) == Success(r.value)
    {
      if HasAttribute(node, CurrentEnergyUse) then Some(AttributeValue(node, CurrentEnergyUse).value) else None
    }
  }

  /** The switches the inner setup loop creates for a node from a list of
      its attributes: one per ON_OFF attribute, indexed by how many came
      before it. */
  function SwitchesOf(node: Node, attrs: seq<Attribute>): (r: seq<HomeeSwitch>)
    ensures |r| == CountType(attrs, OnOff)
    ensures forall i :: 0 <= i < |r| ==>
              r[i].node == node && r[i].index == i && r[i].onOff in attrs && r[i].onOff.attrType == OnOff &&
              r[i].deviceClass == GetDeviceClass(node)
  {
    if |attrs| == 0 then []
    else
      var front := attrs[..|attrs| - 1];
      var a := attrs[|attrs| - 1];
      assert forall x :: x in front ==> x in attrs;
      SwitchesOf(node, front) +
        if a.attrType == OnOff then [HomeeSwitch(node, a, CountType(front, OnOff), GetDeviceClass(node))] else []
  }

  /** The switches the platform creates for a list of nodes, in order. */
  function SwitchEntities(nodes: seq<Node>): seq<HomeeSwitch> {
    if |nodes| == 0 then []
    else
      var last := nodes[|nodes| - 1];
      SwitchEntities(nodes[..|nodes| - 1]) + if IsSwitchNode(last) then SwitchesOf(last, last.attributes) else []
  }

  /** SwitchesOf and CountType grow by the appended attribute only. */
  lemma SwitchesOfAppend(node: Node, prefix: seq<Attribute>, a: Attribute)
    ensures SwitchesOf(node, prefix + [a]) == SwitchesOf(node, prefix) +
              if a.attrType == OnOff then [HomeeSwitch(node, a, CountType(prefix, OnOff), GetDeviceClass(node))] else []
    ensures CountType(prefix + [a], OnOff) == CountType(prefix, OnOff) + if a.attrType == OnOff then 1 else 0
  {
    assert (prefix + [a])[..|prefix|] == prefix;
  }

  /** async_setup_entry of the switch platform. It walks every node of the
      hub, not only the imported ones. */
  method SetupSwitches(hubNodes: seq<Node>) returns (devices: seq<HomeeSwitch>)
    ensures devices == SwitchEntities(hubNodes)
  {
    devices := [];
    for n := 0 to |hubNodes|
      invariant devices == SwitchEntities(hubNodes[..n])
    {
      var node := hubNodes[n];
      assert hubNodes[..n + 1][..n] == hubNodes[..n];
      if !IsSwitchNode(node) {
        continue;
      }
      var switches := NodeSwitches(node);
      devices := devices + switches;
    }
    assert hubNodes[..|hubNodes|] == hubNodes;
  }

  /** The inner loop of async_setup_entry for one switch node: a running
      count of ON_OFF attributes, and a switch for each of them. */
  method NodeSwitches(node: Node) returns (switches: seq<HomeeSwitch>)
    ensures switches == SwitchesOf(node, node.attributes)
  {
    switches := [];
    var switchCount := 0;
    for j := 0 to |node.attributes|
      invariant switchCount == CountType(node.attributes[..j], OnOff)
      invariant switches == SwitchesOf(node, node.attributes[..j])
    {
      var attribute := node.attributes[j];
      ghost var prefix := node.attributes[..j];
      assert node.attributes[..j + 1] == prefix + [attribute];
      SwitchesOfAppend(node, prefix, attribute);
      if attribute.attrType == OnOff {
        switches := switches + [HomeeSwitch(node, attribute, switchCount, GetDeviceClass(node))];
        switchCount := switchCount + 1;
      }
    }
    assert node.attributes[..|node.attributes|] == node.attributes;
  }

  /** Every switch of a node is bound to an ON_OFF attribute of that node,
      and the i-th switch to the i-th ON_OFF attribute. */
  lemma {:induction false} SwitchOrder(node: Node, attrs: seq<Attribute>, i: nat, j: nat)
    requires 0 <= j < |attrs| && attrs[j].attrType == OnOff
    requires i == CountType(attrs[..j], OnOff)
    ensures i < |SwitchesOf(node, attrs)| && SwitchesOf(node, attrs)[i].onOff == attrs[j]
  {
    var front := attrs[..|attrs| - 1];
    if j < |attrs| - 1 {
      assert front[..j] == attrs[..j];
      SwitchOrder(node, front, i, j);
    } else {
      assert front == attrs[..j];
    }
  }

  /** Two switches of one node that have no attribute name get different
      names. */
  lemma UnnamedSwitchNamesDistinct(s1: HomeeSwitch, s2: HomeeSwitch)
    requires s1.node == s2.node && s1.onOff.name == "" && s2.onOff.name == ""
    requires 0 <= s1.index < s2.index
    ensures s1.Name() != s2.Name()
  {
    var base := s1.node.name + " ";
    var t2 := Text.NatToString(s2.index + 1);
    assert s2.Name() == base + t2;
    if s1.index == 0 {
      assert |s1.Name()| < |s2.Name()|;
    } else {
      var t1 := Text.NatToString(s1.index + 1);
      assert s1.Name() == base + t1;
      Text.NatToStringDistinct(s1.index + 1, s2.index + 1);
      Text.PrependDistinct(base, t1, t2);
    }
  }

  /** Switches whose ON_OFF attributes have distinct non-negative ids get
      distinct unique ids, within a node or across nodes. */
  lemma UniqueIdsDistinct(s1: HomeeSwitch, s2: HomeeSwitch)
    requires 0 <= s1.node.id && 0 <= s2.node.id && 0 <= s1.onOff.id && 0 <= s2.onOff.id
    requires s1.node.id != s2.node.id || s1.onOff.id != s2.onOff.id
    ensures s1.UniqueId() != s2.UniqueId()
  {
    if s1.UniqueId() == s2.UniqueId() {
      Text.EntityUniqueIdInjective("switch", s1.node.id, s1.onOff.id, s2.node.id, s2.onOff.id);
    }
  }

  /** Turning a switch on, then reading back the attribute after the hub
      applied the write, shows it on; turning it off shows it off. */
  lemma TurnOnOffRoundTrip(s: HomeeSwitch, k: nat)
    requires k < |s.node.attributes| && s.node.attributes[k] == s.onOff
    ensures var on := ApplyWrite(s.node, s.TurnOn()).attributes[k];
            on.id == s.onOff.id && s.(onOff := on).IsOn()
    ensures var off := ApplyWrite(s.node, s.TurnOff()).attributes[k];
            off.id == s.onOff.id && !s.(onOff := off).IsOn()
  {
  }
}
