/** How the per-platform classifiers relate: profiles the integration does
    not name, and profiles claimed by more than one platform. */
module Classification {
  import opened Wrappers
  import opened Homee
  import Light
  import Cover
  import BinarySensor
  import Switch
  import Sensor
  import Climate
  import Providers

  /** A node whose profile no platform names is classified by none of the
      profile-based tests. */
  lemma UnknownProfileUnclaimed(node: Node)
    requires node.profile.OtherProfile?
    ensures !Light.IsLightNode(node) && !Cover.IsCoverNode(node) && !BinarySensor.IsBinarySensorNode(node)
    ensures !Switch.IsSwitchNode(node) && !Climate.IsClimateNode(node)
  {
  }

  /** The sensor platform has no profile test: a node of an unknown
      profile with a POSITION attribute still gets a sensor, and the light
      provider still accepts an unknown profile with ON_OFF and an editable
      BRIGHTNESS. */
  lemma UnknownProfileStillSensedAndProvided()
    ensures var position := Attribute(2, Position, false, 40, "", "%");
            var node := Node(7, "blind", OtherProfile(999), [position], []);
            |Sensor.SensorsOf(node, node.attributes)| == 1
    ensures var onOff := Attribute(1, OnOff, true, 0, "", "");
            var brightness := Attribute(2, Brightness, true, 0, "", "");
            var node := Node(8, "lamp", OtherProfile(999), [onOff, brightness], []);
            |Providers.LightProvide(node)| == 1
  {
    var position := Attribute(2, Position, false, 40, "", "%");
    var node := Node(7, "blind", OtherProfile(999), [position], []);
    assert node.attributes[..0] == [];
    var onOff := Attribute(1, OnOff, true, 0, "", "");
    var brightness := Attribute(2, Brightness, true, 0, "", "");
    var lamp := Node(8, "lamp", OtherProfile(999), [onOff, brightness], []);
    assert onOff in lamp.attributes && brightness in lamp.attributes;
  }

  /** A dimmable metering switch with an ON_OFF attribute is both a light
      node and a switch node. */
  lemma DimmableMeteringSwitchIsLightAndSwitch(node: Node)
    requires node.profile == DimmableMeteringSwitch && HasAttribute(node, OnOff)
    ensures Light.IsLightNode(node) && Switch.IsSwitchNode(node)
  {
  }

  /** A shutter position switch is a cover node, and with an ON_OFF
      attribute also a switch node. */
  lemma ShutterPositionSwitchIsCoverAndSwitch(node: Node)
    requires node.profile == ShutterPositionSwitch && HasAttribute(node, OnOff)
    ensures Cover.IsCoverNode(node) && Switch.IsSwitchNode(node)
    ensures Cover.GetDeviceClass(node) == Some(Cover.Shutter)
  {
  }

  /** Every profile the light provider accepts outright is a light profile
      of the light platform. */
  lemma ExplicitLightProfilesAreLightProfiles()
    ensures forall p :: p in Providers.ExplicitLightProfiles ==> p in Light.LightProfiles
  {
  }
}
