/** The light entity provider: which nodes the registry turns into light
    entries. */
module Providers {
  import opened Homee
  import opened Entries

  /** The profiles that make a node a light whatever its attributes. */
  const ExplicitLightProfiles: seq<NodeProfile> := [
    DimmableLight, DimmableColorLight, DimmableExtendedColorLight,
    DimmableColorTemperatureLight, DimmableLightWithBrightnessSensor,
    DimmableLightWithBrightnessAndPresenceSensor, DimmableLightWithPresenceSensor]

  /** HomeeLightProvider.provide: one light entry for an explicit light
      profile, or for ON_OFF together with an editable BRIGHTNESS; nothing
      otherwise. */
  function LightProvide(node: Node): (r: seq<EntityEntry>)
    ensures |r| <= 1
    ensures forall e :: e in r ==> e == EntityEntry("light", node)
    ensures node.profile in ExplicitLightProfiles ==> |r| == 1
    ensures node.profile !in ExplicitLightProfiles ==>
              (|r| == 1 <==> HasAttribute(node, OnOff) && HasEditableAttribute(node, Brightness))
  {
    if node.profile in ExplicitLightProfiles then [EntityEntry("light", node)]
    else if HasAttribute(node, OnOff) && HasEditableAttribute(node, Brightness) then [LightEntry(node)]
    else []
  }
}
