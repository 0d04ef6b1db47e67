# homee integration: classification and attribute mapping

This project models the core of the homee integration for Home Assistant.
The core decides which host entities a homee hub node becomes. A node has:

- an id;
- a profile;
- an ordered list of attributes, each with an id, a type, an editable flag, a current value, a name and a unit;
- group memberships.

From a node, the core chooses which attributes each entity binds to, which capability flags the entity offers, and which (node, attribute, value) writes its commands send. The project also models:

- the import filter that turns the configured groups into a duplicate-free node list;
- the entity registry that takes its entries from the registered providers;
- the config flow's hub-id extraction and error mapping.

One Dafny module per source file:

| module | file | models |
|---|---|---|
| `Homee` | `homee.dfy` | node, attribute and group datatypes; the attribute lookups of `HomeeNodeHelper`; the write a value command sends, and the hub applying it |
| `Text` | `text.dfy` | `str()` and `int()` on the integer ids that become option keys and unique ids |
| `Light` | `light.dfy` | `light.py` |
| `Cover` | `cover.dfy` | `cover.py` |
| `BinarySensor` | `binary_sensor.dfy` | `binary_sensor.py` |
| `Switch` | `switch.dfy` | `switch.py` |
| `Sensor` | `sensor.dfy` | `sensor.py` |
| `Climate` | `climate.dfy` | `climate.py` |
| `Helpers` | `helpers.dfy` | `helpers.py` |
| `Entries`, `Registry` | `entries.dfy`, `registry.dfy` | `registry.py` |
| `Providers` | `providers.dfy` | `providers.py` |
| `ConfigFlow` | `config_flow.dfy` | `config_flow.py` |
| `Classification` | `classification.dfy` | how the per-platform classifiers overlap |
| `Wrappers` | `wrappers.dfy` | `Option` and `Result` |

The model takes the form the source code has:

- Loops that accumulate a result are methods with loop invariants. Each is proved equal to a function of its input, or to the full property it promises. This covers `get_light_features`, `get_cover_features`, `get_climate_features`, `get_light_attribute_sets`, every platform's `async_setup_entry`, `get_imported_nodes` and `_extract_entities`.
- Objects whose fields change are classes: `HomeeBinarySensor`, `HomeeEntityRegistry`, the class-level provider list, and `ConfigFlowHandler`.
- Everything else is functions over datatypes.

Errors the Python code raises are `Result` failures:

- `AttributeNotFound` from `attribute()`;
- `NoneHasNoField`, for an attribute read on a lookup that found nothing;
- `IndexError`, `KeyError`, `ValueError`, `TypeError`, and an unbound local.

Four behaviours are modelled as the code has them:

- **Cover position.** The only position mapping is `100 - p`; there is no remapping over a minimum and maximum.
- **Colour temperature.** The mired bounds are returned as constants and nothing is clamped.
- **Sensors.** The sensor platform has no profile test.
- **Switches.** The switch platform walks every node of the hub, not only the imported ones.

Some references in the source do not resolve. The model takes their evident intent:

- `providers.py` imports `has_attribute` from `helpers.py` and `NodeProfileNames` from `const.py`, and neither file defines them. `has_attribute(node, t, readonly=False)` is taken to mean that an editable attribute of type `t` exists.
- `HomeeNodeEntity` is imported from `__init__.py`, which does not define it. Its attribute helpers are taken to be those of `HomeeNodeHelper`.

Behaviour of the hub client library, which is not part of this model, is fixed as follows:

- **Type lookup.** It goes through a map filled in list order, so the last attribute of a type wins.
- **Group lookup.** `get_group_by_id` returns the first group with that id, or None.
- **Type codes.** The numeric codes of attribute types are a parameter of the binary sensor's unique id.

Values the host computes in floating point are opaque `Value` constructors: brightness scaling, mired to Kelvin, and HS to packed RGB. Network outcomes are parameters: the token request's outcome in `validate_input`.

Two edge cases of the code are modelled as they behave:

- **Cover with no feature.** Its feature mask stays the integer 0, and the membership test in `async_set_cover_position` then raises `TypeError`.
- **Unnamed sensor.** A sensor with no name, no device class and an `OtherType` attribute type leaves its `name` unbound. `OtherType` covers the codes the integration does not name, which the model takes as having no library identifier.

## Model

| member | source | states |
|---|---|---|
| Homee.FindByType | custom_components/homee/__init__.py:114-120 | the type lookup finds an attribute exactly when the node has one of that type, and what it finds is in the node with that type |
| Homee.FindByTypeIsLast | custom_components/homee/__init__.py:114-116 | the attribute found is the last of its type in list order |
| Homee.AttributeValue | custom_components/homee/__init__.py:107-112 | `attribute(t)` fails with AttributeNotFound(t) exactly when no attribute has type t, else gives the value of an attribute of type t |
| Homee.SetValueByType | custom_components/homee/__init__.py:122-124 | `async_set_value(t, v)` fails exactly when no attribute has type t, else writes v for this node to the id of an attribute of type t |
| Homee.WriteValue | custom_components/homee/__init__.py:126-136 | the hub applying a write: same length, every attribute with the id takes the value, types unchanged |
| Homee.ApplyWrite | custom_components/homee/__init__.py:126-136 | a write changes only the attributes of the node it addresses; id, name, profile and groups stay |
| Homee.FindByTypeAfterWrite | custom_components/homee/__init__.py:114-136 | after a write to the attribute the type lookup finds, the lookup finds that attribute with the new value |
| Homee.ReadBackAfterWrite | custom_components/homee/__init__.py:107-124 | `async_set_value(t, v)` followed by `attribute(t)` reads v back |
| Homee.CountTypeZero | custom_components/homee/sensor.py:60-67 | a type's count is zero exactly when no attribute has that type |
| Text.NatToString | custom_components/homee/helpers.py:16 | `str(n)` is a non-empty digit string without a leading zero |
| Text.DigitsValueOfNatToString | custom_components/homee/helpers.py:16-20 | the digits `str(n)` writes denote n |
| Text.ParseIntOfIntToString | custom_components/homee/helpers.py:16-20 | `int(str(i)) == i` for every integer, negative ones included |
| Text.NatToStringInjective | custom_components/homee/helpers.py:16 | different non-negative integers have different decimal strings |
| Text.EntityUniqueIdInjective | custom_components/homee/switch.py:108 | two `"{node}-{platform}-{attribute}"` ids with non-negative parts are equal only for equal node and attribute ids (also the light, sensor and binary sensor ids) |
| Light.GetLightFeatures | custom_components/homee/light.py:37-48 | the default flags stay; BRIGHTNESS exactly with DIMMING_LEVEL, HS exactly with COLOR or HUE, COLOR_TEMP exactly with COLOR_TEMPERATURE |
| Light.RgbListToDecimal | custom_components/homee/light.py:85-87 | three channels in 0..255 pack into a 24-bit colour |
| Light.DecimalToRgbList | custom_components/homee/light.py:90-92 | three channels, each in 0..255 |
| Light.RgbRoundTrip | custom_components/homee/light.py:85-92 | unpacking a packed colour with channels in 0..255 gives the channels back |
| Light.DecimalRoundTrip | custom_components/homee/light.py:85-92 | packing the unpacked channels gives the low 24 bits, so every 24-bit colour comes back unchanged |
| Light.EditableOnOffsMembers | custom_components/homee/light.py:53-55 | the candidate list holds exactly the editable ON_OFF attributes |
| Light.AttributeWithId | custom_components/homee/light.py:69-71 | the id lookup finds an attribute that has the id |
| Light.AttributeWithIdFound | custom_components/homee/light.py:69-72 | the id lookup finds something exactly when some attribute has the id |
| Light.ExtendLightSetKeeps | custom_components/homee/light.py:66-80 | the scan keeps every entry already in the set, and entries of non-light types keep their attribute |
| Light.ExtendLightSetStep | custom_components/homee/light.py:68-80 | a lookup that misses or finds a non-light type ends the scan; one that finds a light type stores it and goes to the next id |
| Light.LightSetFor | custom_components/homee/light.py:62 | the set's ON_OFF entry is the target attribute |
| Light.GetLightAttributeSets | custom_components/homee/light.py:51-82 | None exactly when the index is past the editable ON_OFF attributes; otherwise the set scanned from the index-th of them |
| Light.RunShape | custom_components/homee/light.py:66-80 | every lookup within the run continues it and the lookup after the run does not |
| Light.ExtendLightSetEntries | custom_components/homee/light.py:66-80 | each entry of the result is either an earlier entry not touched by the run, or the last run attribute of its type, found at some offset of the run |
| Light.LightSetEntries | custom_components/homee/light.py:66-80 | every entry besides ON_OFF has a light type and is the attribute at id `target.id + k` for a k in the run, the last of its type there |
| Light.LightSetRun | custom_components/homee/light.py:72-79 | ids `target.id + 1 .. target.id + n` exist with light types and bind their types; id `target.id + n + 1` stops the scan (missing, non-light, or the next ON_OFF) |
| Light.LightRunBounded | custom_components/homee/light.py:66-80 | the scan ends after at most as many lookups as the node has attributes |
| Light.RunLengthBound | custom_components/homee/light.py:66-80 | the run is no longer than the number of attributes at or above the first looked-up id |
| Light.HomeeLight.Name | custom_components/homee/light.py:163-168 | no name for index 0, `"light {index+1}"` otherwise |
| Light.HomeeLight.HsColor | custom_components/homee/light.py:180-192 | no colour exactly when the mode attribute reads 2; otherwise the channels of COLOR, failing when no COLOR is bound |
| Light.HomeeLight.TurnOn | custom_components/homee/light.py:216-240 | writes 1 to ON_OFF first, then the scaled brightness to the dimmer and the Kelvin value to the temperature attribute, each exactly when asked and bound; HS goes last to COLOR when no HUE and to HUE when no COLOR, nothing when both are bound, and fails when neither is; the number of writes is fixed by these cases |
| Light.HomeeLight.TurnOff | custom_components/homee/light.py:242-244 | writes 0 to the ON_OFF attribute of this node |
| Light.NodeLights | custom_components/homee/light.py:102-110 | the index loop from `from` on makes one light per remaining editable ON_OFF attribute |
| Light.NodeLightsAt | custom_components/homee/light.py:102-110 | the light at index i is built from the i-th editable ON_OFF attribute's set, with index i |
| Light.NodeLightsLength | custom_components/homee/light.py:102-110 | a node gives as many lights as it has editable ON_OFF attributes |
| Light.LightsOfNode | custom_components/homee/light.py:102-168 | light i of a node has index i, the i-th editable ON_OFF attribute, the name rule and the unique id `"{node.id}-light-{on_off.id}"` |
| Light.NodeLightIdsDistinct | custom_components/homee/light.py:161 | lights of one node on ON_OFF attributes with distinct non-negative ids have distinct unique ids |
| Light.SetupLights | custom_components/homee/light.py:95-113 | the setup loops produce the lights of the light nodes, node by node |
| Light.LightEntitiesFromLightNodes | custom_components/homee/light.py:99-110 | every light created belongs to a light node and is bound to the editable ON_OFF attribute of its index |
| Cover.CoverFeatures | custom_components/homee/cover.py:22-40 | default flags stay; OPEN, CLOSE and STOP exactly with an editable UP_DOWN or OPEN_CLOSE; SET_POSITION exactly with an editable POSITION |
| Cover.GetCoverFeatures | custom_components/homee/cover.py:22-40 | the loop computes the accumulated features of all attributes |
| Cover.GetDeviceClass | custom_components/homee/cover.py:43-49 | garage exactly for a garage door operator, shutter exactly for a shutter position switch, none otherwise |
| Cover.MakeCover | custom_components/homee/cover.py:85-97 | the cover's open/close attribute is UP_DOWN when the node has one, else OPEN_CLOSE, and its features are those of its attributes |
| Cover.NewCover | custom_components/homee/cover.py:85-97 | the constructor builds that cover |
| Cover.CoverNodes | custom_components/homee/cover.py:57-59 | never more nodes than given |
| Cover.CoverNodesMembers | custom_components/homee/cover.py:57-59 | the nodes kept are exactly the cover nodes |
| Cover.CoverNodesStep | custom_components/homee/cover.py:57-60 | walking one more node keeps it exactly when it is a cover node, after the earlier ones |
| Cover.SetupCovers | custom_components/homee/cover.py:52-62 | cover i is the one built from the i-th cover node, and there is one per cover node |
| Cover.CoversOfCoverNodes | custom_components/homee/cover.py:52-62 | every cover node gets its cover, and every cover is built from a cover node of the input |
| Cover.HomeeCover.CurrentCoverPosition | custom_components/homee/cover.py:109-112 | fails exactly without POSITION; otherwise the position p with `100 - p` equal to the hub value |
| Cover.HomeeCover.IsOpening | custom_components/homee/cover.py:114-117 | fails exactly without the open/close attribute; true exactly when it reads 3 |
| Cover.HomeeCover.IsClosing | custom_components/homee/cover.py:119-122 | fails exactly without the open/close attribute; true exactly when it reads 4 |
| Cover.HomeeCover.IsClosed | custom_components/homee/cover.py:124-127 | fails exactly without POSITION; true exactly when it reads 100 |
| Cover.HomeeCover.OpenCover | custom_components/homee/cover.py:129-131 | writes 0 to the open/close attribute of this node, failing exactly when it is missing |
| Cover.HomeeCover.CloseCover | custom_components/homee/cover.py:133-135 | writes 1 to the open/close attribute of this node, failing exactly when it is missing |
| Cover.HomeeCover.StopCover | custom_components/homee/cover.py:143-145 | writes 2 to the open/close attribute of this node, failing exactly when it is missing |
| Cover.HomeeCover.SetCoverPosition | custom_components/homee/cover.py:137-141 | a write of `100 - position` to POSITION only with SET_POSITION; nothing without it; TypeError when the mask is still 0 |
| Cover.PositionWrite | custom_components/homee/cover.py:137-141 | with SET_POSITION and a POSITION attribute, the write goes to that attribute with `100 - position` |
| Cover.ReadBackMoves | custom_components/homee/cover.py:109-112 | a POSITION reading x is reported as `100 - x` |
| Cover.PositionRoundTrip | custom_components/homee/cover.py:109-141 | setting position p and reading back after the hub applies the write reports p |
| Cover.ClosedIffPositionZero | custom_components/homee/cover.py:109-127 | a cover is closed exactly when it reports position 0 |
| Cover.CommandsTarget | custom_components/homee/cover.py:94-145 | open, close and stop address the same attribute (UP_DOWN if present, else OPEN_CLOSE) and fail only when the node has neither |
| Cover.UniqueIdsDistinct | custom_components/homee/cover.py:91 | covers of distinct non-negative node ids have distinct `"{node.id}-cover"` ids |
| BinarySensor.GetDeviceClass | custom_components/homee/binary_sensor.py:24-37 | LOCK_STATE gives (lock, LOCK_STATE); otherwise ON_OFF gives (plug, ON_OFF); otherwise (opening, OPEN_CLOSE) |
| BinarySensor.ConfiguredClass | custom_components/homee/binary_sensor.py:88-98 | window exactly when a node group is a window group; door exactly when none is and one is a door group; otherwise the attribute-based class |
| BinarySensor.HomeeBinarySensor.constructor | custom_components/homee/binary_sensor.py:72-80 | a new sensor holds the configured class and the state attribute of `get_device_class` |
| BinarySensor.HomeeBinarySensor.ConfigureDeviceClass | custom_components/homee/binary_sensor.py:82-98 | sets the class with the group override; the state attribute is the one `get_device_class` chose |
| BinarySensor.HomeeBinarySensor.IsOn | custom_components/homee/binary_sensor.py:100-103 | fails exactly without the state attribute; otherwise true exactly when its value is non-zero |
| BinarySensor.BinarySensorNodes | custom_components/homee/binary_sensor.py:53-57 | the nodes of the binary sensor profiles, and no others |
| BinarySensor.SetupBinarySensors | custom_components/homee/binary_sensor.py:50-59 | one sensor per binary sensor node, in node order, each configured for its node and the options |
| BinarySensor.UniqueIdsDistinct | custom_components/homee/binary_sensor.py:80 | sensors of distinct non-negative node ids have distinct unique ids |
| Switch.GetDeviceClass | custom_components/homee/switch.py:42-47 | outlet exactly for a plug profile |
| Switch.HomeeSwitch.TurnOn | custom_components/homee/switch.py:126-128 | writes 1 to the switch's ON_OFF attribute id |
| Switch.HomeeSwitch.TurnOff | custom_components/homee/switch.py:130-132 | writes 0 to the switch's ON_OFF attribute id |
| Switch.HomeeSwitch.CurrentPowerW | custom_components/homee/switch.py:134-140 | the CURRENT_ENERGY_USE value exactly when the node has one, None otherwise |
| Switch.SwitchesOf | custom_components/homee/switch.py:65-69 | one switch per ON_OFF attribute, editable or not; switch i has index i, the node, an ON_OFF attribute of it and the node's device class |
| Switch.SwitchesOfAppend | custom_components/homee/switch.py:66-69 | one more attribute adds a switch exactly when it is ON_OFF, with the count so far as index |
| Switch.NodeSwitches | custom_components/homee/switch.py:65-69 | the inner loop with its counter produces the node's switches |
| Switch.SetupSwitches | custom_components/homee/switch.py:57-71 | the switches of every switch node of the hub, node by node |
| Switch.SwitchOrder | custom_components/homee/switch.py:65-69 | the i-th switch is bound to the i-th ON_OFF attribute |
| Switch.UnnamedSwitchNamesDistinct | custom_components/homee/switch.py:110-119 | two switches of a node without attribute names and with different indices get different names |
| Switch.UniqueIdsDistinct | custom_components/homee/switch.py:105-108 | switches with different node or ON_OFF ids (non-negative) have different unique ids |
| Switch.TurnOnOffRoundTrip | custom_components/homee/switch.py:121-132 | after the hub applies turn-on the switch is on; after turn-off it is off |
| Sensor.GetDeviceClass | custom_components/homee/sensor.py:33-41 | power exactly for CURRENT_ENERGY_USE, energy exactly for ACCUMULATED_ENERGY_USE |
| Sensor.GetStateClass | custom_components/homee/sensor.py:44-52 | measurement exactly for the three measurement types, total-increasing exactly for ACCUMULATED_ENERGY_USE; every valid type has one |
| Sensor.TypeIdentifier | custom_components/homee/sensor.py:106-108 | every attribute type the integration names has a library identifier; the others have none |
| Sensor.HomeeSensor.Name | custom_components/homee/sensor.py:98-113 | fails exactly when the base name is unbound; otherwise the base name, with `" {index+1}"` appended for index > 0 |
| Sensor.SensorsOf | custom_components/homee/sensor.py:60-67 | one sensor per attribute of a valid type |
| Sensor.SensorsOfAppend | custom_components/homee/sensor.py:64-67 | one more attribute adds a sensor exactly when its type is valid, indexed by the earlier attributes of its type |
| Sensor.CountsMapCounts | custom_components/homee/sensor.py:60-67 | the counter dictionary has a key for every type seen, holding the number seen for valid types and 0 for others |
| Sensor.NodeSensors | custom_components/homee/sensor.py:60-67 | the inner loop with its fresh counter dictionary produces the node's sensors |
| Sensor.SetupSensors | custom_components/homee/sensor.py:55-69 | the sensors of every imported node, node by node, counts restarting per node |
| Sensor.SensorOfAttribute | custom_components/homee/sensor.py:60-67 | the sensor of a valid attribute is indexed by the number of earlier attributes of its type in that node |
| Sensor.SensorsOfAreMade | custom_components/homee/sensor.py:60-67 | every sensor of a node is made for one of its valid attributes, has a state class, and an index below its type's count |
| Sensor.SensorEntitiesShape | custom_components/homee/sensor.py:55-69 | every sensor created is made from a valid attribute of one of the nodes |
| Sensor.CreatedSensorsAreNamed | custom_components/homee/sensor.py:98-113 | every sensor setup creates has a name |
| Sensor.UnnamedSensorNamesDistinct | custom_components/homee/sensor.py:98-113 | sensors of one type without own names and with different indices get different names |
| Sensor.UniqueIdsDistinct | custom_components/homee/sensor.py:96 | sensors with different node or attribute ids (non-negative) have different unique ids |
| Climate.ClimateFeatures | custom_components/homee/climate.py:27-38 | default flags stay; TARGET_TEMPERATURE exactly with that attribute; the range flag exactly with both LOW and HIGH |
| Climate.GetClimateFeatures | custom_components/homee/climate.py:27-38 | the method computes those features |
| Climate.MakeClimate | custom_components/homee/climate.py:74-77 | the entity of a node carries TARGET_TEMPERATURE exactly with that attribute and the range flag exactly with both bounds |
| Climate.NewClimate | custom_components/homee/climate.py:74-77 | the constructor builds that entity |
| Climate.ClimateNodes | custom_components/homee/climate.py:46-48 | the nodes kept are exactly the climate nodes, in order |
| Climate.SetupClimates | custom_components/homee/climate.py:41-51 | entity i is the one built from the i-th climate node, and there is one per climate node |
| Climate.ClimateEntitiesOfClimateNodes | custom_components/homee/climate.py:41-51 | every climate node gets its entity, and every entity is built from a climate node of the input |
| Climate.HomeeClimate.TemperatureUnitOf | custom_components/homee/climate.py:84-87 | "°C" gives Celsius, "°F" Fahrenheit, any other unit a KeyError, no TEMPERATURE attribute a field read on None |
| Climate.HomeeClimate.HvacModeNow | custom_components/homee/climate.py:89-97 | the mode is one of the listed modes, which are heat only |
| Climate.HomeeClimate.CurrentTemperature | custom_components/homee/climate.py:99-102 | the TEMPERATURE value, failing exactly when the node has no TEMPERATURE attribute |
| Climate.HomeeClimate.TargetTemperatureNow | custom_components/homee/climate.py:104-107 | the TARGET_TEMPERATURE value, failing exactly when the node has none |
| Climate.HomeeClimate.SetTemperature | custom_components/homee/climate.py:114-120 | no write without a temperature argument; with one, a write of it, failing exactly without TARGET_TEMPERATURE |
| Climate.SetTemperatureTarget | custom_components/homee/climate.py:104-120 | the temperature is written to the attribute the target is read from, and a write is possible exactly when a target can be read |
| Helpers.GetGroupById | custom_components/homee/helpers.py:20 | finds a group exactly when one has the id, and the one found has it |
| Helpers.AllGroupIds | custom_components/homee/helpers.py:16 | one string per hub group, which `int()` reads back as the group's id |
| Helpers.ResolveGroups | custom_components/homee/helpers.py:19-22 | a ValueError exactly when some configured id is not an integer; otherwise one lookup per id, in order |
| Helpers.FlattenMembers | custom_components/homee/helpers.py:27-28 | a node is walked exactly when one of the groups has it |
| Helpers.DedupMembers | custom_components/homee/helpers.py:26-30 | the de-duplicated list keeps every walked node, each once |
| Helpers.NodesOf | custom_components/homee/helpers.py:26-30 | reading the nodes fails exactly when some configured id found no group |
| Helpers.GetImportedNodes | custom_components/homee/helpers.py:11-32 | the method computes the import filter's result, including its failures |
| Helpers.CollectNodes | custom_components/homee/helpers.py:26-30 | the outer loop gives the walked nodes without repeats, or fails at a missing group |
| Helpers.AppendNewNodes | custom_components/homee/helpers.py:28-30 | the inner loop extends the list with the group's nodes not yet seen |
| Helpers.DedupAppend | custom_components/homee/helpers.py:29-30 | a node is appended exactly when it is not yet in the list built so far |
| Helpers.DedupStep | custom_components/homee/helpers.py:29-30 | one more walked node is appended exactly when it was not walked before |
| Helpers.FlattenStep | custom_components/homee/helpers.py:27-28 | the next group's nodes are walked after those of the earlier groups |
| Helpers.DedupOrder | custom_components/homee/helpers.py:26-30 | nodes appear in order of first occurrence |
| Helpers.DedupOfDistinct | custom_components/homee/helpers.py:26-30 | a walk without repeats is returned unchanged |
| Helpers.ImportedNodesDistinct | custom_components/homee/helpers.py:26-30 | the imported nodes have no repeats |
| Helpers.ImportedNodesMembers | custom_components/homee/helpers.py:19-30 | a node is imported exactly when a group selected by a configured id has it |
| Helpers.SelectedNodesFound | custom_components/homee/helpers.py:19-28 | the nodes walked for the k-th configured id are those of the group it selects |
| Helpers.DefaultSelectsAllGroups | custom_components/homee/helpers.py:16-22 | without a groups option, and with distinct group ids, all hub groups are walked in hub order |
| Helpers.FirstGroupWithId | custom_components/homee/helpers.py:20 | with distinct ids, looking up a group's id finds that group |
| Entries.LightEntry | custom_components/homee/registry.py:15-17 | the entry has component "light" and the node |
| Providers.LightProvide | custom_components/homee/providers.py:18-38 | one light entry for an explicit light profile; otherwise one exactly with ON_OFF and an editable BRIGHTNESS; never more than one, always the node's light entry |
| Registry.Provide | custom_components/homee/registry.py:57-58 | the base class provides nothing; the light provider provides its entries |
| Registry.ProviderList.constructor | custom_components/homee/registry.py:52 | the global class list starts empty |
| Registry.ProviderList.RegisterProvider | custom_components/homee/registry.py:64-66 | appends the class |
| Registry.ProviderList.Decorate | custom_components/homee/registry.py:69-73 | appends only provider subclasses and returns the class unchanged |
| Registry.HomeeEntityRegistry.constructor | custom_components/homee/registry.py:20-25 | no entries, and one provider per registered class in registration order |
| Registry.LastProviderOutput | custom_components/homee/registry.py:40-46 | nothing without providers, else the last provider's output only |
| Registry.HomeeEntityRegistry.ExtractEntities | custom_components/homee/registry.py:40-46 | the loop keeps only the last provider's output |
| Registry.HomeeEntityRegistry.Clear | custom_components/homee/registry.py:27-29 | the entry list becomes empty and the providers stay |
| Registry.HomeeEntityRegistry.Register | custom_components/homee/registry.py:31-34 | appends the extracted entries after the existing ones |
| Registry.HomeeEntityRegistry.GetComponentEntries | custom_components/homee/registry.py:36-38 | exactly the entries of the component |
| Registry.FilterMembers | custom_components/homee/registry.py:36-38 | an entry is kept exactly when it is registered and of the component |
| Registry.FilterAppend | custom_components/homee/registry.py:31-38 | filtering distributes over appending, so a component's entries stay in registration order |
| Registry.FilterOfOneComponent | custom_components/homee/registry.py:36-38 | a list of one component's entries filters to itself |
| Registry.RefreshRegistry | custom_components/homee/hass_homee.py:47-53 | clearing and registering every node leaves each node's entries in node order |
| Registry.LightEntriesOfLightProvider | custom_components/homee/registry.py:40-46 | with only the light provider, every entry is a light entry of an accepted node, and the light component gets all of them |
| Registry.LaterProviderDiscardsLights | custom_components/homee/registry.py:43-46 | a provider registered after the light provider discards the light entries |
| ConfigFlow.Split | custom_components/homee/config_flow.py:101 | `split` gives at least one piece, and exactly one when the separator is absent |
| ConfigFlow.SplitPiecesFree | custom_components/homee/config_flow.py:101 | no piece holds the separator |
| ConfigFlow.JoinSplit | custom_components/homee/config_flow.py:101 | joining the pieces gives the string back |
| ConfigFlow.SplitFirst | custom_components/homee/config_flow.py:101 | a first piece without the separator splits off unchanged |
| ConfigFlow.ZeroconfId | custom_components/homee/config_flow.py:101 | an IndexError exactly when the name has no '-'; otherwise an id without '-' or '.' |
| ConfigFlow.ZeroconfIdOfServiceName | custom_components/homee/config_flow.py:99-101 | the name `homee-<ID>._sftp-ssh._tcp.local.` gives ID when ID has no '-' or '.' |
| ConfigFlow.ValidateInput | custom_components/homee/config_flow.py:30-47 | an authentication failure is InvalidAuth, a timeout CannotConnect; success gives title "homee" and "homee cube at {host}" |
| ConfigFlow.ErrorKey | custom_components/homee/config_flow.py:81-87 | CannotConnect, InvalidAuth and anything else map to "cannot_connect", "invalid_auth" and "unknown" |
| ConfigFlow.FailedStepShowsKnownKey | custom_components/homee/config_flow.py:81-87 | a failed validation shows one of the three keys, and "unknown" when the token request succeeded |
| ConfigFlow.ConfigFlowHandler.constructor | custom_components/homee/config_flow.py:63-66 | no host and no id yet |
| ConfigFlow.ConfigFlowHandler.StepUser | custom_components/homee/config_flow.py:68-93 | no input shows the form with no errors; success creates "homee cube at {host}" with the input; failure shows the form with the error key |
| ConfigFlow.ConfigFlowHandler.StepZeroconf | custom_components/homee/config_flow.py:95-115 | stores the id cut from the name and the host, sets the title placeholders, and shows the confirm form; a name without '-' raises IndexError |
| ConfigFlow.ConfigFlowHandler.StepZeroconfConfirm | custom_components/homee/config_flow.py:117-149 | no input shows the form with id and host; success creates "{id} ({host})" with `homee_id` added to the data; failure shows the form with the error key |
| Classification.UnknownProfileUnclaimed | custom_components/homee/light.py:121-140 | a profile no platform names is claimed by no profile-based classifier: light, cover, binary sensor, switch or climate |
| Classification.UnknownProfileStillSensedAndProvided | custom_components/homee/sensor.py:58-67 | an unknown profile with POSITION still gets a sensor, and one with ON_OFF and an editable BRIGHTNESS a light entry |
| Classification.DimmableMeteringSwitchIsLightAndSwitch | custom_components/homee/switch.py:29-54 | a dimmable metering switch with ON_OFF is both a light node and a switch node |
| Classification.ShutterPositionSwitchIsCoverAndSwitch | custom_components/homee/switch.py:29-54 | a shutter position switch with ON_OFF is a cover node of class shutter and a switch node |
| Classification.ExplicitLightProfilesAreLightProfiles | custom_components/homee/providers.py:22-30 | every profile the light provider accepts outright is a light platform profile |

## Left out

- Host lifecycle: `async_setup`, `async_setup_entry` and `async_unload_entry` of the integration are not modelled. This covers the websocket task, service registration, platform forwarding and `async_add_devices`. Each platform's setup is modelled as the list of entities it would add.
- Entity lifecycle: listener registration, `schedule_update_ha_state` and `async_update` are left out. The service call of `async_set_value_by_id` is modelled as the `Write` it sends.
- Floating point: brightness times or divided by 2.55, mired to Kelvin, and HS to and from RGB are calls into host code. They appear as opaque `Value` constructors, and `brightness` is not modelled.
- `color_temp` passes a value where an attribute type is expected; it is not modelled.
- The hub messages of `hass_homee.py` are left out, except the clear-then-register handler, which is `Registry.RefreshRegistry`.
- The options flow and the unique-id abort of the zeroconf step are host UI mechanics and are not modelled. The options flow also names a constant that no file defines.
- `extra_data` of registry entries is left out: nothing in the core reads it.
- Read-only sensor properties that only pass a field through are not modelled: value, unit, state class and device class.
- Read-only getters that return a constant or a field are left out: `supported_features`, the mired bounds, and `name` returning None for covers and climates. So is the step value of the climate target.
- `discovery_info.get(...)` returning None for a missing key is not modelled. Discovery data always holds a name and a host.
- `int()` is modelled only on an optional '-' followed by decimal digits. Every other string is a ValueError, which leaves out the whitespace and underscores Python also accepts.
- Covers and climate entities are built once and never change their fields, so they are datatypes rather than classes.
- Registry.HomeeEntityRegistry.constructor: requires every class in the list to be a provider subclass. The decorator is the only way classes enter the list, and it guarantees this.
- ConfigFlow.ConfigFlowHandler.StepZeroconfConfirm: entry data holds strings only, so a confirm step with no zeroconf step before it stores the text "None" under `homee_id` where the code stores None.
- Helpers.AppendNewNodes: tells nodes apart by their value where the code uses object identity. Hub node ids are distinct, so the two agree on the hub's nodes.
- Sensor.HomeeSensor.Name: the library may declare identifiers for attribute types the integration does not name; they are all `OtherType` here and have none.
- The loops of the sensor, switch and import-filter setups are split: each inner loop is its own method (`NodeSensors`, `NodeSwitches`, `AppendNewNodes`).
- These are predicates or functions stated by their definitions; the lemmas named beside them are their partners:
  - `is_light_node`, `is_cover_node`, `is_switch_node`, `is_climate_node` and `is_binary_sensor_node`, which the lemmas of `Classification` relate;
  - `Switch.HomeeSwitch.Name` (switch.py:110-119), which has `UnnamedSwitchNamesDistinct`;
  - `Switch.HomeeSwitch.IsOn` (switch.py:122-124), which has `TurnOnOffRoundTrip`;
  - the unique ids, each with a `UniqueIdsDistinct` lemma or `NodeLightIdsDistinct`: `Light.HomeeLight.UniqueId` (light.py:161), `Cover.HomeeCover.UniqueId` (cover.py:91), `BinarySensor.HomeeBinarySensor.UniqueId` (binary_sensor.py:80), `Switch.HomeeSwitch.UniqueId` (switch.py:106-108) and `Sensor.HomeeSensor.UniqueId` (sensor.py:96);
  - `Sensor.HomeeSensor.BaseName` (sensor.py:101-108), which the contract of `Sensor.HomeeSensor.Name` states;
  - `Climate.HomeeClimate.HvacModes` (climate.py:89-92), which `HvacModeNow` relates to;
  - the entity builders `Light.MakeLight` (light.py:148-161), which `LightsOfNode` and `NodeLightsAt` describe, and `Sensor.MakeSensor` (sensor.py:82-96), which `SensorOfAttribute` and `SensorsOfAreMade` describe.
