# OpenEVSE PV Load Manager: message-to-state model

A Dafny model of the entity layer of the Home Assistant integration
`openevse_pv_loadmanager`. The integration mirrors an external load-manager
add-on over MQTT: each entity subscribes to one state topic and turns each
payload it receives into its new state. The two configuration numbers and the
mode switch also publish commands to their `/set` topics; the sensors only
listen. The model covers:

- **Constants** (`const.dfy`): the eight global topics, the four per-station
  templates `evse/{}/<leaf>`, Python's `str.format` on those templates, and the
  device identifier that prefixes every unique id.
- **Sensors** (`sensor.dfy`): the roster that setup builds for `n` stations.
  There are two global sensors, then four readings per station `1..n`, each
  with its unique id, topic, unit and device class. `MqttSensor` is the
  entity class. Its message handler decodes by device class: current and
  energy sensors hold `float(payload)`, or nothing when `float` raises. All
  other sensors hold the payload text exactly as received.
- **Numbers** (`number.dfy`): the hysteresis threshold and the ramp-up delay.
  They have declared bounds, steps and defaults. A payload that parses
  replaces the value, and one that does not is ignored. Setting a value
  publishes `str(value)` to the entity's `/set` topic and leaves the local
  value alone.
- **Mode switch** (`switch.dfy`): on (PV+Grid) by default. After a message it
  is on exactly when the stripped, lowercased payload is `pv_plus_grid`. Turn
  on and turn off publish `pv_plus_grid` / `pv_only` to `loadmanager/mode/set`
  and do not change the state.
- **All platforms** (`integration.dfy`): the unique ids of sensors, numbers
  and the switch never collide.
- **Python text built-ins** (`text_codec.dfy`): `str.strip()` with Python's
  whitespace set, `str.lower()`, `str(int)`, `float()` for decimal literals written with ASCII digits,
  and `str()` of a finite decimal number.
- **MQTT** (`mqtt.dfy`): a broker whose `Publish` appends to an outbox.
  Delivery of a message is a direct call of an entity's `HandleMessage`.

Two behaviours of the code are worth stating, because a reader might expect
otherwise:

- Text sensors store the payload exactly as received, without trimming it
  (sensor.py:151-152; `Sensor.Decode`).
- When a payload does not parse, the number entities keep their previous
  value (number.py:71-72; `Number.NextValue`). Only the current and energy
  sensors become empty.

## Model

| member | source | states |
|---|---|---|
| Const.GlobalTopicsDistinct | custom_components/openevse_pv_loadmanager/const.py:9-16 | the eight global topics are pairwise distinct |
| Const.SetTopicsExtendStateTopics | custom_components/openevse_pv_loadmanager/const.py:9-16 | each command topic (mode, hysteresis, ramp delay) is its state topic followed by `/set` |
| Const.TemplatesHaveOnePlaceholder | custom_components/openevse_pv_loadmanager/const.py:19-22 | each per-station template has exactly one `{}` field, so `format(sid)` never raises |
| Const.FillAround | custom_components/openevse_pv_loadmanager/const.py:19-22 | a template `p{}s` with no other brace has one field, and formatting puts the argument between `p` and `s` |
| Const.Format | custom_components/openevse_pv_loadmanager/sensor.py:77-101 | Python's `template.format(arg)` for templates whose only braces are `{}` fields, as the four station templates are (escaped `{{`/`}}`, named fields and lone braces are outside its scope): None (IndexError) exactly when the template has more than one field, the template itself when it has none, and otherwise text longer by the argument less the two braces for each field |
| Const.StationTopic | custom_components/openevse_pv_loadmanager/const.py:19-22 | the resolved topic of reading `k` at station `sid` is `evse/<decimal sid>/<leaf of k>` |
| Const.StationTopicFormats | custom_components/openevse_pv_loadmanager/sensor.py:72-101 | that topic is exactly what `template.format(sid)` returns (Some, not an IndexError) |
| Const.StationTopicNotGlobal | custom_components/openevse_pv_loadmanager/const.py:9-22 | no resolved station topic is one of the eight global topics |
| Const.StationTopicInjective | custom_components/openevse_pv_loadmanager/const.py:19-22 | two resolved station topics are equal if and only if their (reading, station) pairs are equal |
| Mqtt.Broker.Publish | custom_components/openevse_pv_loadmanager/switch.py:66 | publishing appends exactly that (topic, payload) message to the outbox, and nothing else changes |
| Sensor.Decode | custom_components/openevse_pv_loadmanager/sensor.py:140-152 | for current/energy classes, the result is a number exactly when `float(payload)` succeeds, and then it is that number (never the raw text); for other classes, the result is the payload unchanged |
| Sensor.MqttSensor.constructor | custom_components/openevse_pv_loadmanager/sensor.py:117-133 | a new sensor carries exactly the descriptor it was created with and holds no value |
| Sensor.MqttSensor.HandleMessage | custom_components/openevse_pv_loadmanager/sensor.py:140-153 | the new value is `Decode(deviceClass, payload)`; name, id, topic, unit and classes are immutable fields |
| Sensor.SetupSensors | custom_components/openevse_pv_loadmanager/sensor.py:41-109 | setup creates fresh sensors, one per roster entry in roster order, each with that entry's descriptor and no value |
| Sensor.NewStationSensors | custom_components/openevse_pv_loadmanager/sensor.py:73-107 | one loop pass creates the four fresh sensors of station `sid` in the order setpoint, actual current, state, energy |
| Sensor.Roster | custom_components/openevse_pv_loadmanager/sensor.py:50-107 | the descriptors setup creates for `n` stations: the two global sensors, then the four readings of stations 1 to `n` in turn; it has `2 + 4n` entries |
| Sensor.RosterGlobals | custom_components/openevse_pv_loadmanager/sensor.py:50-69 | the status and total-allocated sensors come first, whatever `n` is |
| Sensor.RosterStation | custom_components/openevse_pv_loadmanager/sensor.py:72-107 | every station `1..n` has each of its four readings at position `2 + 4(sid-1) + j` |
| Sensor.RosterAt | custom_components/openevse_pv_loadmanager/sensor.py:72-107 | every entry after the globals is a reading of some station in `1..n`, so no other station number occurs |
| Sensor.StationIdInjective | custom_components/openevse_pv_loadmanager/sensor.py:76-100 | per-station unique ids are equal if and only if station and reading are equal |
| Sensor.StationIdNotGlobal | custom_components/openevse_pv_loadmanager/sensor.py:54-100 | no per-station id equals the status or total-allocated id |
| Sensor.RosterIdsDistinct | custom_components/openevse_pv_loadmanager/sensor.py:50-107 | all unique ids in the roster are pairwise distinct |
| Sensor.RosterTopicsDistinct | custom_components/openevse_pv_loadmanager/sensor.py:50-107 | all topics in the roster are pairwise distinct |
| Sensor.RosterUnits | custom_components/openevse_pv_loadmanager/sensor.py:59-106 | in every roster entry, class Current goes with unit "A", Energy with "kWh", and no class with no unit |
| Number.ConfigNumber.Hysteresis | custom_components/openevse_pv_loadmanager/number.py:46-61 | the hysteresis entity has its declared name, id, bounds 0..10, step 0.5, unit "A", its topics, and value 2.0 |
| Number.ConfigNumber.RampDelay | custom_components/openevse_pv_loadmanager/number.py:85-100 | the ramp-delay entity has its declared name, id, bounds 0..120, step 5, unit "s", its topics, and value 30 |
| Number.InitialValuesValid | custom_components/openevse_pv_loadmanager/number.py:53-100 | both defaults lie within their bounds and on their step grids |
| Number.ConfigNumber.HandleMessage | custom_components/openevse_pv_loadmanager/number.py:66-72 | the new value is `float(payload)` when it parses and the old value otherwise; no error escapes |
| Number.NextValue | custom_components/openevse_pv_loadmanager/number.py:67-72 | the value after one message on a number's state topic: never a new invention, only the old value or the number `float()` reads from the payload |
| Number.NextValueCases | custom_components/openevse_pv_loadmanager/number.py:68-72 | a parsed payload becomes the value; an unparsable one leaves the value unchanged |
| Number.OutOfRangeStored | custom_components/openevse_pv_loadmanager/number.py:53-69 | there is no clamping: payload "50" stores 50, outside the hysteresis bounds |
| Number.ConfigNumber.SetNativeValue | custom_components/openevse_pv_loadmanager/number.py:78-82 | setting appends one message `str(value)` on the entity's own set topic and leaves the value unchanged |
| Number.EchoRestores | custom_components/openevse_pv_loadmanager/number.py:66-82 | when the add-on echoes the published text back, the handler stores exactly the requested number |
| Number.ReplayKeepsLastParsed | custom_components/openevse_pv_loadmanager/number.py:66-72 | after any run of messages, the value is the newest number that parsed, or the earlier value when none did |
| Number.TopicsSeparate | custom_components/openevse_pv_loadmanager/number.py:74-121 | each number's set topic is its state topic plus `/set`, and the two numbers share no topic |
| Switch.ModeSwitch.constructor | custom_components/openevse_pv_loadmanager/switch.py:50-51 | the switch starts on (PV+Grid), with its declared name and unique id |
| Switch.ModeSwitch.HandleMessage | custom_components/openevse_pv_loadmanager/switch.py:57-60 | after a message, the switch is on exactly when the stripped, lowercased payload is `pv_plus_grid` |
| Switch.ModeSwitch.TurnOn | custom_components/openevse_pv_loadmanager/switch.py:64-66 | appends `pv_plus_grid` on `loadmanager/mode/set`; the state is unchanged |
| Switch.ModeSwitch.TurnOff | custom_components/openevse_pv_loadmanager/switch.py:68-70 | appends `pv_only` on `loadmanager/mode/set`; the state is unchanged |
| Switch.SelectsGrid | custom_components/openevse_pv_loadmanager/switch.py:58-59 | whether a payload reports PV+Grid: its stripped, lowercased text is `pv_plus_grid`, so the stripped text has exactly the token's length |
| Switch.TokenRoundTrip | custom_components/openevse_pv_loadmanager/switch.py:58-70 | the turn-on token reads back as on; the turn-off token and the empty payload read back as off |
| Switch.PaddedTokenSelectsGrid | custom_components/openevse_pv_loadmanager/switch.py:58-59 | any letter case of `pv_plus_grid` with any whitespace around it reads as on |
| Switch.SelectsGridPadded | custom_components/openevse_pv_loadmanager/switch.py:58-59 | conversely, a payload that reads as on is `pv_plus_grid` in some letter case with only whitespace around it |
| Switch.ModeReplayLast | custom_components/openevse_pv_loadmanager/switch.py:57-60 | after a non-empty run of messages, the state is what the last payload reports, whatever came before |
| Switch.RepeatedMessage | custom_components/openevse_pv_loadmanager/switch.py:57-60 | handling the same payload twice gives the same state as handling it once |
| Integration.OtherIdsDistinct | custom_components/openevse_pv_loadmanager/number.py:51-90 | the hysteresis, ramp-delay and mode-switch ids are pairwise distinct |
| Integration.RosterIdNotOther | custom_components/openevse_pv_loadmanager/switch.py:41 | no sensor id equals a number or switch id |
| Integration.AllIdsDistinct | custom_components/openevse_pv_loadmanager/sensor.py:50-107 | across all three platforms, all unique ids are pairwise distinct |
| TextCodec.Strip | custom_components/openevse_pv_loadmanager/switch.py:58 | Python's `str.strip()`: the result is no longer than the input, has no whitespace at either end, and is empty exactly when the input is all whitespace |
| TextCodec.Lower | custom_components/openevse_pv_loadmanager/switch.py:58 | Python's `str.lower()` on ASCII letters: the result has the input's length and no upper-case ASCII letter |
| TextCodec.StripPadded | custom_components/openevse_pv_loadmanager/switch.py:58 | `strip()` removes exactly the whitespace padding around a text that has none at its ends |
| TextCodec.StripSlice | custom_components/openevse_pv_loadmanager/switch.py:58 | `strip()` returns a slice of the input with only whitespace on either side |
| TextCodec.NatToString | custom_components/openevse_pv_loadmanager/sensor.py:75-76 | Python's `str(sid)` in the f-strings: at least one decimal digit, with no leading zero |
| TextCodec.NatToStringRoundTrip | custom_components/openevse_pv_loadmanager/sensor.py:75-77 | the decimal text of the station number reads back as that number |
| TextCodec.NatToStringInjective | custom_components/openevse_pv_loadmanager/sensor.py:76 | distinct station numbers have distinct decimal texts |
| TextCodec.ParseFloat | custom_components/openevse_pv_loadmanager/sensor.py:148 | Python's `float(payload)` on decimal literals, None where it raises: a payload of only whitespace (or the empty one) never parses, and neither does one holding an information separator U+001C..U+001F, which `float` does not strip although `str.isspace()` counts it as whitespace |
| TextCodec.Render | custom_components/openevse_pv_loadmanager/number.py:81 | Python's `str()` of a finite float: the digits of the number without trailing fraction zeros, always with a decimal point |
| TextCodec.Normalize | custom_components/openevse_pv_loadmanager/number.py:81 | removing trailing fraction zeros keeps the value, and none are left |
| TextCodec.RenderRoundTrip | custom_components/openevse_pv_loadmanager/number.py:78-82 | `float(str(v)) == v` for every finite decimal `v` |
| TextCodec.RenderOfValue | custom_components/openevse_pv_loadmanager/number.py:81 | `str()` depends only on the number, not on how it was written down |
| TextCodec.TextRoundTrip | custom_components/openevse_pv_loadmanager/number.py:81 | `str(float(t)) == t` for every text `t` that `str()` produces |
| TextCodec.ParseWholeNumber | custom_components/openevse_pv_loadmanager/number.py:69 | `float()` of the decimal text of a whole number `n` is `n` |

## Left out

- MQTT transport: subscriptions, QoS 0, connection handling and asynchronous delivery. A publish is an append to `Broker.outbox`; a delivery is a direct `HandleMessage` call.
- The Home Assistant entity framework: `async_write_ha_state`, `DeviceInfo` construction (`_device_info`), `NumberMode.SLIDER`, `_attr_has_entity_name` and registration through `async_add_entities`. Sensor icons are kept as data; number and switch icons are not modelled.
- Restoring state after a restart. None of the modelled files has restore logic.
- The config flow and `__init__.py`. The station count is any `nat`. The config flow's 1..3 range is not needed by any property, so it is not a precondition.
- `PLATFORMS` in `__init__.py` lists only the switch, so the sensor and number platforms are never forwarded. Platform registration is not modelled; setup is modelled as if each platform ran.
- Const.Format: covers only templates whose braces are all `{}` fields, the only kind the integration formats. On other templates it does not follow Python: `"{{}}"` gives `"{x}"` where Python gives `"{}"`, and a lone `{` gives a value where Python raises ValueError.
- TextCodec.ParseFloat: models `float()` for decimal literals written with the ASCII digits `0`-`9` only. Python also accepts every other Unicode decimal digit (category Nd), so it reads `"１６"` or `"١٦"` as 16.0, while the model returns None. On such a payload, the model leaves a current or energy sensor empty and a number entity at its old value, where the code stores 16.0. `inf`, `nan`, `infinity` and digit-group underscores are also rejected, not parsed. The result is the exact rational value rather than the nearest IEEE-754 double.
- TextCodec.Render: models `str()` of a finite decimal value as plain digits with at least one fraction digit. Python's exponent notation for magnitudes of 1e16 and above or below 1e-4, rounding to 17 significant digits, and `-0.0` are not modelled.
- TextCodec.Lower: lowercases ASCII letters only. For the test against `pv_plus_grid` this is exact: among the characters Python lowercases into ASCII, only the Kelvin sign (U+212A) lowers to a single ASCII letter, `k`, and `k` does not occur in the token. Other Unicode case mappings are not modelled.
- Number.ConfigNumber.SetNativeValue: takes its argument as a decimal number. Home Assistant's range and step validation, which runs before `async_set_native_value`, is not modelled.
- Number.ConfigNumber.RampDelay: Python's initial value is the integer `30` (its `str` is "30"), while the model stores the real `30.0`. No published text depends on the initial value.
