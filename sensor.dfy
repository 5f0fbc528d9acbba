/** The MQTT sensors: two global readings of the load manager and four
    readings per charging station, each mirroring one topic. A sensor's
    device class decides how it reads a payload: current and energy sensors
    hold a number (or nothing when the payload is not one), the others hold
    the payload text. */
module Sensor {
  import opened Wrappers
  import opened TextCodec
  import opened Const

  datatype DeviceClass = Current | Energy
  datatype StateClass = Measurement | TotalIncreasing

  /** What a sensor holds: a number or a text. */
  datatype NativeValue = Number(x: real) | Text(s: string)

  /** The arguments a sensor is created with. */
  datatype Descriptor = Descriptor(
    name: string,
    uniqueId: string,
    topic: string,
    unit: Option<string>,
    deviceClass: Option<DeviceClass>,
    stateClass: Option<StateClass>,
    icon: Option<string>)

  function StatusSensor(): Descriptor {
    Descriptor("Load Manager Status", DeviceIdentifier + "_status", TopicStatus,
               None, None, None, Some("mdi:information-outline"))
  }

  function TotalAllocatedSensor(): Descriptor {
    Descriptor("Total Allocated Current", DeviceIdentifier + "_total_allocated", TopicTotalAllocated,
               Some("A"), Some(Current), Some(Measurement), Some("mdi:current-ac"))
  }

  /** The per-station readings in the order they are created. */
  function Kinds(): seq<StationKind> {
    [Setpoint, ActualCurrent, StationState, SessionEnergy]
  }

  /** The word that ends a per-station unique id. */
  function IdSuffix(k: StationKind): string {
    match k
    case Setpoint => "setpoint"
    case ActualCurrent => "actual"
    case StationState => "state"
    case SessionEnergy => "energy"
  }

  function StationId(sid: nat, k: StationKind): string {
    DeviceIdentifier + "_evse" + NatToString(sid) + "_" + IdSuffix(k)
  }

  /** The words after the station number in a display name. */
  function Label(k: StationKind): string {
    match k
    case Setpoint => "Setpoint"
    case ActualCurrent => "Actual Current"
    case StationState => "State"
    case SessionEnergy => "Session Energy"
  }

  function Unit(k: StationKind): Option<string> {
    match k
    case Setpoint => Some("A")
    case ActualCurrent => Some("A")
    case StationState => None
    case SessionEnergy => Some("kWh")
  }

  function ClassOf(k: StationKind): Option<DeviceClass> {
    match k
    case Setpoint => Some(Current)
    case ActualCurrent => Some(Current)
    case StationState => None
    case SessionEnergy => Some(Energy)
  }

  function StateClassOf(k: StationKind): Option<StateClass> {
    match k
    case Setpoint => Some(Measurement)
    case ActualCurrent => Some(Measurement)
    case StationState => None
    case SessionEnergy => Some(TotalIncreasing)
  }

  function Icon(k: StationKind): Option<string> {
    match k
    case Setpoint => Some("mdi:flash")
    case ActualCurrent => Some("mdi:flash")
    case StationState => Some("mdi:ev-station")
    case SessionEnergy => Some("mdi:battery-charging")
  }

  /** Reading `k` of station `sid`. */
  function StationSensor(sid: nat, k: StationKind): Descriptor {
    Descriptor("EVSE " + NatToString(sid) + " " + Label(k), StationId(sid, k), StationTopic(k, sid),
               Unit(k), ClassOf(k), StateClassOf(k), Icon(k))
  }

  /** The four readings of station `sid`, in the order of `Kinds()`. */
  function StationSensors(sid: nat): seq<Descriptor> {
    seq(4, j requires 0 <= j < 4 => StationSensor(sid, Kinds()[j]))
  }

  /** The sensors set up for `n` stations: the two global ones, then the
      readings of stations 1 to `n` in turn. */
  function Roster(n: nat): (r: seq<Descriptor>)
    ensures |r| == 2 + 4 * n
  {
    if n == 0 then [StatusSensor(), TotalAllocatedSensor()]
    else Roster(n - 1) + StationSensors(n)
  }

  /** The device classes whose sensors hold numbers. */
  predicate IsNumeric(dc: Option<DeviceClass>) {
    dc == Some(Current) || dc == Some(Energy)
  }

  /** What a sensor of device class `dc` holds after `payload` arrives. */
  function Decode(dc: Option<DeviceClass>, payload: string): (r: Option<NativeValue>)
    ensures IsNumeric(dc) ==> (r.Some? <==> ParseFloat(payload).Some?)
    ensures IsNumeric(dc) && r.Some? ==> r.value == Number(ParseFloat(payload).value)
    ensures !IsNumeric(dc) ==> r == Some(Text(payload))
  {
    if IsNumeric(dc) then
      match ParseFloat(payload)
      case Some(x) => Some(Number(x))
      case None => None
    else
      Some(Text(payload))
  }

  class MqttSensor {
    const name: string
    const uniqueId: string
    const topic: string
    const unit: Option<string>
    const deviceClass: Option<DeviceClass>
    const stateClass: Option<StateClass>
    const icon: Option<string>
    var value: Option<NativeValue>

    function Describe(): Descriptor {
      Descriptor(name, uniqueId, topic, unit, deviceClass, stateClass, icon)
    }

    /** A sensor holds nothing until its first message. */
    constructor (d: Descriptor)
      ensures Describe() == d && value == None
    {
      name, uniqueId, topic := d.name, d.uniqueId, d.topic;
      unit, deviceClass, stateClass, icon := d.unit, d.deviceClass, d.stateClass, d.icon;
      value := None;
    }

    /** A message on the sensor's topic replaces the value and nothing else. */
    method HandleMessage(payload: string)
      modifies this
      ensures value == Decode(deviceClass, payload)
    {
      if IsNumeric(deviceClass) {
        var parsed := ParseFloat(payload);
        if parsed.Some? {
          value := Some(Number(parsed.value));
        } else {
          value := None;
        }
      } else {
        value := Some(Text(payload));
      }
    }
  }

  /** Creates the sensors for `numStations` stations, in roster order. */
  method SetupSensors(numStations: nat) returns (entities: seq<MqttSensor>)
    ensures |entities| == |Roster(numStations)|
    ensures forall i :: 0 <= i < |entities| ==>
              fresh(entities[i]) && entities[i].Describe() == Roster(numStations)[i] && entities[i].value == None
  {
    var status := new MqttSensor(StatusSensor());
    var total := new MqttSensor(TotalAllocatedSensor());
    entities := [status, total];
    var sid := 1;
    while sid <= numStations
      invariant 1 <= sid <= numStations + 1
      invariant |entities| == |Roster(sid - 1)|
      invariant forall i :: 0 <= i < |entities| ==>
                  fresh(entities[i]) && entities[i].Describe() == Roster(sid - 1)[i] && entities[i].value == None
    {
      var station := NewStationSensors(sid);
      assert Roster(sid) == Roster(sid - 1) + StationSensors(sid);
      entities := entities + station;
      sid := sid + 1;
    }
  }

  /** The four new sensors of station `sid`, in the order of `Kinds()`. */
  method NewStationSensors(sid: nat) returns (station: seq<MqttSensor>)
    ensures |station| == 4
    ensures forall j :: 0 <= j < 4 ==>
              fresh(station[j]) && station[j].Describe() == StationSensors(sid)[j] && station[j].value == None
  {
    var ds := StationSensors(sid);
    var setpoint := new MqttSensor(ds[0]);
    var actual := new MqttSensor(ds[1]);
    var state := new MqttSensor(ds[2]);
    var energy := new MqttSensor(ds[3]);
    station := [setpoint, actual, state, energy];
  }

  // ------------------------------------------------------------ roster

  /** The two global sensors come first, whatever the number of stations. */
  lemma {:induction false} RosterGlobals(n: nat)
    ensures |Roster(n)| >= 2
    ensures Roster(n)[0] == StatusSensor() && Roster(n)[1] == TotalAllocatedSensor()
  {
    if n > 0 {
      RosterGlobals(n - 1);
    }
  }

  /** Every station 1..n has its four readings at their place in the roster. */
  lemma {:induction false} RosterStation(n: nat, sid: nat, j: nat)
    requires 1 <= sid <= n && j < 4
    ensures 2 + 4 * (sid - 1) + j < |Roster(n)|
    ensures Roster(n)[2 + 4 * (sid - 1) + j] == StationSensor(sid, Kinds()[j])
  {
    var i := 2 + 4 * (sid - 1) + j;
    var before, station := Roster(n - 1), StationSensors(n);
    assert Roster(n) == before + station;
    if sid < n {
      RosterStation(n - 1, sid, j);
      assert Roster(n)[i] == before[i];
    } else {
      assert Roster(n)[i] == station[j];
    }
  }

  /** Every roster entry after the globals is a reading of some station 1..n,
      so no other station number occurs. */
  lemma {:induction false} RosterAt(n: nat, i: nat) returns (sid: nat, j: nat)
    requires 2 <= i < |Roster(n)|
    ensures 1 <= sid <= n && j < 4 && i == 2 + 4 * (sid - 1) + j
    ensures Roster(n)[i] == StationSensor(sid, Kinds()[j])
  {
    if i < |Roster(n - 1)| {
      sid, j := RosterAt(n - 1, i);
    } else {
      sid, j := n, i - |Roster(n - 1)|;
    }
  }

  /** Identifier of the roster entry at `i`: globals by position, then (station, reading). */
  lemma RosterEntry(n: nat, i: nat) returns (sid: nat, j: nat)
    requires i < |Roster(n)|
    ensures i == 0 ==> Roster(n)[i] == StatusSensor()
    ensures i == 1 ==> Roster(n)[i] == TotalAllocatedSensor()
    ensures 2 <= i ==> 1 <= sid <= n && j < 4 && i == 2 + 4 * (sid - 1) + j
                       && Roster(n)[i] == StationSensor(sid, Kinds()[j])
  {
    RosterGlobals(n);
    if 2 <= i {
      sid, j := RosterAt(n, i);
    } else {
      sid, j := 0, 0;
    }
  }

  // ------------------------------------------------------------ unique ids

  lemma IdAfterPrefix(sid: nat, k: StationKind)
    ensures |StationId(sid, k)| >= 28
    ensures StationId(sid, k)[28..] == NatToString(sid) + ['_'] + IdSuffix(k)
  {
    assert |DeviceIdentifier + "_evse"| == 28;
    assert StationId(sid, k) == (DeviceIdentifier + "_evse") + (NatToString(sid) + ['_'] + IdSuffix(k));
  }

  /** The station number ends at the first `_` after `_evse`, and the suffix names the reading. */
  lemma StationIdInjective(s1: nat, k1: StationKind, s2: nat, k2: StationKind)
    ensures StationId(s1, k1) == StationId(s2, k2) <==> s1 == s2 && k1 == k2
  {
    if StationId(s1, k1) == StationId(s2, k2) {
      IdAfterPrefix(s1, k1);
      IdAfterPrefix(s2, k2);
      DigitsExclude(NatToString(s1), '_');
      DigitsExclude(NatToString(s2), '_');
      SplitAtSeparator(NatToString(s1), IdSuffix(k1), NatToString(s2), IdSuffix(k2), '_');
      NatToStringInjective(s1, s2);
    }
  }

  /** A station id continues `_e…` after the device identifier, the global
      ids `_s…` and `_t…`. */
  lemma StationIdNotGlobal(sid: nat, k: StationKind)
    ensures StationId(sid, k) != StatusSensor().uniqueId
    ensures StationId(sid, k) != TotalAllocatedSensor().uniqueId
  {
    StationIdLetter(sid, k);
    assert StatusSensor().uniqueId[24] == 's';
    assert TotalAllocatedSensor().uniqueId[24] == 't';
  }

  /** The character after `<device identifier>_` in a station id. */
  lemma StationIdLetter(sid: nat, k: StationKind)
    ensures |StationId(sid, k)| > 24 && StationId(sid, k)[24] == 'e'
  {
    var id := StationId(sid, k);
    assert id == DeviceIdentifier + "_evse" + (NatToString(sid) + "_" + IdSuffix(k));
  }

  /** Positions of two different entries name different (station, reading) pairs. */
  lemma StationSlotsDiffer(s1: nat, j1: nat, s2: nat, j2: nat)
    requires j1 < 4 && j2 < 4 && 1 <= s1 && 1 <= s2
    requires 2 + 4 * (s1 - 1) + j1 != 2 + 4 * (s2 - 1) + j2
    ensures s1 != s2 || Kinds()[j1] != Kinds()[j2]
  {
  }

  lemma StationSensorId(sid: nat, j: nat)
    requires j < 4
    ensures StationSensor(sid, Kinds()[j]).uniqueId == StationId(sid, Kinds()[j])
    ensures StationSensor(sid, Kinds()[j]).topic == StationTopic(Kinds()[j], sid)
  {
  }

  /** All unique ids in the roster are pairwise distinct. */
  lemma RosterIdsDistinct(n: nat)
    ensures forall i, j :: 0 <= i < j < |Roster(n)| ==> Roster(n)[i].uniqueId != Roster(n)[j].uniqueId
  {
    forall i, j | 0 <= i < j < |Roster(n)|
      ensures Roster(n)[i].uniqueId != Roster(n)[j].uniqueId
    {
      if i >= 2 {
        StationIdsDiffer(n, i, j);
      } else {
        GlobalIdDiffers(n, i, j);
      }
    }
  }

  lemma StationIdsDiffer(n: nat, i: nat, j: nat)
    requires 2 <= i < j < |Roster(n)|
    ensures Roster(n)[i].uniqueId != Roster(n)[j].uniqueId
  {
    var si, ki := RosterAt(n, i);
    var sj, kj := RosterAt(n, j);
    StationSlotsDiffer(si, ki, sj, kj);
    StationIdInjective(si, Kinds()[ki], sj, Kinds()[kj]);
    StationSensorId(si, ki);
    StationSensorId(sj, kj);
  }

  lemma GlobalIdDiffers(n: nat, i: nat, j: nat)
    requires i < 2 && i < j < |Roster(n)|
    ensures Roster(n)[i].uniqueId != Roster(n)[j].uniqueId
  {
    RosterGlobals(n);
    if j >= 2 {
      var sj, kj := RosterAt(n, j);
      StationIdNotGlobal(sj, Kinds()[kj]);
      StationSensorId(sj, kj);
    }
  }

  /** All topics in the roster are pairwise distinct. */
  lemma RosterTopicsDistinct(n: nat)
    ensures forall i, j :: 0 <= i < j < |Roster(n)| ==> Roster(n)[i].topic != Roster(n)[j].topic
  {
    forall i, j | 0 <= i < j < |Roster(n)|
      ensures Roster(n)[i].topic != Roster(n)[j].topic
    {
      if i >= 2 {
        StationTopicsDiffer(n, i, j);
      } else {
        GlobalTopicDiffers(n, i, j);
      }
    }
  }

  lemma StationTopicsDiffer(n: nat, i: nat, j: nat)
    requires 2 <= i < j < |Roster(n)|
    ensures Roster(n)[i].topic != Roster(n)[j].topic
  {
    var si, ki := RosterAt(n, i);
    var sj, kj := RosterAt(n, j);
    StationSlotsDiffer(si, ki, sj, kj);
    StationTopicInjective(Kinds()[ki], si, Kinds()[kj], sj);
    StationSensorId(si, ki);
    StationSensorId(sj, kj);
  }

  lemma GlobalTopicDiffers(n: nat, i: nat, j: nat)
    requires i < 2 && i < j < |Roster(n)|
    ensures Roster(n)[i].topic != Roster(n)[j].topic
  {
    // Global topics start with `loadmanager/`, station topics with `evse/`.
    RosterGlobals(n);
    assert Roster(n)[i].topic[0] == 'l';
    if j >= 2 {
      var sj, kj := RosterAt(n, j);
      StationSensorId(sj, kj);
      assert Roster(n)[j].topic[0] == 'e';
    }
  }

  // ------------------------------------------------------------ units

  /** Current sensors measure in amperes, energy sensors in kilowatt hours,
      and the sensors without a device class have no unit. */
  predicate UnitMatchesClass(d: Descriptor) {
    && (d.deviceClass == Some(Current) <==> d.unit == Some("A"))
    && (d.deviceClass == Some(Energy) <==> d.unit == Some("kWh"))
    && (d.deviceClass == None <==> d.unit == None)
  }

  lemma RosterUnits(n: nat)
    ensures forall i :: 0 <= i < |Roster(n)| ==> UnitMatchesClass(Roster(n)[i])
  {
    forall i | 0 <= i < |Roster(n)|
      ensures UnitMatchesClass(Roster(n)[i])
    {
      var sid, j := RosterEntry(n, i);
    }
  }
}
