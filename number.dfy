/** The two configuration numbers of the load manager, the hysteresis
    threshold (amperes) and the ramp-up delay (seconds). Each mirrors a value
    the add-on reports on a state topic and sends changes to the matching
    `/set` topic. The two entity classes of the integration differ only in
    their declared metadata, so one class with two named constructors models
    both. */
module Number {
  import opened Wrappers
  import opened TextCodec
  import opened Const
  import opened Mqtt

  /** What a number entity declares about itself. */
  datatype NumberSpec = NumberSpec(
    name: string,
    uniqueId: string,
    minValue: real,
    maxValue: real,
    step: real,
    unit: string,
    stateTopic: string,
    setTopic: string,
    initial: real)

  function HysteresisSpec(): NumberSpec {
    NumberSpec("Hysteresis Threshold", DeviceIdentifier + "_hysteresis",
               0.0, 10.0, 0.5, "A", TopicHysteresis, TopicHysteresisSet, 2.0)
  }

  function RampDelaySpec(): NumberSpec {
    NumberSpec("Ramp-Up Delay", DeviceIdentifier + "_ramp_delay",
               0.0, 120.0, 5.0, "s", TopicRampDelay, TopicRampDelaySet, 30.0)
  }

  predicate InRange(spec: NumberSpec, v: real) {
    spec.minValue <= v <= spec.maxValue
  }

  /** `v` is a whole number of steps above the minimum. */
  predicate OnGrid(spec: NumberSpec, v: real)
    requires spec.step > 0.0
  {
    var steps := (v - spec.minValue) / spec.step;
    steps.Floor as real == steps
  }

  /** The value after a message: the number `float()` reads from the payload,
      or the previous value when it raises. */
  function NextValue(value: real, payload: string): (r: real)
    ensures r == value || ParseFloat(payload) == Some(r)
  {
    match ParseFloat(payload)
    case Some(x) => x
    case None => value
  }

  class ConfigNumber {
    const spec: NumberSpec
    var value: real

    constructor Hysteresis()
      ensures spec == HysteresisSpec() && value == spec.initial
    {
      spec := HysteresisSpec();
      value := 2.0;
    }

    constructor RampDelay()
      ensures spec == RampDelaySpec() && value == spec.initial
    {
      spec := RampDelaySpec();
      value := 30.0;
    }

    /** A message on the entity's state topic. A payload that parses replaces
        the value, with no clamping to the declared range; any other payload
        is dropped and the value stays. */
    method HandleMessage(payload: string)
      modifies this
      ensures value == NextValue(old(value), payload)
    {
      var parsed := ParseFloat(payload);
      if parsed.Some? {
        value := parsed.value;
      }
    }

    /** Asks the add-on for a new value: publishes `str(value)` to the set
        topic and leaves the local value to the add-on's report. */
    method SetNativeValue(d: Decimal, bus: Broker)
      modifies bus
      ensures bus.outbox == old(bus.outbox) + [Message(spec.setTopic, Render(d))]
      ensures value == old(value)
    {
      bus.Publish(spec.setTopic, Render(d));
    }
  }

  // ------------------------------------------------------------ properties

  /** Both defaults lie within their declared range and on their step grid. */
  lemma InitialValuesValid()
    ensures HysteresisSpec().initial == 2.0 && RampDelaySpec().initial == 30.0
    ensures InRange(HysteresisSpec(), HysteresisSpec().initial)
    ensures OnGrid(HysteresisSpec(), HysteresisSpec().initial)
    ensures InRange(RampDelaySpec(), RampDelaySpec().initial)
    ensures OnGrid(RampDelaySpec(), RampDelaySpec().initial)
  {
    assert (2.0 - 0.0) / 0.5 == 4.0;
    assert (30.0 - 0.0) / 5.0 == 6.0;
  }

  /** A parsed payload becomes the value; an unparsable one leaves it. */
  lemma NextValueCases(value: real, payload: string)
    ensures ParseFloat(payload).Some? ==> NextValue(value, payload) == ParseFloat(payload).value
    ensures ParseFloat(payload).None? ==> NextValue(value, payload) == value
  {
  }

  /** The handler does not clamp: "50" on the hysteresis topic stores 50,
      five times the declared maximum. */
  lemma OutOfRangeStored(value: real)
    ensures NextValue(value, "50") == 50.0
    ensures !InRange(HysteresisSpec(), NextValue(value, "50"))
  {
    assert NatToString(50) == "50";
    ParseWholeNumber(50);
  }

  /** After `SetNativeValue(d)`, the add-on's report of the published text
      gives back exactly the requested number. */
  lemma EchoRestores(value: real, d: Decimal)
    ensures NextValue(value, Render(d)) == Value(d)
  {
    RenderRoundTrip(d);
  }

  /** The value after a run of messages, oldest first. */
  function Replay(value: real, payloads: seq<string>): real
    decreases |payloads|
  {
    if payloads == [] then value else Replay(NextValue(value, payloads[0]), payloads[1..])
  }

  /** The number in the newest payload that parses, if any does. */
  function LastParsed(payloads: seq<string>): Option<real>
    decreases |payloads|
  {
    if payloads == [] then None
    else match ParseFloat(payloads[|payloads| - 1])
      case Some(x) => Some(x)
      case None => LastParsed(payloads[..|payloads| - 1])
  }

  lemma {:induction false} ReplaySnoc(value: real, payloads: seq<string>, p: string)
    ensures Replay(value, payloads + [p]) == NextValue(Replay(value, payloads), p)
    decreases |payloads|
  {
    if payloads != [] {
      assert (payloads + [p])[1..] == payloads[1..] + [p];
      ReplaySnoc(NextValue(value, payloads[0]), payloads[1..], p);
    } else {
      assert [p][1..] == [];
    }
  }

  /** After a run of messages the value is the newest number that parsed,
      or the value before the run when none did. */
  lemma {:induction false} ReplayKeepsLastParsed(value: real, payloads: seq<string>)
    ensures Replay(value, payloads) == match LastParsed(payloads) case Some(x) => x case None => value
    decreases |payloads|
  {
    if payloads != [] {
      var init, p := payloads[..|payloads| - 1], payloads[|payloads| - 1];
      assert payloads == init + [p];
      ReplaySnoc(value, init, p);
      ReplayKeepsLastParsed(value, init);
    }
  }

  /** The hysteresis and ramp-delay entities never share a topic, and each
      commands on its own state topic followed by `/set`. */
  lemma TopicsSeparate()
    ensures HysteresisSpec().setTopic == HysteresisSpec().stateTopic + "/set"
    ensures RampDelaySpec().setTopic == RampDelaySpec().stateTopic + "/set"
    ensures HysteresisSpec().stateTopic !in {RampDelaySpec().stateTopic, RampDelaySpec().setTopic}
    ensures HysteresisSpec().setTopic !in {RampDelaySpec().stateTopic, RampDelaySpec().setTopic}
  {
    SetTopicsExtendStateTopics();
  }
}
