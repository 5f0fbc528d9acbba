/** The load-manager mode switch: on is PV+Grid (the full station current is
    available), off is PV-Only (only the solar surplus). The add-on reports
    the mode on `loadmanager/mode`; the switch commands it on
    `loadmanager/mode/set`. */
module Switch {
  import opened TextCodec
  import opened Const
  import opened Mqtt

  /** The payload that means PV+Grid, both as reported and as commanded. */
  const TokenOn: string := "pv_plus_grid"
  /** The payload the switch sends for PV-Only. */
  const TokenOff: string := "pv_only"
  /** The switch's unique id. */
  const ModeSwitchId: string := DeviceIdentifier + "_mode"

  /** Whether a payload on the mode topic reports PV+Grid: its text with the
      surrounding whitespace removed and lowercased is the on token. */
  predicate SelectsGrid(payload: string)
    ensures SelectsGrid(payload) ==> |Strip(payload)| == |TokenOn|
  {
    Lower(Strip(payload)) == TokenOn
  }

  class ModeSwitch {
    const name: string
    const uniqueId: string
    var isOn: bool

    /** A new switch reports PV+Grid until the first message arrives. */
    constructor ()
      ensures isOn
      ensures name == "PV Load Manager Mode" && uniqueId == ModeSwitchId
    {
      name := "PV Load Manager Mode";
      uniqueId := ModeSwitchId;
      isOn := true;
    }

    /** A message on `loadmanager/mode`. The new state depends on the payload
        alone, so handling the same payload again changes nothing. */
    method HandleMessage(payload: string)
      modifies this
      ensures isOn == SelectsGrid(payload)
    {
      var text := Lower(Strip(payload));
      isOn := text == TokenOn;
    }

    /** Commands PV+Grid; the state changes only when the add-on reports back. */
    method TurnOn(bus: Broker)
      modifies bus
      ensures bus.outbox == old(bus.outbox) + [Message(TopicModeSet, TokenOn)]
      ensures isOn == old(isOn)
    {
      bus.Publish(TopicModeSet, TokenOn);
    }

    /** Commands PV-Only; the state changes only when the add-on reports back. */
    method TurnOff(bus: Broker)
      modifies bus
      ensures bus.outbox == old(bus.outbox) + [Message(TopicModeSet, TokenOff)]
      ensures isOn == old(isOn)
    {
      bus.Publish(TopicModeSet, TokenOff);
    }
  }

  // ------------------------------------------------------------ properties

  /** Text that is already lower case is left alone by `lower()`. */
  lemma LowerOfLower(s: string)
    requires forall i :: 0 <= i < |s| ==> !('A' <= s[i] <= 'Z')
    ensures Lower(s) == s
  {
  }

  /** The two command tokens read back as the states they command, and an
      empty payload reads as PV-Only. */
  lemma TokenRoundTrip()
    ensures SelectsGrid(TokenOn)
    ensures !SelectsGrid(TokenOff)
    ensures !SelectsGrid("")
  {
    OnTokenReadsOn();
    OffTokenReadsOff();
    assert Strip("") == [];
  }

  lemma OnTokenReadsOn()
    ensures SelectsGrid(TokenOn)
  {
    StripUnpadded(TokenOn);
    LowerOfLower(TokenOn);
  }

  lemma OffTokenReadsOff()
    ensures !SelectsGrid(TokenOff)
  {
    StripUnpadded(TokenOff);
    LowerOfLower(TokenOff);
  }

  /** A character that lowers to a letter is not whitespace. */
  lemma LowersToLetter(c: char)
    requires 'a' <= LowerChar(c) <= 'z'
    ensures !IsSpace(c)
  {
  }

  /** Any spelling of the on token in any letter case, with any whitespace
      around it, reports PV+Grid. */
  lemma PaddedTokenSelectsGrid(a: string, q: string, b: string)
    requires AllSpace(a) && AllSpace(b) && Lower(q) == TokenOn
    ensures SelectsGrid(a + q + b)
  {
    assert LowerChar(q[0]) == Lower(q)[0] == 'p';
    assert LowerChar(q[|q| - 1]) == Lower(q)[|q| - 1] == 'd';
    LowersToLetter(q[0]);
    LowersToLetter(q[|q| - 1]);
    StripPadded(a, q, b);
  }

  /** The state after a run of messages on the mode topic, oldest first. */
  function ModeReplay(isOn: bool, payloads: seq<string>): bool
    decreases |payloads|
  {
    if payloads == [] then isOn else ModeReplay(SelectsGrid(payloads[0]), payloads[1..])
  }

  /** Only the newest message counts: the state after a non-empty run is what
      its last payload reports, whatever came before. */
  lemma {:induction false} ModeReplayLast(isOn: bool, payloads: seq<string>)
    requires payloads != []
    ensures ModeReplay(isOn, payloads) == SelectsGrid(payloads[|payloads| - 1])
    decreases |payloads|
  {
    if |payloads| > 1 {
      ModeReplayLast(SelectsGrid(payloads[0]), payloads[1..]);
    }
  }

  /** Handling the same payload twice leaves the state of handling it once. */
  lemma RepeatedMessage(isOn: bool, payload: string)
    ensures ModeReplay(isOn, [payload, payload]) == ModeReplay(isOn, [payload])
  {
    ModeReplayLast(isOn, [payload, payload]);
    ModeReplayLast(isOn, [payload]);
  }

  /** Conversely, a payload that reports PV+Grid is the on token in some
      letter case with only whitespace around it. */
  lemma SelectsGridPadded(payload: string) returns (i: nat, j: nat)
    requires SelectsGrid(payload)
    ensures i <= j <= |payload|
    ensures AllSpace(payload[..i]) && AllSpace(payload[j..])
    ensures Lower(payload[i..j]) == TokenOn
  {
    i, j := StripSlice(payload);
  }
}
