/** The integration's constants: the MQTT topics shared with the load-manager
    add-on, the per-station topic templates and the device identity that
    prefixes every unique id. */
module Const {
  import opened Wrappers
  import opened TextCodec

  // Global topics, as the add-on publishes and subscribes them.
  const TopicMode: string := "loadmanager/mode"
  const TopicModeSet: string := "loadmanager/mode/set"
  const TopicTotalAllocated: string := "loadmanager/total_allocated"
  const TopicStatus: string := "loadmanager/status"
  const TopicHysteresis: string := "loadmanager/config/hysteresis"
  const TopicHysteresisSet: string := "loadmanager/config/hysteresis/set"
  const TopicRampDelay: string := "loadmanager/config/ramp_delay"
  const TopicRampDelaySet: string := "loadmanager/config/ramp_delay/set"

  const DeviceIdentifier: string := "openevse_pv_loadmanager"

  /** The eight global topics in declaration order. */
  function GlobalTopics(): seq<string> {
    [TopicMode, TopicModeSet, TopicTotalAllocated, TopicStatus,
     TopicHysteresis, TopicHysteresisSet, TopicRampDelay, TopicRampDelaySet]
  }

  /** The four per-station readings, one topic template each. */
  datatype StationKind = Setpoint | ActualCurrent | StationState | SessionEnergy

  /** The template of a per-station topic, with `{}` where the station
      number goes: `evse/{}/setpoint`, `evse/{}/actual_current`,
      `evse/{}/state` and `evse/{}/energy`. */
  function Template(k: StationKind): string {
    "evse/" + "{}" + ("/" + Leaf(k))
  }

  /** The last path segment of a per-station topic. */
  function Leaf(k: StationKind): string {
    match k
    case Setpoint => "setpoint"
    case ActualCurrent => "actual_current"
    case StationState => "state"
    case SessionEnergy => "energy"
  }

  // ------------------------------------------------------------ str.format

  /** Number of `{}` replacement fields in `t`, read left to right. */
  function Placeholders(t: string): nat {
    if |t| < 2 then 0
    else if t[0] == '{' && t[1] == '}' then 1 + Placeholders(t[2..])
    else Placeholders(t[1..])
  }

  /** `t` with every `{}` field replaced by `arg`. */
  function Fill(t: string, arg: string): string {
    if |t| < 2 then t
    else if t[0] == '{' && t[1] == '}' then arg + Fill(t[2..], arg)
    else [t[0]] + Fill(t[1..], arg)
  }

  /** Python's `t.format(arg)` for templates whose only braces are `{}`
      fields: each field takes the next positional argument, so a second
      field has no argument and `format` raises IndexError (None here).
      Escaped braces `{{`/`}}`, named fields and lone braces are outside
      this scope; every template of the integration has exactly one `{}`. */
  function Format(t: string, arg: string): (r: Option<string>)
    ensures Placeholders(t) > 1 <==> r == None
    ensures Placeholders(t) == 0 ==> r == Some(t)
    ensures r.Some? ==> |r.value| == |t| + Placeholders(t) * (|arg| - 2)
  {
    FillLength(t, arg);
    FillNoField(t, arg);
    if Placeholders(t) <= 1 then Some(Fill(t, arg)) else None
  }

  /** Each field replaced grows the text by the argument less the two braces. */
  lemma {:induction false} FillLength(t: string, arg: string)
    ensures |Fill(t, arg)| == |t| + Placeholders(t) * (|arg| - 2)
    decreases |t|
  {
    if |t| >= 2 {
      if t[0] == '{' && t[1] == '}' {
        FillLength(t[2..], arg);
        var p := Placeholders(t[2..]);
        assert (1 + p) * (|arg| - 2) == (|arg| - 2) + p * (|arg| - 2);
      } else {
        FillLength(t[1..], arg);
      }
    }
  }

  /** A text without fields is left as it is. */
  lemma {:induction false} FillNoField(t: string, arg: string)
    ensures Placeholders(t) == 0 ==> Fill(t, arg) == t
    decreases |t|
  {
    if |t| >= 2 && Placeholders(t) == 0 {
      FillNoField(t[1..], arg);
      assert t == [t[0]] + t[1..];
    }
  }

  /** Text with no opening brace: no field and nothing to replace. */
  lemma {:induction false} FillBraceFree(s: string, arg: string)
    requires '{' !in s
    ensures Placeholders(s) == 0 && Fill(s, arg) == s
    decreases |s|
  {
    if |s| >= 2 {
      assert s[0] != '{';
      assert s == [s[0]] + s[1..];
      FillBraceFree(s[1..], arg);
    }
  }

  /** A character other than `{` is copied as it is. */
  lemma FillStep(c: char, rest: string, arg: string)
    requires c != '{' && |rest| >= 1
    ensures Placeholders([c] + rest) == Placeholders(rest)
    ensures Fill([c] + rest, arg) == [c] + Fill(rest, arg)
  {
    assert ([c] + rest)[1..] == rest;
  }

  /** A template `p + "{}" + s` with no other brace has exactly one field,
      and formatting it puts `arg` between `p` and `s`. */
  lemma {:induction false} FillAround(p: string, s: string, arg: string)
    requires '{' !in p && '{' !in s
    ensures Placeholders(p + "{}" + s) == 1
    ensures Fill(p + "{}" + s, arg) == p + arg + s
    decreases |p|
  {
    var t := p + "{}" + s;
    if p == [] {
      assert t == "{}" + s && t[2..] == s;
      FillBraceFree(s, arg);
    } else {
      var rest := p[1..] + "{}" + s;
      assert t == [p[0]] + rest;
      FillAround(p[1..], s, arg);
      FillStep(p[0], rest, arg);
      assert p == [p[0]] + p[1..];
    }
  }

  /** The topic of reading `k` of station `sid`: its template formatted with
      the decimal station number. */
  function StationTopic(k: StationKind, sid: nat): (t: string)
    ensures t == "evse/" + NatToString(sid) + "/" + Leaf(k)
  {
    var n := NatToString(sid);
    DigitsExclude(n, '{');
    FillAround("evse/", "/" + Leaf(k), n);
    assert "evse/" + n + ("/" + Leaf(k)) == "evse/" + n + "/" + Leaf(k);
    Fill(Template(k), n)
  }

  /** The station topic is what Python's `template.format(sid)` returns. */
  lemma StationTopicFormats(k: StationKind, sid: nat)
    ensures Format(Template(k), NatToString(sid)) == Some(StationTopic(k, sid))
  {
    TemplatesHaveOnePlaceholder(k);
  }

  // ------------------------------------------------------------ properties

  /** Each per-station template holds exactly one `{}` field, so formatting it
      with one station number never raises. */
  lemma TemplatesHaveOnePlaceholder(k: StationKind)
    ensures Placeholders(Template(k)) == 1
  {
    FillAround("evse/", "/" + Leaf(k), "");
  }

  /** Each command topic is its state topic followed by `/set`. */
  lemma SetTopicsExtendStateTopics()
    ensures TopicModeSet == TopicMode + "/set"
    ensures TopicHysteresisSet == TopicHysteresis + "/set"
    ensures TopicRampDelaySet == TopicRampDelay + "/set"
  {
  }

  /** The eight global topics are pairwise distinct. */
  lemma GlobalTopicsDistinct()
    ensures |GlobalTopics()| == 8
    ensures forall i, j :: 0 <= i < j < |GlobalTopics()| ==> GlobalTopics()[i] != GlobalTopics()[j]
  {
  }

  /** Global topics live under `loadmanager/`, per-station topics under
      `evse/`, so no resolved station topic is a global one. */
  lemma StationTopicNotGlobal(k: StationKind, sid: nat)
    ensures StationTopic(k, sid) !in GlobalTopics()
  {
    var t := StationTopic(k, sid);
    assert t[0] == 'e';
    assert forall g :: g in GlobalTopics() ==> g[0] == 'l';
  }

  /** Distinct leaves name distinct readings. */
  lemma LeafInjective(k1: StationKind, k2: StationKind)
    ensures Leaf(k1) == Leaf(k2) <==> k1 == k2
  {
  }

  /** Resolved station topics are distinct for distinct (reading, station) pairs. */
  lemma StationTopicInjective(k1: StationKind, sid1: nat, k2: StationKind, sid2: nat)
    ensures StationTopic(k1, sid1) == StationTopic(k2, sid2) <==> k1 == k2 && sid1 == sid2
  {
    if StationTopic(k1, sid1) == StationTopic(k2, sid2) {
      TopicAfterPrefix(k1, sid1);
      TopicAfterPrefix(k2, sid2);
      NumberThenLeaf(k1, sid1, k2, sid2);
    }
  }

  lemma TopicAfterPrefix(k: StationKind, sid: nat)
    ensures |StationTopic(k, sid)| >= 5
    ensures StationTopic(k, sid)[5..] == NatToString(sid) + ['/'] + Leaf(k)
  {
    AfterPrefix("evse/", NatToString(sid), "/", Leaf(k));
  }

  /** Dropping a prefix leaves the rest of a concatenation. */
  lemma AfterPrefix(p: string, x: string, y: string, z: string)
    ensures (p + x + y + z)[|p|..] == x + y + z
  {
    assert p + x + y + z == p + (x + y + z);
  }

  /** The station number ends at the first `/`, which the leaf follows. */
  lemma NumberThenLeaf(k1: StationKind, sid1: nat, k2: StationKind, sid2: nat)
    requires NatToString(sid1) + ['/'] + Leaf(k1) == NatToString(sid2) + ['/'] + Leaf(k2)
    ensures k1 == k2 && sid1 == sid2
  {
    DigitsExclude(NatToString(sid1), '/');
    DigitsExclude(NatToString(sid2), '/');
    SplitAtSeparator(NatToString(sid1), Leaf(k1), NatToString(sid2), Leaf(k2), '/');
    NatToStringInjective(sid1, sid2);
    LeafInjective(k1, k2);
  }
}
