/** The entities of all three platforms together: the sensor roster, the two
    configuration numbers and the mode switch share one device, so their
    unique ids must not collide. */
module Integration {
  import opened Sensor
  import opened Number
  import opened Switch

  /** The unique ids of the number and switch entities. */
  function OtherIds(): seq<string> {
    [HysteresisSpec().uniqueId, RampDelaySpec().uniqueId, ModeSwitchId]
  }

  /** Every id is `<device identifier>_` followed by a word whose first letter
      tells the entities apart: `s`tatus, `t`otal, `e`vse for sensors,
      `h`ysteresis, `r`amp delay and `m`ode for the others. */
  lemma RosterIdNotOther(n: nat, i: nat)
    requires i < |Roster(n)|
    ensures Roster(n)[i].uniqueId !in OtherIds()
  {
    var others := OtherIds();
    assert others[0][24] == 'h' && others[1][24] == 'r' && others[2][24] == 'm';
    RosterGlobals(n);
    if i >= 2 {
      var sid, j := RosterAt(n, i);
      StationSensorId(sid, j);
      StationIdLetter(sid, Kinds()[j]);
    } else {
      assert Roster(n)[i].uniqueId[24] in {'s', 't'};
    }
  }

  lemma OtherIdsDistinct()
    ensures forall a, b :: 0 <= a < b < |OtherIds()| ==> OtherIds()[a] != OtherIds()[b]
  {
    var others := OtherIds();
    assert others[0][24] == 'h' && others[1][24] == 'r' && others[2][24] == 'm';
  }

  /** All unique ids of the integration's entities are pairwise distinct. */
  lemma AllIdsDistinct(n: nat)
    ensures forall i, j :: 0 <= i < j < |Roster(n)| ==> Roster(n)[i].uniqueId != Roster(n)[j].uniqueId
    ensures forall i :: 0 <= i < |Roster(n)| ==> Roster(n)[i].uniqueId !in OtherIds()
    ensures forall a, b :: 0 <= a < b < |OtherIds()| ==> OtherIds()[a] != OtherIds()[b]
  {
    RosterIdsDistinct(n);
    OtherIdsDistinct();
    forall i | 0 <= i < |Roster(n)|
      ensures Roster(n)[i].uniqueId !in OtherIds()
    {
      RosterIdNotOther(n, i);
    }
  }
}
