// The local control indices that QUnit's controlled `INT` hands to the
// unit's `CINC` once the controls and the target range share one unit: each
// control qubit must be named by its slot in that unit.
module QUnitControls {
  import opened Wrappers
  import opened Shards

  /** Every control names a qubit of the map. */
  predicate ControlsInRange(s: seq<Shard>, controls: seq<nat>)
  {
    forall k :: 0 <= k < |controls| ==> controls[k] < |s|
  }

  /**
   * The local controls as written: position k takes the slot of logical
   * qubit k, whatever control sits at position k.
   */
  function LocalControlsAsWritten(s: seq<Shard>, controls: seq<nat>): (r: seq<nat>)
    requires |controls| <= |s|
    ensures |r| == |controls|
    ensures forall k :: 0 <= k < |r| ==> r[k] == s[k].mapped
  {
    seq(|controls|, k requires 0 <= k < |controls| => s[k].mapped)
  }

  /** The local controls as intended: position k takes the slot of control k. */
  function LocalControls(s: seq<Shard>, controls: seq<nat>): (r: seq<nat>)
    requires ControlsInRange(s, controls)
    ensures |r| == |controls|
    ensures forall k :: 0 <= k < |r| ==> r[k] == s[controls[k]].mapped
  {
    seq(|controls|, k requires 0 <= k < |controls| => s[controls[k]].mapped)
  }

  /** Every control and every qubit of the target range is held by unit u. */
  predicate SharedUnit(s: seq<Shard>, controls: seq<nat>, start: nat, length: nat, u: UnitId)
    requires ControlsInRange(s, controls) && start + length <= |s|
  {
    (forall k :: 0 <= k < |controls| ==> s[controls[k]].unit == Some(u))
    && (forall j :: start <= j < start + length ==> s[j].unit == Some(u))
  }

  /**
   * With the map injective and no control inside the target range, the
   * intended local controls name slots of the unit that hold no target qubit,
   * and distinct controls name distinct slots.
   */
  lemma {:induction false} LocalControlsAvoidTarget(s: seq<Shard>, controls: seq<nat>, start: nat, length: nat, u: UnitId)
    requires Injective(s) && ControlsInRange(s, controls) && start + length <= |s|
    requires SharedUnit(s, controls, start, length, u)
    requires forall k :: 0 <= k < |controls| ==> controls[k] < start || start + length <= controls[k]
    ensures var r := LocalControls(s, controls);
      forall k, j :: 0 <= k < |r| && start <= j < start + length ==> r[k] != s[j].mapped
    ensures var r := LocalControls(s, controls);
      forall k, l :: 0 <= k < |r| && 0 <= l < |r| && controls[k] != controls[l] ==> r[k] != r[l]
  {
    var r := LocalControls(s, controls);
    forall k, j | 0 <= k < |r| && start <= j < start + length
      ensures r[k] != s[j].mapped
    {
      assert s[controls[k]].unit == Some(u) == s[j].unit;
    }
    forall k, l | 0 <= k < |r| && 0 <= l < |r| && controls[k] != controls[l]
      ensures r[k] != r[l]
    {
      assert s[controls[k]].unit == Some(u) == s[controls[l]].unit;
    }
  }

  /** A shard held by unit u at slot m. */
  function Held(u: UnitId, m: nat): Shard
  {
    Shard(Some(u), m, PauliZ, true, true, 0.5, 0.5)
  }

  /**
   * Three qubits of one unit in slots 0, 1, 2, the target range the first
   * two and the control the third: as written the single local control is
   * slot 0, a slot of the target; as intended it is slot 2.
   */
  lemma LocalControlsAsWrittenHitsTarget()
    ensures var s, controls := [Held(0, 0), Held(0, 1), Held(0, 2)], [2];
      Injective(s) && SharedUnit(s, controls, 0, 2, 0)
      && LocalControlsAsWritten(s, controls) == [s[0].mapped]
      && LocalControls(s, controls) == [2]
  {
    var s, controls := [Held(0, 0), Held(0, 1), Held(0, 2)], [2];
    assert forall i :: 0 <= i < |s| ==> s[i].mapped == i;
    assert LocalControlsAsWritten(s, controls) == [s[0].mapped];
    assert LocalControls(s, controls) == [2];
  }
}
