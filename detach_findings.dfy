// Detach as the source writes it, on two points where the shard map it
// leaves breaks the invariant, each shown on a three-qubit register whose
// qubits all sit in one unit.  The rest of the model (QUnit.Detach) follows
// the corrected behaviour: Rest and DestOf in module Detaching.
module DetachFindings {
  import opened Wrappers
  import opened Shards
  import opened Detaching
  import opened DetachWalk

  /**
   * The destination as the source fills it: each detached shard copied as
   * the walk leaves it, on its new unit but at its slot in the old one.
   */
  ghost function DestAsWritten(s: seq<Shard>, c: map<UnitId, nat>, start: nat, length: nat, made: map<UnitId, UnitId>): (d: seq<Shard>)
    requires start + length <= |s|
    ensures |d| == length
    ensures forall k :: 0 <= k < length ==> d[k].mapped == s[start + k].mapped || d[k] == Released(s[start + k])
  {
    var sub := SubMap(s, start, length);
    var d := seq(length, k requires 0 <= k < length => Taken(s[start + k], c, sub, made, true));
    assert forall k :: 0 <= k < length ==> d[k] == Taken(s[start + k], c, sub, made, true);
    d
  }

  /**
   * The lower end of each unit's block as the source reads it: the slot of
   * the unit's first detached shard after the walk, which is 0 once that
   * shard has been released (the lone detached qubit of a larger unit,
   * with a destination).
   */
  ghost function ThrAsWritten(s: seq<Shard>, c: map<UnitId, nat>, start: nat, length: nat, withDest: bool): (t: map<UnitId, nat>)
    requires start + length <= |s|
    ensures t.Keys == SubMap(s, start, length).Keys
    ensures forall u :: u in t && t[u] != ThrMap(s, start, length)[u] ==> withDest && t[u] == 0
  {
    var sub, thr := SubMap(s, start, length), ThrMap(s, start, length);
    map u | u in sub :: if withDest && u in c && sub[u] == 1 && sub[u] != c[u] then 0 else thr[u]
  }

  /** The release of the kept qubit as the source searches for it: by the slot computed from that threshold. */
  function FreedAsWritten(t: Shard, c: map<UnitId, nat>, sub: map<UnitId, nat>, thr: map<UnitId, nat>): (r: Shard)
    ensures r == t || (t.unit.Some? && r == Released(t))
    ensures r != t ==> t.unit.value in sub && t.unit.value in c && sub[t.unit.value] + 1 == c[t.unit.value]
  {
    if t.unit.Some? && t.unit.value in sub && t.unit.value in c && t.unit.value in thr
       && sub[t.unit.value] + 1 == c[t.unit.value]
       && t.mapped == (if thr[t.unit.value] == 0 then sub[t.unit.value] else 0)
    then Released(t) else t
  }

  /** The shards left behind as the source computes them. */
  ghost function RestAsWritten(s: seq<Shard>, c: map<UnitId, nat>, start: nat, length: nat, withDest: bool): (r: seq<Shard>)
    requires start + length <= |s|
    ensures |r| == |s| - length
    ensures forall j :: 0 <= j < |r| ==> r[j].unit.None? || r[j].unit == (s[..start] + s[start + length..])[j].unit
  {
    var sub, thr := SubMap(s, start, length), ThrAsWritten(s, c, start, length, withDest);
    var kept := s[..start] + s[start + length..];
    seq(|kept|, j requires 0 <= j < |kept| => Shifted(FreedAsWritten(kept[j], c, sub, thr), sub, thr))
  }

  /** Qubit k of the example register: slot k of unit 0. */
  function At(k: nat): Shard
  {
    Shard(Some(0), k, PauliZ, false, false, 1.0, 0.0)
  }

  /** The example register: three qubits in one three-qubit unit, in order. */
  function Three(): seq<Shard>
  {
    [At(0), At(1), At(2)]
  }

  lemma ThreeSubMaps()
    ensures SubMap(Three(), 1, 2) == map[0 := 2] && ThrMap(Three(), 1, 2) == map[0 := 1]
    ensures SubMap(Three(), 2, 1) == map[0 := 1] && ThrMap(Three(), 2, 1) == map[0 := 2]
  {
    var s := Three();
    assert s[1..3] == [At(1), At(2)];
    assert s[2..3] == [At(2)];
    assert UnitsOf(s[1..3]) == {0} by {
      assert s[1..3][0].unit == Some(0);
    }
    assert UnitsOf(s[2..3]) == {0} by {
      assert s[2..3][0].unit == Some(0);
    }
    assert CountIn([At(1), At(2)], 0) == 2 by {
      assert [At(1), At(2)][..1] == [At(1)];
      assert [At(1)][..0] == [];
    }
    assert CountIn([At(2)], 0) == 1 by {
      assert [At(2)][..0] == [];
    }
    assert First(s, 0, 1) == 1;
    assert First(s, 0, 2) == 2;
  }

  /**
   * As written: Decompose(1, 2) of the example gives the
   * destination shards slots 1 and 2 of a new two-qubit unit, one past its
   * end; rebased (DestOf), they are slots 0 and 1.
   */
  lemma DestAsWrittenOutOfRange()
    ensures var made, cd := map[0 := 1], map[1 := 2];
      && !Bounded(DestAsWritten(Three(), map[0 := 3], 1, 2, made), cd)
      && DestOf(Three(), map[0 := 3], 1, 2, made) == [At(0).(unit := Some(1)), At(1).(unit := Some(1))]
      && Bounded(DestOf(Three(), map[0 := 3], 1, 2, made), cd)
  {
    ThreeSubMaps();
    var made, cd := map[0 := 1], map[1 := 2];
    var d := DestAsWritten(Three(), map[0 := 3], 1, 2, made);
    assert d[1] == At(2).(unit := Some(1));
    var e := DestOf(Three(), map[0 := 3], 1, 2, made);
    assert e[0] == At(0).(unit := Some(1));
    assert e[1] == At(1).(unit := Some(1));
  }

  /**
   * As written: Decompose(2, 1) of the example releases qubit 2,
   * then reads its slot as the block's lower end, 0, and so moves qubit 1
   * down onto qubit 0's slot; with the recorded lower end (Rest) both keep
   * their slots.
   */
  lemma RestAsWrittenCollides()
    ensures !Injective(RestAsWritten(Three(), map[0 := 3], 2, 1, true))
    ensures Rest(Three(), map[0 := 3], 2, 1) == [At(0), At(1)]
    ensures Injective(Rest(Three(), map[0 := 3], 2, 1))
  {
    ThreeSubMaps();
    var s, c := Three(), map[0 := 3];
    assert s[..2] + s[3..] == [At(0), At(1)];
    assert ThrAsWritten(s, c, 2, 1, true) == map[0 := 0];
    var r := RestAsWritten(s, c, 2, 1, true);
    assert r[0] == At(0) && r[1] == At(0);
    var q := Rest(s, c, 2, 1);
    assert q[0] == At(0) && q[1] == At(1);
  }
}
