// The shard map of a QUnit: one record per logical qubit saying which backing
// unit (if any) holds it and at which slot.  Backing units are opaque handles
// with a qubit count.  This module states the central invariant of the map and
// proves that each elementary rearrangement used by QUnit preserves it.
module Shards {
  import opened Wrappers

  /** Handle of a backing simulator unit (a `QInterfacePtr`). */
  type UnitId = nat

  datatype Pauli = PauliX | PauliY | PauliZ

  /**
   * A `QEngineShard`.  `unit == None` is a separable qubit whose state is the
   * cached amplitude pair; `norm0` and `norm1` are the squared magnitudes of
   * that pair (phases are not modelled).
   */
  datatype Shard = Shard(
    unit: Option<UnitId>,
    mapped: nat,
    pauliBasis: Pauli,
    isProbDirty: bool,
    isPhaseDirty: bool,
    norm0: real,
    norm1: real)

  /** A separable shard in the Z basis holding the classical bit `value`. */
  function Classical(value: bool): (s: Shard)
    ensures s.unit == None && s.mapped == 0 && s.pauliBasis == PauliZ
    ensures !s.isProbDirty && !s.isPhaseDirty
    ensures (s.norm1 == 1.0) == value && s.norm0 + s.norm1 == 1.0
  {
    Shard(None, 0, PauliZ, false, false, if value then 0.0 else 1.0, if value then 1.0 else 0.0)
  }

  /**
   * A shard taken out of its unit as a separable qubit (the one-qubit branch
   * of ProbBase, and the releases in Detach).  Only the map entry is
   * modelled: the amplitudes the unit hands back, and the switch to the X or
   * Y basis they may cause, are not; the cached basis and norms are kept and
   * the dirty flags cleared.
   */
  function Released(s: Shard): (r: Shard)
    ensures r.unit == None && r.mapped == 0 && !r.isProbDirty && !r.isPhaseDirty
    ensures r.pauliBasis == s.pauliBasis && r.norm0 == s.norm0 && r.norm1 == s.norm1
  {
    s.(unit := None, mapped := 0, isProbDirty := false, isPhaseDirty := false)
  }

  /** Indices of the shards held by unit u. */
  ghost function Owners(s: seq<Shard>, u: UnitId): set<int>
  {
    set i | 0 <= i < |s| && s[i].unit == Some(u)
  }

  /** Slots of unit u that some shard points to. */
  ghost function Slots(s: seq<Shard>, u: UnitId): set<int>
  {
    set i | 0 <= i < |s| && s[i].unit == Some(u) :: s[i].mapped as int
  }

  /** The slot numbers 0 .. n-1. */
  function Range(n: nat): set<int>
  {
    if n == 0 then {} else Range(n - 1) + {n - 1}
  }

  lemma {:induction false} InRange(n: nat)
    ensures forall k :: k in Range(n) <==> 0 <= k < n
  {
    if n > 0 {
      InRange(n - 1);
    }
  }

  /** The qubits of unit u hold its slots in increasing order of logical index. */
  ghost predicate InOrder(s: seq<Shard>, u: UnitId)
  {
    forall a, b | 0 <= a < b < |s| && s[a].unit == Some(u) && s[b].unit == Some(u) :: s[a].mapped < s[b].mapped
  }

  /** Every held shard names a known unit and a slot inside it. */
  ghost predicate Bounded(s: seq<Shard>, counts: map<UnitId, nat>)
  {
    forall i | 0 <= i < |s| && s[i].unit.Some? ::
      s[i].unit.value in counts && s[i].mapped < counts[s[i].unit.value]
  }

  /** No two shards share a slot of the same unit. */
  ghost predicate Injective(s: seq<Shard>)
  {
    forall i, j | 0 <= i < |s| && 0 <= j < |s| && i != j && s[i].unit.Some? && s[i].unit == s[j].unit ::
      s[i].mapped != s[j].mapped
  }

  /** A unit that holds any shard holds exactly as many shards as it has qubits. */
  ghost predicate Counted(s: seq<Shard>, counts: map<UnitId, nat>)
  {
    forall i | 0 <= i < |s| && s[i].unit.Some? && s[i].unit.value in counts ::
      |Owners(s, s[i].unit.value)| == counts[s[i].unit.value]
  }

  /**
   * The shard-map invariant: for every unit referenced by some shard, the
   * shards it holds occupy its slots 0 .. count-1, one shard per slot
   * (see SlotsAreRange).  Units no shard refers to are unconstrained.
   */
  ghost predicate WellFormed(s: seq<Shard>, counts: map<UnitId, nat>)
  {
    Bounded(s, counts) && Injective(s) && Counted(s, counts)
  }

  // ---------------------------------------------------------------- counting

  ghost function Below(A: set<int>, n: int): set<int>
  {
    set i | i in A && i < n
  }

  ghost function ImageBelow(A: set<int>, g: int -> int, n: int): set<int>
  {
    set i | i in A && i < n :: g(i)
  }

  /** An injective map preserves the size of a set of indices. */
  lemma CardImage(A: set<int>, g: int -> int, n: int)
    requires forall i :: i in A ==> 0 <= i < n
    requires forall i, j :: i in A && j in A && i != j ==> g(i) != g(j)
    ensures |(set i | i in A :: g(i))| == |A|
  {
    CardImageBelow(A, g, n);
    assert Below(A, n) == A;
    assert ImageBelow(A, g, n) == set i | i in A :: g(i);
  }

  lemma {:induction false} CardImageBelow(A: set<int>, g: int -> int, n: int)
    requires forall i :: i in A ==> i >= 0
    requires forall i, j :: i in A && j in A && i != j ==> g(i) != g(j)
    ensures |ImageBelow(A, g, n)| == |Below(A, n)|
    decreases n
  {
    if n <= 0 {
      assert Below(A, n) == {};
      assert ImageBelow(A, g, n) == {};
    } else {
      CardImageBelow(A, g, n - 1);
      BelowStep(A, g, n);
    }
  }

  lemma BelowStep(A: set<int>, g: int -> int, n: int)
    requires forall i, j :: i in A && j in A && i != j ==> g(i) != g(j)
    ensures n - 1 in A ==>
      && Below(A, n) == Below(A, n - 1) + {n - 1} && n - 1 !in Below(A, n - 1)
      && ImageBelow(A, g, n) == ImageBelow(A, g, n - 1) + {g(n - 1)} && g(n - 1) !in ImageBelow(A, g, n - 1)
    ensures n - 1 !in A ==> Below(A, n) == Below(A, n - 1) && ImageBelow(A, g, n) == ImageBelow(A, g, n - 1)
  {
  }

  lemma {:induction false} CardRange(n: nat)
    ensures |Range(n)| == n
  {
    if n > 0 {
      CardRange(n - 1);
      InRange(n - 1);
    }
  }

  lemma {:induction false} SubsetOfSameSize(A: set<int>, B: set<int>)
    requires A <= B && |A| == |B|
    ensures A == B
  {
    assert B == A + (B - A);
    assert A * (B - A) == {};
    assert |B - A| == 0;
  }

  lemma SubsetCard(A: set<int>, B: set<int>)
    requires A <= B
    ensures |A| <= |B|
  {
    assert B == A + (B - A);
    assert A * (B - A) == {};
  }

  /**
   * The invariant read as the source states it: the slots that the shards of
   * a referenced unit point to are exactly 0 .. count-1.
   */
  lemma SlotsAreRange(s: seq<Shard>, counts: map<UnitId, nat>, q: int)
    requires WellFormed(s, counts) && 0 <= q < |s| && s[q].unit.Some?
    ensures Slots(s, s[q].unit.value) == Range(counts[s[q].unit.value])
  {
    var u := s[q].unit.value;
    var g := (i: int) => if 0 <= i < |s| then s[i].mapped as int else -1;
    CardImage(Owners(s, u), g, |s|);
    assert Slots(s, u) == set i | i in Owners(s, u) :: g(i) by {
      forall k | k in Slots(s, u) ensures k in set i | i in Owners(s, u) :: g(i) {
        var i :| 0 <= i < |s| && s[i].unit == Some(u) && k == s[i].mapped as int;
        assert i in Owners(s, u);
      }
    }
    InRange(counts[u]);
    assert Slots(s, u) <= Range(counts[u]);
    CardRange(counts[u]);
    SubsetOfSameSize(Slots(s, u), Range(counts[u]));
  }

  // ----------------------------------------------------- removing one slot

  /**
   * After slot m of unit u has been disposed, every shard of u above m moves
   * down by one (the `mapped--` loops of SeparateBit, TrySeparate and
   * TrySeparateClifford).
   */
  function Unslot(s: seq<Shard>, u: UnitId, m: nat): (r: seq<Shard>)
    ensures |r| == |s|
    ensures forall i | 0 <= i < |s| ::
      r[i] == if s[i].unit == Some(u) && s[i].mapped > m then s[i].(mapped := s[i].mapped - 1) else s[i]
  {
    seq(|s|, i requires 0 <= i < |s| =>
      if s[i].unit == Some(u) && s[i].mapped > m then s[i].(mapped := s[i].mapped - 1) else s[i])
  }

  /**
   * Taking shard q out of its unit (making it separable), shrinking that unit
   * by one qubit and closing the gap keeps the invariant.
   */
  lemma RemoveSlotKeeps(s: seq<Shard>, counts: map<UnitId, nat>, q: int, t: Shard)
    requires WellFormed(s, counts) && 0 <= q < |s| && s[q].unit.Some? && t.unit == None
    ensures s[q].unit.value in counts && counts[s[q].unit.value] >= 1
    ensures WellFormed(Unslot(s[q := t], s[q].unit.value, s[q].mapped),
                       counts[s[q].unit.value := counts[s[q].unit.value] - 1])
  {
    var u, m := s[q].unit.value, s[q].mapped;
    var r := Unslot(s[q := t], u, m);
    var c := counts[u := counts[u] - 1];
    forall i | 0 <= i < |r| && r[i].unit.Some?
      ensures r[i].unit.value in c && r[i].mapped < c[r[i].unit.value]
    {
      if r[i].unit == Some(u) {
        assert i != q && s[i].unit == Some(u) && s[i].mapped != m;
      } else {
        assert i != q && r[i] == s[i];
      }
    }
    forall i, j | 0 <= i < |r| && 0 <= j < |r| && i != j && r[i].unit.Some? && r[i].unit == r[j].unit
      ensures r[i].mapped != r[j].mapped
    {
      assert i != q && j != q;
      if r[i].unit == Some(u) {
        assert s[i].mapped != m && s[j].mapped != m && s[i].mapped != s[j].mapped;
      } else {
        assert r[i] == s[i] && r[j] == s[j];
      }
    }
    forall i | 0 <= i < |r| && r[i].unit.Some? && r[i].unit.value in c
      ensures |Owners(r, r[i].unit.value)| == c[r[i].unit.value]
    {
      var v := r[i].unit.value;
      assert i != q && s[i].unit == Some(v);
      UnslotOwners(s, q, t, v);
    }
  }

  lemma UnslotOwners(s: seq<Shard>, q: int, t: Shard, v: UnitId)
    requires 0 <= q < |s| && s[q].unit.Some? && t.unit == None
    ensures v == s[q].unit.value ==> Owners(Unslot(s[q := t], s[q].unit.value, s[q].mapped), v) == Owners(s, v) - {q}
    ensures v != s[q].unit.value ==> Owners(Unslot(s[q := t], s[q].unit.value, s[q].mapped), v) == Owners(s, v)
  {
  }

  // ------------------------------------------------------- merging units

  /**
   * One relabelling pass of EntangleInCurrentBasis: every shard of a consumed
   * unit c moves to `partners[c]`, its slot shifted by `offsets[c]`.
   */
  function Relabel(s: seq<Shard>, offsets: map<UnitId, nat>, partners: map<UnitId, UnitId>): (r: seq<Shard>)
    requires offsets.Keys <= partners.Keys
    ensures |r| == |s|
    ensures forall i | 0 <= i < |s| ::
      r[i] == if s[i].unit.Some? && s[i].unit.value in offsets
              then s[i].(unit := Some(partners[s[i].unit.value]), mapped := s[i].mapped + offsets[s[i].unit.value])
              else s[i]
  {
    seq(|s|, i requires 0 <= i < |s| =>
      if s[i].unit.Some? && s[i].unit.value in offsets
      then s[i].(unit := Some(partners[s[i].unit.value]), mapped := s[i].mapped + offsets[s[i].unit.value])
      else s[i])
  }

  /**
   * The conditions under which Relabel is a correct merge: `partners` sends
   * each consumed unit to the retained unit that composes it and `mates` is
   * its inverse; no unit is both; and the offset of a consumed unit is the old
   * qubit count of its partner (what `Compose` returns).
   */
  ghost predicate MergePlan(counts: map<UnitId, nat>, offsets: map<UnitId, nat>,
                            partners: map<UnitId, UnitId>, mates: map<UnitId, UnitId>)
  {
    && offsets.Keys == partners.Keys
    && partners.Keys <= counts.Keys && mates.Keys <= counts.Keys
    && (forall c | c in partners :: partners[c] in mates && mates[partners[c]] == c && offsets[c] == counts[partners[c]])
    && (forall u | u in mates :: mates[u] in partners && partners[mates[u]] == u && u !in partners)
  }

  /** Qubit counts after every retained unit has composed its mate. */
  function MergedCounts(counts: map<UnitId, nat>, mates: map<UnitId, UnitId>): (r: map<UnitId, nat>)
    requires forall u | u in mates :: mates[u] in counts
    ensures r.Keys == counts.Keys
  {
    map u | u in counts :: if u in mates then counts[u] + counts[mates[u]] else counts[u]
  }

  /** Some shard is held by unit u. */
  ghost predicate Referenced(s: seq<Shard>, u: UnitId)
  {
    exists i :: 0 <= i < |s| && s[i].unit == Some(u)
  }

  lemma RelabelKeeps(s: seq<Shard>, counts: map<UnitId, nat>, offsets: map<UnitId, nat>,
                     partners: map<UnitId, UnitId>, mates: map<UnitId, UnitId>)
    requires WellFormed(s, counts) && MergePlan(counts, offsets, partners, mates)
    requires forall c | c in partners :: Referenced(s, c) && Referenced(s, partners[c])
    ensures WellFormed(Relabel(s, offsets, partners), MergedCounts(counts, mates))
  {
    RelabelBounded(s, counts, offsets, partners, mates);
    RelabelInjective(s, counts, offsets, partners, mates);
    forall i | 0 <= i < |s| && Relabel(s, offsets, partners)[i].unit.Some?
      ensures |Owners(Relabel(s, offsets, partners), Relabel(s, offsets, partners)[i].unit.value)|
              == MergedCounts(counts, mates)[Relabel(s, offsets, partners)[i].unit.value]
    {
      RelabelCountOne(s, counts, offsets, partners, mates, Relabel(s, offsets, partners)[i].unit.value);
    }
  }

  lemma RelabelBounded(s: seq<Shard>, counts: map<UnitId, nat>, offsets: map<UnitId, nat>,
                       partners: map<UnitId, UnitId>, mates: map<UnitId, UnitId>)
    requires Bounded(s, counts) && MergePlan(counts, offsets, partners, mates)
    ensures Bounded(Relabel(s, offsets, partners), MergedCounts(counts, mates))
  {
  }

  lemma RelabelInjective(s: seq<Shard>, counts: map<UnitId, nat>, offsets: map<UnitId, nat>,
                         partners: map<UnitId, UnitId>, mates: map<UnitId, UnitId>)
    requires Bounded(s, counts) && Injective(s) && MergePlan(counts, offsets, partners, mates)
    ensures Injective(Relabel(s, offsets, partners))
  {
    var r := Relabel(s, offsets, partners);
    forall i, j | 0 <= i < |r| && 0 <= j < |r| && i != j && r[i].unit.Some? && r[i].unit == r[j].unit
      ensures r[i].mapped != r[j].mapped
    {
      var ui, uj := s[i].unit.value, s[j].unit.value;
      if ui in partners && uj !in partners {
        assert uj == partners[ui];
      } else if uj in partners && ui !in partners {
        assert ui == partners[uj];
      } else if ui in partners && uj in partners {
        assert ui == mates[partners[ui]] == uj;
      }
    }
  }

  lemma RelabelOwners(s: seq<Shard>, offsets: map<UnitId, nat>, partners: map<UnitId, UnitId>,
                      mates: map<UnitId, UnitId>, v: UnitId)
    requires offsets.Keys == partners.Keys && v !in partners
    requires forall c | c in partners :: partners[c] in mates && mates[partners[c]] == c
    requires forall u | u in mates :: mates[u] in partners && partners[mates[u]] == u
    ensures v in mates ==> Owners(Relabel(s, offsets, partners), v) == Owners(s, v) + Owners(s, mates[v])
    ensures v !in mates ==> Owners(Relabel(s, offsets, partners), v) == Owners(s, v)
  {
    var r := Relabel(s, offsets, partners);
    forall i | 0 <= i < |s|
      ensures r[i].unit == Some(v) <==> s[i].unit == Some(v) || (v in mates && s[i].unit == Some(mates[v]))
    {
      if s[i].unit.Some? && s[i].unit.value in partners && partners[s[i].unit.value] == v {
        assert mates[v] == s[i].unit.value;
      }
    }
  }

  lemma RelabelCountOne(s: seq<Shard>, counts: map<UnitId, nat>, offsets: map<UnitId, nat>,
                        partners: map<UnitId, UnitId>, mates: map<UnitId, UnitId>, v: UnitId)
    requires WellFormed(s, counts) && MergePlan(counts, offsets, partners, mates)
    requires forall c | c in partners :: Referenced(s, c) && Referenced(s, partners[c])
    requires Referenced(Relabel(s, offsets, partners), v)
    ensures v in counts && |Owners(Relabel(s, offsets, partners), v)| == MergedCounts(counts, mates)[v]
  {
    var r := Relabel(s, offsets, partners);
    var i :| 0 <= i < |r| && r[i].unit == Some(v);
    if s[i].unit.Some? && s[i].unit.value in offsets {
      assert partners[s[i].unit.value] == v;
    } else {
      assert s[i].unit == Some(v);
    }
    assert v !in partners;
    RelabelOwners(s, offsets, partners, mates, v);
    if v in mates {
      var c := mates[v];
      assert c in partners && partners[c] == v;
      DisjointOwners(s, counts, v, c);
      assert MergedCounts(counts, mates)[v] == counts[v] + counts[c];
    } else {
      assert s[i].unit == Some(v);
      CountOfReferenced(s, counts, v);
    }
  }

  /** The shards of two distinct referenced units together number their two counts. */
  lemma DisjointOwners(s: seq<Shard>, counts: map<UnitId, nat>, v: UnitId, c: UnitId)
    requires WellFormed(s, counts) && Referenced(s, v) && Referenced(s, c) && v != c
    ensures v in counts && c in counts && |Owners(s, v) + Owners(s, c)| == counts[v] + counts[c]
  {
    CountOfReferenced(s, counts, v);
    CountOfReferenced(s, counts, c);
    assert Owners(s, v) * Owners(s, c) == {};
  }

  lemma CountOfReferenced(s: seq<Shard>, counts: map<UnitId, nat>, u: UnitId)
    requires WellFormed(s, counts) && Referenced(s, u)
    ensures u in counts && |Owners(s, u)| == counts[u]
  {
  }

  // ------------------------------------------------------- reordering shards

  /** The shard map with the records of logical qubits a and b exchanged. */
  function Swapped(s: seq<Shard>, a: nat, b: nat): (r: seq<Shard>)
    requires a < |s| && b < |s|
    ensures |r| == |s| && r[a] == s[b] && r[b] == s[a]
    ensures forall i | 0 <= i < |s| && i != a && i != b :: r[i] == s[i]
  {
    s[a := s[b]][b := s[a]]
  }

  /** Exchanging two logical qubits permutes owners, so the invariant holds. */
  lemma SwapKeeps(s: seq<Shard>, counts: map<UnitId, nat>, a: nat, b: nat)
    requires WellFormed(s, counts) && a < |s| && b < |s|
    ensures WellFormed(Swapped(s, a, b), counts)
  {
    var r := Swapped(s, a, b);
    forall i | 0 <= i < |r| && r[i].unit.Some?
      ensures r[i].unit.value in counts && r[i].mapped < counts[r[i].unit.value]
    {
      var k := if i == a then b else if i == b then a else i;
      assert r[i] == s[k];
    }
    forall i, j | 0 <= i < |r| && 0 <= j < |r| && i != j && r[i].unit.Some? && r[i].unit == r[j].unit
      ensures r[i].mapped != r[j].mapped
    {
      var ki := if i == a then b else if i == b then a else i;
      var kj := if j == a then b else if j == b then a else j;
      assert r[i] == s[ki] && r[j] == s[kj];
    }
    forall i | 0 <= i < |r| && r[i].unit.Some?
      ensures |Owners(r, r[i].unit.value)| == counts[r[i].unit.value]
    {
      var k := if i == a then b else if i == b then a else i;
      assert r[i] == s[k];
      SwapOwners(s, a, b, r[i].unit.value);
    }
  }

  lemma SwapOwners(s: seq<Shard>, a: nat, b: nat, u: UnitId)
    requires a < |s| && b < |s|
    ensures |Owners(Swapped(s, a, b), u)| == |Owners(s, u)|
  {
    var r := Swapped(s, a, b);
    var t := (i: int) => if i == a then b as int else if i == b then a as int else i;
    var img := set k | k in Owners(s, u) :: t(k);
    forall k | k in Owners(r, u) ensures k in img {
      assert t(t(k)) == k && r[k] == s[t(k)] && t(k) in Owners(s, u);
    }
    forall k | k in img ensures k in Owners(r, u) {
      var i :| i in Owners(s, u) && k == t(i);
      assert r[t(i)] == s[i];
    }
    assert Owners(r, u) == img;
    CardImage(Owners(s, u), t, |s|);
  }

  /**
   * Exchanging the slots of two shards of the same unit (one step of
   * SortUnit) keeps the invariant.
   */
  lemma SwapSlotsKeeps(s: seq<Shard>, counts: map<UnitId, nat>, a: nat, b: nat)
    requires WellFormed(s, counts) && a < |s| && b < |s| && s[a].unit == s[b].unit
    ensures WellFormed(s[a := s[a].(mapped := s[b].mapped)][b := s[b].(mapped := s[a].mapped)], counts)
  {
    var r := s[a := s[a].(mapped := s[b].mapped)][b := s[b].(mapped := s[a].mapped)];
    forall u ensures Owners(r, u) == Owners(s, u) { }
  }

  // ------------------------------------------------------- splicing and cloning

  /** The units some shard of s refers to. */
  ghost function UnitsOf(s: seq<Shard>): set<UnitId>
  {
    set i | 0 <= i < |s| && s[i].unit.Some? :: s[i].unit.value
  }

  /** `shards.insert(start, block)`. */
  function Insert(s: seq<Shard>, start: nat, block: seq<Shard>): (r: seq<Shard>)
    requires start <= |s|
    ensures |r| == |s| + |block|
    ensures forall i | 0 <= i < start :: r[i] == s[i]
    ensures forall j | 0 <= j < |block| :: r[start + j] == block[j]
    ensures forall i | start <= i < |s| :: r[i + |block|] == s[i]
  {
    s[..start] + block + s[start..]
  }

  /**
   * Inserting a well-formed block whose units are disjoint from the
   * register's yields a well-formed map over the union of the unit counts.
   */
  lemma InsertKeeps(s: seq<Shard>, counts: map<UnitId, nat>, start: nat, block: seq<Shard>, bcounts: map<UnitId, nat>)
    requires WellFormed(s, counts) && WellFormed(block, bcounts) && start <= |s|
    requires UnitsOf(s) !! bcounts.Keys && UnitsOf(block) !! counts.Keys
    ensures WellFormed(Insert(s, start, block), counts + bcounts)
  {
    var r := Insert(s, start, block);
    forall i | 0 <= i < |r| && r[i].unit.Some?
      ensures InsertedUnit(s, counts, start, block, bcounts, i)
    {
      InsertSource(s, counts, start, block, bcounts, i);
    }
    InsertBounded(s, counts, start, block, bcounts);
    InsertInjective(s, counts, start, block, bcounts);
    InsertCounted(s, counts, start, block, bcounts);
  }

  /** Where shard i of the inserted map comes from, and what its unit is then known to be. */
  ghost predicate InsertedUnit(s: seq<Shard>, counts: map<UnitId, nat>, start: nat, block: seq<Shard>,
                               bcounts: map<UnitId, nat>, i: int)
    requires start <= |s| && 0 <= i < |s| + |block|
  {
    var r := Insert(s, start, block);
    r[i].unit.Some? ==>
      if start <= i < start + |block|
      then r[i] == block[i - start] && r[i].unit.value in bcounts && r[i].unit.value in UnitsOf(block)
           && r[i].mapped < bcounts[r[i].unit.value]
      else var k := if i < start then i else i - |block|;
           r[i] == s[k] && r[i].unit.value in counts && r[i].unit.value in UnitsOf(s)
           && r[i].mapped < counts[r[i].unit.value]
  }

  lemma InsertSource(s: seq<Shard>, counts: map<UnitId, nat>, start: nat, block: seq<Shard>, bcounts: map<UnitId, nat>,
                     i: int)
    requires Bounded(s, counts) && Bounded(block, bcounts) && start <= |s| && 0 <= i < |s| + |block|
    ensures InsertedUnit(s, counts, start, block, bcounts, i)
  {
    InsertIndex(s, start, block, i);
  }

  lemma InsertBounded(s: seq<Shard>, counts: map<UnitId, nat>, start: nat, block: seq<Shard>, bcounts: map<UnitId, nat>)
    requires start <= |s| && UnitsOf(s) !! bcounts.Keys
    requires forall i | 0 <= i < |s| + |block| :: InsertedUnit(s, counts, start, block, bcounts, i)
    ensures Bounded(Insert(s, start, block), counts + bcounts)
  {
    var r := Insert(s, start, block);
    forall i | 0 <= i < |r| && r[i].unit.Some?
      ensures r[i].unit.value in counts + bcounts && r[i].mapped < (counts + bcounts)[r[i].unit.value]
    {
      assert InsertedUnit(s, counts, start, block, bcounts, i);
    }
  }

  lemma InsertInjective(s: seq<Shard>, counts: map<UnitId, nat>, start: nat, block: seq<Shard>, bcounts: map<UnitId, nat>)
    requires Injective(s) && Injective(block) && start <= |s|
    requires UnitsOf(s) !! bcounts.Keys && UnitsOf(block) !! counts.Keys
    requires forall i | 0 <= i < |s| + |block| :: InsertedUnit(s, counts, start, block, bcounts, i)
    ensures Injective(Insert(s, start, block))
  {
    var r := Insert(s, start, block);
    forall i, j | 0 <= i < |r| && 0 <= j < |r| && i != j && r[i].unit.Some? && r[i].unit == r[j].unit
      ensures r[i].mapped != r[j].mapped
    {
      assert InsertedUnit(s, counts, start, block, bcounts, i);
      assert InsertedUnit(s, counts, start, block, bcounts, j);
    }
  }

  lemma InsertCounted(s: seq<Shard>, counts: map<UnitId, nat>, start: nat, block: seq<Shard>, bcounts: map<UnitId, nat>)
    requires WellFormed(s, counts) && WellFormed(block, bcounts) && start <= |s|
    requires UnitsOf(s) !! bcounts.Keys && UnitsOf(block) !! counts.Keys
    requires forall i | 0 <= i < |s| + |block| :: InsertedUnit(s, counts, start, block, bcounts, i)
    ensures Counted(Insert(s, start, block), counts + bcounts)
  {
    var r := Insert(s, start, block);
    var c := counts + bcounts;
    forall i | 0 <= i < |r| && r[i].unit.Some? && r[i].unit.value in c
      ensures |Owners(r, r[i].unit.value)| == c[r[i].unit.value]
    {
      var u := r[i].unit.value;
      assert InsertedUnit(s, counts, start, block, bcounts, i);
      if start <= i < start + |block| {
        assert block[i - start].unit == Some(u);
        InsertOwnersOfBlock(s, start, block, u);
      } else {
        var k := if i < start then i else i - |block|;
        assert s[k].unit == Some(u);
        InsertOwnersOfHost(s, start, block, u);
      }
    }
  }

  lemma InsertIndex(s: seq<Shard>, start: nat, block: seq<Shard>, k: int)
    requires start <= |s| && 0 <= k < |s| + |block|
    ensures Insert(s, start, block)[k] == if k < start then s[k] else if k < start + |block| then block[k - start] else s[k - |block|]
  {
    if start <= k < start + |block| {
      assert Insert(s, start, block)[start + (k - start)] == block[k - start];
    } else if k >= start + |block| {
      assert Insert(s, start, block)[(k - |block|) + |block|] == s[k - |block|];
    }
  }

  lemma InsertOwnersOfHost(s: seq<Shard>, start: nat, block: seq<Shard>, u: UnitId)
    requires start <= |s| && u !in UnitsOf(block)
    ensures |Owners(Insert(s, start, block), u)| == |Owners(s, u)|
  {
    InsertCount(s, start, block, u);
    CountAbsent(block, u);
  }

  lemma InsertOwnersOfBlock(s: seq<Shard>, start: nat, block: seq<Shard>, u: UnitId)
    requires start <= |s| && u !in UnitsOf(s)
    ensures |Owners(Insert(s, start, block), u)| == |Owners(block, u)|
  {
    InsertCount(s, start, block, u);
    CountAbsent(s, u);
  }

  /** Insertion adds the block's shards of u to the host's. */
  lemma InsertCount(s: seq<Shard>, start: nat, block: seq<Shard>, u: UnitId)
    requires start <= |s|
    ensures |Owners(Insert(s, start, block), u)| == |Owners(s, u)| + |Owners(block, u)|
  {
    var lo, hi := s[..start], s[start..];
    assert s == lo + hi;
    CountConcat(lo, hi, u);
    CountConcat(lo, block, u);
    CountConcat(lo + block, hi, u);
    OwnersCount(s, u);
    OwnersCount(block, u);
    OwnersCount(Insert(s, start, block), u);
  }

  /** The number of shards of s held by u, counted from the front. */
  ghost function CountIn(s: seq<Shard>, u: UnitId): nat
  {
    if s == [] then 0 else CountIn(s[..|s| - 1], u) + (if s[|s| - 1].unit == Some(u) then 1 else 0)
  }

  lemma {:induction false} OwnersCount(s: seq<Shard>, u: UnitId)
    ensures |Owners(s, u)| == CountIn(s, u)
  {
    if s != [] {
      var t := s[..|s| - 1];
      OwnersCount(t, u);
      if s[|s| - 1].unit == Some(u) {
        assert Owners(s, u) == Owners(t, u) + {|t|};
      } else {
        assert Owners(s, u) == Owners(t, u);
      }
    } else {
      assert Owners(s, u) == {};
    }
  }

  lemma {:induction false} CountConcat(a: seq<Shard>, b: seq<Shard>, u: UnitId)
    ensures CountIn(a + b, u) == CountIn(a, u) + CountIn(b, u)
    decreases |b|
  {
    if b == [] {
      assert a + b == a;
    } else {
      var b' := b[..|b| - 1];
      assert (a + b)[..|a + b| - 1] == a + b';
      CountConcat(a, b', u);
    }
  }

  lemma CountAbsent(s: seq<Shard>, u: UnitId)
    requires u !in UnitsOf(s)
    ensures |Owners(s, u)| == 0
  {
    forall i | 0 <= i < |s| ensures s[i].unit != Some(u) {
      if s[i].unit.Some? {
        assert s[i].unit.value in UnitsOf(s);
      }
    }
    assert Owners(s, u) == {};
  }

  /**
   * Giving every unit a new handle through an injective renaming, with the
   * same qubit count under the new handle, keeps the invariant (CloneBody).
   */
  lemma RenameKeeps(src: seq<Shard>, srcCounts: map<UnitId, nat>, dst: seq<Shard>,
                    dstCounts: map<UnitId, nat>, dupe: map<UnitId, UnitId>)
    requires WellFormed(src, srcCounts) && |dst| == |src|
    requires forall i | 0 <= i < |src| :: dst[i].mapped == src[i].mapped && (src[i].unit.None? <==> dst[i].unit.None?)
    requires forall i | 0 <= i < |src| && src[i].unit.Some? ::
      src[i].unit.value in dupe && dst[i].unit == Some(dupe[src[i].unit.value])
      && dupe[src[i].unit.value] in dstCounts && dstCounts[dupe[src[i].unit.value]] == srcCounts[src[i].unit.value]
    requires forall u, v | u in dupe && v in dupe && u != v :: dupe[u] != dupe[v]
    ensures WellFormed(dst, dstCounts)
  {
    forall i | 0 <= i < |dst| && dst[i].unit.Some?
      ensures |Owners(dst, dst[i].unit.value)| == dstCounts[dst[i].unit.value]
    {
      var u := src[i].unit.value;
      assert Owners(dst, dupe[u]) == Owners(src, u);
    }
  }

  /**
   * Moving a separable shard into a one-qubit unit that no shard uses keeps
   * the invariant (EndEmulation, and the new unit of TrySeparate).
   */
  lemma FreshUnitKeeps(s: seq<Shard>, counts: map<UnitId, nat>, q: nat, f: UnitId)
    requires WellFormed(s, counts) && q < |s| && s[q].unit.None?
    requires forall i | 0 <= i < |s| :: s[i].unit != Some(f)
    ensures WellFormed(s[q := s[q].(unit := Some(f), mapped := 0)], counts[f := 1])
  {
    var r := s[q := s[q].(unit := Some(f), mapped := 0)];
    assert Owners(r, f) == {q};
    forall u | u != f ensures Owners(r, u) == Owners(s, u) { }
  }

  /** Rewriting a shard's cached state, leaving its unit and slot, keeps the invariant. */
  lemma CacheKeeps(s: seq<Shard>, counts: map<UnitId, nat>, q: nat, t: Shard)
    requires WellFormed(s, counts) && q < |s| && t.unit == s[q].unit && t.mapped == s[q].mapped
    ensures WellFormed(s[q := t], counts)
  {
    forall u ensures Owners(s[q := t], u) == Owners(s, u) { }
  }
}
