// QUnit's register bookkeeping: the shard map, the creation and disposal of
// backing units, and the rearrangements that keep every shard pointing at the
// right slot of the right unit.  Amplitudes are outside this model; a backing
// unit is a handle with a qubit count.
module QUnitMap {
  import opened Wrappers
  import opened Bits
  import opened Shards
  import opened SortKeys
  import opened Detaching
  import opened DetachWalk

  /**
   * The CloneBody loop: copies a shard map, giving every distinct unit one new
   * handle (a clone of that unit, with the same qubit count) taken in order
   * from `base`.  Shards that shared a unit share its clone.
   */
  method CloneInto(src: seq<Shard>, srcCounts: map<UnitId, nat>, base: UnitId)
    returns (dst: seq<Shard>, dstCounts: map<UnitId, nat>, next: UnitId)
    requires Bounded(src, srcCounts)
    ensures |dst| == |src| && base <= next
    ensures forall i | 0 <= i < |src| :: dst[i] == src[i].(unit := dst[i].unit) && (dst[i].unit.None? <==> src[i].unit.None?)
    ensures forall i | 0 <= i < |src| && dst[i].unit.Some? ::
      base <= dst[i].unit.value < next && dst[i].unit.value in dstCounts
      && dstCounts[dst[i].unit.value] == srcCounts[src[i].unit.value]
    ensures forall i, j | 0 <= i < |src| && 0 <= j < |src| :: dst[i].unit == dst[j].unit <==> src[i].unit == src[j].unit
    ensures forall w | w in dstCounts :: base <= w < next
    ensures WellFormed(src, srcCounts) ==> WellFormed(dst, dstCounts)
  {
    var dupe: map<UnitId, UnitId> := map[];
    dst, dstCounts, next := [], map[], base;
    var i := 0;
    while i < |src|
      invariant 0 <= i <= |src|
      invariant Cloning(src, srcCounts, base, i, dst, dstCounts, next, dupe)
    {
      dst, dstCounts, next, dupe := CloneOne(src, srcCounts, base, i, dst, dstCounts, next, dupe);
      i := i + 1;
    }
    if WellFormed(src, srcCounts) {
      RenameKeeps(src, srcCounts, dst, dstCounts, dupe);
    }
  }

  /**
   * The CloneBody loop after i shards: `dupe` sends each unit met so far to
   * its clone, and the first i shards are copied onto the clones.
   */
  ghost predicate Cloning(src: seq<Shard>, srcCounts: map<UnitId, nat>, base: UnitId, i: nat,
                          dst: seq<Shard>, dstCounts: map<UnitId, nat>, next: UnitId, dupe: map<UnitId, UnitId>)
  {
    && i <= |src| && |dst| == i && base <= next
    && (forall u | u in dupe ::
          base <= dupe[u] < next && dupe[u] in dstCounts && u in srcCounts && dstCounts[dupe[u]] == srcCounts[u])
    && (forall u, v | u in dupe && v in dupe && u != v :: dupe[u] != dupe[v])
    && (forall w | w in dstCounts :: base <= w < next)
    && (forall k | 0 <= k < i :: dst[k] == src[k].(unit := dst[k].unit) && (dst[k].unit.None? <==> src[k].unit.None?))
    && (forall k | 0 <= k < i && src[k].unit.Some? :: src[k].unit.value in dupe && dst[k].unit == Some(dupe[src[k].unit.value]))
  }

  /** One pass of the CloneBody loop: copies shard i, cloning its unit on first sight. */
  method CloneOne(src: seq<Shard>, srcCounts: map<UnitId, nat>, base: UnitId, i: nat,
                  dst: seq<Shard>, dstCounts: map<UnitId, nat>, next: UnitId, dupe: map<UnitId, UnitId>)
    returns (dst': seq<Shard>, dstCounts': map<UnitId, nat>, next': UnitId, dupe': map<UnitId, UnitId>)
    requires Bounded(src, srcCounts) && i < |src| && Cloning(src, srcCounts, base, i, dst, dstCounts, next, dupe)
    ensures Cloning(src, srcCounts, base, i + 1, dst', dstCounts', next', dupe')
  {
    var shard := src[i];
    dupe', dstCounts', next' := dupe, dstCounts, next;
    if shard.unit.Some? {
      var u := shard.unit.value;
      if u !in dupe {
        dupe' := dupe[u := next];
        dstCounts' := dstCounts[next := srcCounts[u]];
        next' := next + 1;
      }
      shard := shard.(unit := Some(dupe'[u]));
    }
    dst' := dst + [shard];
  }

  /** Distinct units of a shard map, in order of first appearance. */
  function UnitList(s: seq<Shard>): (r: seq<UnitId>)
    decreases |s|
  {
    if s == [] then []
    else
      var p := UnitList(s[..|s| - 1]);
      var last := s[|s| - 1];
      if last.unit.Some? && last.unit.value !in p then p + [last.unit.value] else p
  }

  /** A shorter prefix of the map lists a prefix of the units. */
  lemma {:induction false} UnitListPrefix(s: seq<Shard>, n: nat)
    requires n <= |s|
    ensures UnitList(s[..n]) <= UnitList(s)
    decreases |s| - n
  {
    if n < |s| {
      UnitListPrefix(s, n + 1);
      assert s[..n + 1][..n] == s[..n];
    } else {
      assert s[..n] == s;
    }
  }

  /** UnitList names every referenced unit exactly once. */
  lemma {:induction false} UnitListSpec(s: seq<Shard>)
    ensures forall a, b | 0 <= a < b < |UnitList(s)| :: UnitList(s)[a] != UnitList(s)[b]
    ensures forall u :: u in UnitList(s) <==> u in UnitsOf(s)
    decreases |s|
  {
    if s != [] {
      var init := s[..|s| - 1];
      UnitListSpec(init);
      assert forall i | 0 <= i < |init| :: init[i] == s[i];
      forall u ensures u in UnitsOf(s) <==> u in UnitsOf(init) || s[|s| - 1].unit == Some(u) {
        if u in UnitsOf(s) {
          var i :| 0 <= i < |s| && s[i].unit.Some? && s[i].unit.value == u;
          if i < |s| - 1 {
            assert init[i].unit.value == u;
          }
        }
        if u in UnitsOf(init) {
          var i :| 0 <= i < |init| && init[i].unit.Some? && init[i].unit.value == u;
          assert s[i].unit.value == u;
        }
      }
    }
  }

  class QUnit {
    var qubitCount: nat
    /** One record per logical qubit (`shards`). */
    var shards: seq<Shard>
    /** Qubit count of every backing unit this register has made. */
    var counts: map<UnitId, nat>
    /** The handle MakeEngine will hand out next. */
    var nextId: UnitId

    ghost predicate Valid()
      reads this
    {
      && qubitCount == |shards|
      && WellFormed(shards, counts)
      && (forall u | u in counts :: u < nextId)
    }

    /** The constructor: a register of `qBitCount` qubits in basis state `initState`. */
    constructor (qBitCount: nat, initState: nat)
      ensures Valid() && qubitCount == qBitCount
      ensures forall i | 0 <= i < qBitCount :: shards[i] == Classical(TestBit(initState, i))
    {
      qubitCount := qBitCount;
      shards := [];
      counts := map[];
      nextId := 0;
      new;
      if qubitCount > 0 {
        SetPermutation(initState);
      }
    }

    /** MakeEngine: a new unit handle of `length` qubits. */
    method MakeEngine(length: nat) returns (u: UnitId)
      requires forall v | v in counts :: v < nextId
      modifies this
      ensures old(Valid()) ==> Valid()
      ensures u == old(nextId) && u !in old(counts) && forall v | v in counts :: v < nextId
      ensures shards == old(shards) && counts == old(counts)[u := length] && nextId == u + 1
      ensures qubitCount == old(qubitCount)
    {
      u := nextId;
      counts := counts[u := length];
      nextId := nextId + 1;
      if old(Valid()) {
        forall i | 0 <= i < |shards| && shards[i].unit.Some? && shards[i].unit.value in counts
          ensures |Owners(shards, shards[i].unit.value)| == counts[shards[i].unit.value]
        {
          assert shards[i].unit.value in old(counts);
        }
      }
    }

    /** Every qubit becomes a separable classical bit of `perm`. */
    method SetPermutation(perm: nat)
      requires forall u | u in counts :: u < nextId
      modifies this
      ensures Valid() && qubitCount == old(qubitCount) && counts == old(counts) && nextId == old(nextId)
      ensures forall i | 0 <= i < qubitCount :: shards[i] == Classical(TestBit(perm, i))
    {
      shards := [];
      var i := 0;
      while i < qubitCount
        invariant 0 <= i <= qubitCount && |shards| == i
        invariant qubitCount == old(qubitCount) && counts == old(counts) && nextId == old(nextId)
        invariant forall k | 0 <= k < i :: shards[k] == Classical(TestBit(perm, k))
      {
        shards := shards + [Classical(TestBit(perm, i))];
        i := i + 1;
      }
    }

    /** Swap is free: it exchanges the two logical qubits' records. */
    method Swap(qubit1: nat, qubit2: nat)
      requires Valid() && qubit1 < qubitCount && qubit2 < qubitCount
      modifies this
      ensures Valid() && shards == Swapped(old(shards), qubit1, qubit2)
      ensures qubitCount == old(qubitCount) && counts == old(counts) && nextId == old(nextId)
    {
      if qubit1 == qubit2 {
        return;
      }
      SwapKeeps(shards, counts, qubit1, qubit2);
      shards := Swapped(shards, qubit1, qubit2);
    }

    /**
     * The sort array of OrderContiguous against the shard map: entry t stands
     * for logical qubit pos[t] of unit u, and its key is that qubit's slot.
     * The logical qubits are listed in increasing order.
     */
    ghost predicate Mirrors(keys: array<nat>, pos: seq<nat>, u: UnitId)
      reads this, keys
    {
      && keys.Length == |pos|
      && (forall t | 0 <= t < |pos| :: pos[t] < |shards| && shards[pos[t]].unit == Some(u) && shards[pos[t]].mapped == keys[t])
      && (forall a, b | 0 <= a < b < |pos| :: pos[a] < pos[b])
    }

    /**
     * One exchange of SortUnit: the two qubits' slots are swapped in the map
     * (the backing unit swaps the same two slots) and so are their keys.
     */
    method SwapEntries(keys: array<nat>, pos: seq<nat>, u: UnitId, i: nat, j: nat)
      requires Valid() && Mirrors(keys, pos, u) && i < |pos| && j < |pos|
      modifies this, keys
      ensures Valid() && Mirrors(keys, pos, u) && MappedOnly(old(shards), shards, u)
      ensures qubitCount == old(qubitCount) && counts == old(counts) && nextId == old(nextId)
      ensures keys[..] == old(keys[..])[i := old(keys[j])][j := old(keys[i])]
    {
      var a, b := pos[i], pos[j];
      SwapSlotsKeeps(shards, counts, a, b);
      shards := shards[a := shards[a].(mapped := shards[b].mapped)][b := shards[b].(mapped := shards[a].mapped)];
      keys[i], keys[j] := keys[j], keys[i];
    }

    /** SwapEntries inside keys[low..high], tracked as a permutation of `k0` there. */
    method Exchange(keys: array<nat>, pos: seq<nat>, u: UnitId, i: nat, j: nat, low: nat, high: nat, ghost k0: seq<nat>)
      requires Valid() && Mirrors(keys, pos, u) && low <= i <= high && low <= j <= high < |pos|
      requires PermutedWithin(k0, keys[..], low, high)
      modifies this, keys
      ensures Valid() && Mirrors(keys, pos, u) && MappedOnly(old(shards), shards, u)
      ensures qubitCount == old(qubitCount) && counts == old(counts) && nextId == old(nextId)
      ensures PermutedWithin(k0, keys[..], low, high)
      ensures keys[..] == old(keys[..])[i := old(keys[j])][j := old(keys[i])]
    {
      ghost var before := keys[..];
      SwapEntries(keys, pos, u, i, j);
      SwapWithin(before, i, j, low, high);
      PermutedTrans(k0, before, keys[..], low, high);
    }

    /**
     * The partition loop of SortUnit on keys[low..high], three keys or more,
     * around the key in the middle.  On exit the keys left of `i` are at most
     * the pivot, those right of `j` at least the pivot, and j < i; both stay
     * inside the range, so the unsigned indices of the source never wrap.
     */
    method Partition(keys: array<nat>, pos: seq<nat>, u: UnitId, low: nat, high: nat) returns (i: nat, j: nat, pivot: nat)
      requires Valid() && Mirrors(keys, pos, u) && low + 2 <= high < |pos|
      modifies this, keys
      ensures Valid() && Mirrors(keys, pos, u) && MappedOnly(old(shards), shards, u)
      ensures qubitCount == old(qubitCount) && counts == old(counts) && nextId == old(nextId)
      ensures PermutedWithin(old(keys[..]), keys[..], low, high)
      ensures low <= j < i <= high && Partitioned(keys[..], low, j, i, high, pivot)
    {
      var mid := (low + high) / 2;
      pivot := keys[mid];
      i, j := low, high;
      ghost var wi, wj := mid, mid;
      ghost var stepped := false;
      while i <= j
        invariant Valid() && Mirrors(keys, pos, u) && MappedOnly(old(shards), shards, u)
        invariant qubitCount == old(qubitCount) && counts == old(counts) && nextId == old(nextId)
        invariant PermutedWithin(old(keys[..]), keys[..], low, high)
        invariant Scan(keys[..], low, high, mid, i, j, wi, wj, pivot, stepped)
        decreases j - i + 2
      {
        ghost var s1 := shards;
        i, j, wi, wj, stepped := PartitionPass(keys, pos, u, low, high, mid, i, j, pivot, wi, wj, stepped, old(keys[..]));
        MappedOnlyTrans(old(shards), s1, shards, u);
      }
      ScanDone(keys[..], low, high, mid, i, j, wi, wj, pivot, stepped);
    }

    /**
     * One pass of the partition loop: both scans, then an exchange when they
     * stopped at i < j, or a step past the pivot when they met.
     */
    method PartitionPass(keys: array<nat>, pos: seq<nat>, u: UnitId, low: nat, high: nat, ghost mid: nat,
                         i0: nat, j0: nat, pivot: nat, ghost wi0: nat, ghost wj0: nat, ghost stepped0: bool, ghost k0: seq<nat>)
      returns (i: nat, j: nat, ghost wi: nat, ghost wj: nat, ghost stepped: bool)
      requires Valid() && Mirrors(keys, pos, u) && high < |pos|
      requires PermutedWithin(k0, keys[..], low, high)
      requires Scan(keys[..], low, high, mid, i0, j0, wi0, wj0, pivot, stepped0) && i0 <= j0
      modifies this, keys
      ensures Valid() && Mirrors(keys, pos, u) && MappedOnly(old(shards), shards, u)
      ensures qubitCount == old(qubitCount) && counts == old(counts) && nextId == old(nextId)
      ensures PermutedWithin(k0, keys[..], low, high)
      ensures Scan(keys[..], low, high, mid, i, j, wi, wj, pivot, stepped) && j - i < j0 - i0
    {
      ghost var ks := keys[..];
      i := ScanUp(keys[..], i0, wi0, pivot);
      j := ScanDown(keys[..], j0, wj0, pivot);
      assert Scanned(ks, low, high, mid, i0, j0, wi0, wj0, pivot, stepped0, i, j);
      if i < j {
        Exchange(keys, pos, u, i, j, low, high, k0);
        ScanSwap(ks, keys[..], low, high, mid, i0, j0, wi0, wj0, pivot, stepped0, i, j);
        wi, wj := j, i;
        i, j := i + 1, j - 1;
        stepped := true;
      } else if i == j {
        ScanMeet(ks, low, high, mid, i0, j0, wi0, wj0, pivot, stepped0, i, j);
        wi, wj := wi0, wj0;
        i, j := i + 1, j - 1;
        stepped := true;
      } else {
        ScanCross(ks, low, high, mid, i0, j0, wi0, wj0, pivot, stepped0, i, j);
        wi, wj, stepped := wi0, wj0, stepped0;
      }
    }

    /**
     * SortUnit: sorts keys[low..high] (at least two keys) by exchanges, each
     * mirrored in the shard map, so the slots of the unit end up in the
     * order of the logical qubits that hold them.
     */
    method SortUnit(keys: array<nat>, pos: seq<nat>, u: UnitId, low: nat, high: nat)
      requires Valid() && Mirrors(keys, pos, u) && low < high < |pos|
      modifies this, keys
      ensures Valid() && Mirrors(keys, pos, u) && MappedOnly(old(shards), shards, u)
      ensures qubitCount == old(qubitCount) && counts == old(counts) && nextId == old(nextId)
      ensures PermutedWithin(old(keys[..]), keys[..], low, high) && SortedRange(keys[..], low, high)
      decreases high - low, 1
    {
      if low + 1 == high {
        SortPair(keys, pos, u, low, high);
        return;
      }
      ghost var k0, s0 := keys[..], shards;
      var i, j, pivot := Partition(keys, pos, u, low, high);
      ghost var k1, s1 := keys[..], shards;
      SortPart(keys, pos, u, low, j);
      ghost var k2, s2 := keys[..], shards;
      SortPart(keys, pos, u, i, high);
      PartitionSorted(k0, k1, k2, keys[..], low, j, i, high, pivot);
      MappedOnlyTrans(s0, s1, s2, u);
      MappedOnlyTrans(s0, s2, shards, u);
    }

    /**
     * OrderContiguous: lists the qubits of `unit` in logical order with their
     * slots as keys, then sorts the keys with SortUnit, exchanging slots in
     * the map alongside.  Afterwards the unit's qubits occupy its slots in
     * the same order as their logical indices.
     */
    method OrderContiguous(unit: Option<UnitId>)
      requires Valid() && (unit.Some? ==> Referenced(shards, unit.value))
      modifies this
      ensures Valid() && qubitCount == old(qubitCount) && counts == old(counts) && nextId == old(nextId)
      ensures unit.None? ==> shards == old(shards)
      ensures unit.Some? ==> MappedOnly(old(shards), shards, unit.value)
      ensures unit.Some? ==> InOrder(shards, unit.value)
    {
      if unit.None? {
        return;
      }
      var u := unit.value;
      CountOfReferenced(shards, counts, u);
      OwnersCount(shards, u);
      if counts[u] == 1 {
        OneOwnerInOrder(shards, u);
        MappedOnlyRefl(shards, u);
        return;
      }
      var keys, pos := CollectOwners(shards, u, counts[u]);
      ghost var s0 := shards;
      SortUnit(keys, pos, u, 0, |pos| - 1);
      SortedInOrder(s0, shards, keys[..], pos, u);
    }

    /** The guards `if (low < j)` and `if (i < high)` around the recursive calls. */
    method SortPart(keys: array<nat>, pos: seq<nat>, u: UnitId, low: nat, high: nat)
      requires Valid() && Mirrors(keys, pos, u) && low <= high < |pos|
      modifies this, keys
      ensures Valid() && Mirrors(keys, pos, u) && MappedOnly(old(shards), shards, u)
      ensures qubitCount == old(qubitCount) && counts == old(counts) && nextId == old(nextId)
      ensures PermutedWithin(old(keys[..]), keys[..], low, high) && SortedRange(keys[..], low, high)
      decreases high - low, 2
    {
      if low < high {
        SortUnit(keys, pos, u, low, high);
      } else {
        PermutedRefl(keys[..], low, high);
      }
    }

    /** Two keys: one exchange when they are out of order. */
    method SortPair(keys: array<nat>, pos: seq<nat>, u: UnitId, low: nat, high: nat)
      requires Valid() && Mirrors(keys, pos, u) && low + 1 == high < |pos|
      modifies this, keys
      ensures Valid() && Mirrors(keys, pos, u) && MappedOnly(old(shards), shards, u)
      ensures qubitCount == old(qubitCount) && counts == old(counts) && nextId == old(nextId)
      ensures PermutedWithin(old(keys[..]), keys[..], low, high) && SortedRange(keys[..], low, high)
    {
      if keys[high] < keys[low] {
        Exchange(keys, pos, u, low, high, low, high, keys[..]);
      } else {
        PermutedRefl(keys[..], low, high);
      }
    }

    /**
     * Fills `copy` (a register of the same size) with this register's shards,
     * each distinct unit replaced by one clone.
     */
    method CloneBody(copy: QUnit)
      requires Valid() && copy.Valid() && copy != this && copy.qubitCount == qubitCount
      modifies copy
      ensures copy.Valid() && copy.qubitCount == qubitCount
      ensures forall i | 0 <= i < qubitCount ::
        copy.shards[i] == shards[i].(unit := copy.shards[i].unit) && (copy.shards[i].unit.None? <==> shards[i].unit.None?)
      ensures forall i, j | 0 <= i < qubitCount && 0 <= j < qubitCount ::
        copy.shards[i].unit == copy.shards[j].unit <==> shards[i].unit == shards[j].unit
      ensures forall i | 0 <= i < qubitCount && copy.shards[i].unit.Some? ::
        copy.shards[i].unit.value !in old(copy.counts) && copy.counts[copy.shards[i].unit.value] == counts[shards[i].unit.value]
    {
      var dst, dstCounts, next := CloneInto(shards, counts, copy.nextId);
      copy.shards := dst;
      copy.counts := copy.counts + dstCounts;
      copy.nextId := next;
      CloneValid(copy.shards, old(copy.counts), dstCounts, old(copy.nextId));
    }

    static lemma CloneValid(dst: seq<Shard>, oldCounts: map<UnitId, nat>, dstCounts: map<UnitId, nat>, base: UnitId)
      requires WellFormed(dst, dstCounts)
      requires forall w | w in oldCounts :: w < base
      requires forall w | w in dstCounts :: base <= w
      ensures WellFormed(dst, oldCounts + dstCounts)
    {
    }

    /**
     * Inserts a clone of `toCopy`'s qubits at logical position `start` and
     * returns `start`.
     */
    method Compose(toCopy: QUnit, start: nat) returns (r: nat)
      requires Valid() && toCopy.Valid() && start <= qubitCount
      modifies this
      ensures Valid() && r == start
      ensures qubitCount == old(qubitCount) + old(toCopy.qubitCount)
      ensures shards[..start] == old(shards)[..start]
      ensures shards[start + old(toCopy.qubitCount)..] == old(shards)[start..]
      ensures forall j | 0 <= j < old(toCopy.qubitCount) ::
        shards[start + j] == old(toCopy.shards)[j].(unit := shards[start + j].unit)
        && (shards[start + j].unit.None? <==> old(toCopy.shards)[j].unit.None?)
        && (shards[start + j].unit.Some? ==> shards[start + j].unit.value !in old(counts))
      ensures forall i, j | 0 <= i < old(toCopy.qubitCount) && 0 <= j < old(toCopy.qubitCount) ::
        shards[start + i].unit == shards[start + j].unit <==> old(toCopy.shards)[i].unit == old(toCopy.shards)[j].unit
    {
      var block, blockCounts, next := CloneInto(toCopy.shards, toCopy.counts, nextId);
      ghost var s0 := shards;
      forall w | w in UnitsOf(shards) ensures w < nextId {
        var i :| 0 <= i < |shards| && shards[i].unit.Some? && shards[i].unit.value == w;
      }
      forall w | w in UnitsOf(block) ensures w in blockCounts {
        var i :| 0 <= i < |block| && block[i].unit.Some? && block[i].unit.value == w;
      }
      InsertKeeps(shards, counts, start, block, blockCounts);
      shards := Insert(shards, start, block);
      counts := counts + blockCounts;
      nextId := next;
      qubitCount := qubitCount + |block|;
      r := start;
      assert shards[..start] == s0[..start];
      assert shards[start + |block|..] == s0[start..];
    }

    /** A separable qubit gets its own one-qubit backing unit. */
    method EndEmulation(qubit: nat)
      requires Valid() && qubit < qubitCount
      modifies this
      ensures Valid() && qubitCount == old(qubitCount) && shards[qubit].unit.Some?
      ensures old(shards[qubit]).unit.Some? ==> shards == old(shards) && counts == old(counts) && nextId == old(nextId)
      ensures old(shards[qubit]).unit.None? ==>
        && shards == old(shards)[qubit := old(shards[qubit]).(unit := Some(old(nextId)), mapped := 0)]
        && counts == old(counts)[old(nextId) := 1] && nextId == old(nextId) + 1
    {
      if shards[qubit].unit.None? {
        FreshUnitKeeps(shards, counts, qubit, nextId);
        shards := shards[qubit := shards[qubit].(unit := Some(nextId), mapped := 0)];
        counts := counts[nextId := 1];
        nextId := nextId + 1;
      }
    }

    /** The mapped-- loop: closes the gap left by slot m of unit u. */
    method ShiftDown(u: UnitId, m: nat)
      modifies this
      ensures shards == Unslot(old(shards), u, m)
      ensures qubitCount == old(qubitCount) && counts == old(counts) && nextId == old(nextId)
    {
      var i := 0;
      while i < |shards|
        invariant 0 <= i <= |shards| == |old(shards)|
        invariant qubitCount == old(qubitCount) && counts == old(counts) && nextId == old(nextId)
        invariant forall k | 0 <= k < i :: shards[k] == Unslot(old(shards), u, m)[k]
        invariant forall k | i <= k < |shards| :: shards[k] == old(shards)[k]
      {
        if shards[i].unit == Some(u) && shards[i].mapped > m {
          shards := shards[i := shards[i].(mapped := shards[i].mapped - 1)];
        }
        i := i + 1;
      }
    }

    /**
     * The one-qubit-unit branch of ProbBase: a qubit alone in its unit becomes
     * separable.
     */
    method ProbBase(qubit: nat)
      requires Valid() && qubit < qubitCount
      modifies this
      ensures Valid() && qubitCount == old(qubitCount) && counts == old(counts) && nextId == old(nextId)
      ensures var s := old(shards[qubit]);
        shards == if s.unit.Some? && counts[s.unit.value] == 1
                  then old(shards)[qubit := Released(s)] else old(shards)
    {
      var s := shards[qubit];
      if s.unit.Some? && counts[s.unit.value] == 1 {
        ReleaseKeeps(shards, counts, qubit);
        shards := shards[qubit := Released(s)];
      }
    }

    /**
     * Forces a qubit to the classical value `value` and removes it from its
     * unit.  `refused` stands for a Clifford unit refusing to separate it.
     */
    method SeparateBit(value: bool, qubit: nat, refused: bool) returns (ok: bool)
      requires Valid() && qubit < qubitCount
      modifies this
      ensures Valid() && qubitCount == old(qubitCount) && nextId == old(nextId)
      ensures ok == !(old(shards[qubit]).unit.Some? && refused)
      ensures !ok ==> shards == old(shards) && counts == old(counts)
      ensures ok ==> shards[qubit] == SetClassical(old(shards[qubit]), value)
      ensures ok && old(shards[qubit]).unit.Some? ==>
        var u := old(shards[qubit]).unit.value;
        var m := old(shards[qubit]).mapped;
        if old(counts[u]) == 1 then shards == old(shards)[qubit := SetClassical(old(shards[qubit]), value)] && counts == old(counts)
        else
          && counts == old(counts)[u := old(counts[u]) - 1]
          && forall i | 0 <= i < qubitCount && i != qubit ::
               shards[i] == if old(shards[i]).unit == Some(u)
                            then (if old(counts[u]) == 2 then Released(old(shards[i]))
                                  else old(shards[i]).(mapped := if old(shards[i]).mapped > m then old(shards[i]).mapped - 1 else old(shards[i]).mapped))
                            else old(shards[i])
    {
      var shard := shards[qubit];
      if shard.unit.Some? && refused {
        return false;
      }
      ok := true;
      var t := SetClassical(shard, value);
      if shard.unit.None? || counts[shard.unit.value] == 1 {
        SeparatedUnitKeeps(shards, counts, qubit, t);
        shards := shards[qubit := t];
        return;
      }
      var u, m := shard.unit.value, shard.mapped;
      RemoveSlotKeeps(shards, counts, qubit, t);
      shards := shards[qubit := t];
      counts := counts[u := counts[u] - 1];
      ShiftDown(u, m);
      if counts[u] != 1 {
        return;
      }
      var partner := 0;
      while partner < qubitCount
        invariant 0 <= partner <= qubitCount
        invariant forall k | 0 <= k < partner :: shards[k].unit != Some(u)
        invariant shards == Unslot(old(shards)[qubit := t], u, m)
      {
        if shards[partner].unit == Some(u) {
          LastPartner(shards, counts, partner);
          ProbBase(partner);
          return;
        }
        partner := partner + 1;
      }
    }

    /**
     * TrySeparateClifford: `separates` is the Clifford unit's own verdict
     * (false also when the unit is not a stabilizer).  On success the qubit is
     * decomposed into a new one-qubit unit, which ProbBase then releases.
     */
    method TrySeparateClifford(qubit: nat, separates: bool) returns (ok: bool)
      requires Valid() && qubit < qubitCount
      modifies this
      ensures Valid() && qubitCount == old(qubitCount)
      ensures ok == (old(shards[qubit]).unit.Some? && separates)
      ensures !ok ==> shards == old(shards) && counts == old(counts) && nextId == old(nextId)
      ensures ok ==>
        var u := old(shards[qubit]).unit.value;
        && nextId == old(nextId) + 1
        && counts == old(counts)[u := old(counts[u]) - 1][old(nextId) := 1]
        && shards == Unslot(old(shards)[qubit := Released(old(shards[qubit]))], u, old(shards[qubit]).mapped)
    {
      var shard := shards[qubit];
      if shard.unit.None? || !separates {
        return false;
      }
      var sepUnit := MakeEngine(1);
      DecomposeOne(qubit, sepUnit);
      ProbBase(qubit);
      ok := true;
    }

    /**
     * The single-qubit case of TrySeparate.  `blocked` is BLOCKED_SEPARATE
     * (a Clifford unit refusing), `decomposes` the unit's TryDecompose verdict.
     */
    method TrySeparate(qubit: nat, blocked: bool, decomposes: bool) returns (ok: bool)
      requires Valid() && qubit < qubitCount
      modifies this
      ensures Valid() && qubitCount == old(qubitCount)
      ensures var s := old(shards[qubit]);
        ok == (s.unit.None? || old(counts[s.unit.value]) == 1 || (!blocked && decomposes))
      ensures var s := old(shards[qubit]);
        s.unit.None? || old(counts[s.unit.value]) == 1 || blocked ==>
          shards == old(shards) && counts == old(counts) && nextId == old(nextId)
      ensures var s := old(shards[qubit]);
        s.unit.Some? && old(counts[s.unit.value]) != 1 && !blocked ==>
          && nextId == old(nextId) + 1
          && (!decomposes ==> shards == old(shards) && counts == old(counts)[old(nextId) := 1])
          && (decomposes ==>
                && counts == old(counts)[s.unit.value := old(counts[s.unit.value]) - 1][old(nextId) := 1]
                && shards == Unslot(old(shards)[qubit := Released(s)], s.unit.value, s.mapped))
    {
      var shard := shards[qubit];
      if shard.unit.None? || counts[shard.unit.value] == 1 {
        return true;
      }
      if blocked {
        return false;
      }
      var nUnit := MakeEngine(1);
      if !decomposes {
        return false;
      }
      DecomposeOne(qubit, nUnit);
      CacheKeeps(shards, counts, qubit, shards[qubit].(isProbDirty := true, isPhaseDirty := true));
      shards := shards[qubit := shards[qubit].(isProbDirty := true, isPhaseDirty := true)];
      ProbBase(qubit);
      ok := true;
    }

    /**
     * `oUnit->Decompose(mapped, dest)` for a one-qubit `dest` no shard uses,
     * followed by the `mapped--` loop and the move of the shard into `dest`.
     */
    method DecomposeOne(qubit: nat, dest: UnitId)
      requires Valid() && qubit < qubitCount && shards[qubit].unit.Some?
      requires dest in counts && counts[dest] == 1
      requires forall i | 0 <= i < |shards| :: shards[i].unit != Some(dest)
      modifies this
      ensures Valid() && qubitCount == old(qubitCount) && nextId == old(nextId)
      ensures var u := old(shards[qubit]).unit.value;
        && u != dest
        && counts == old(counts)[u := old(counts[u]) - 1]
        && shards == Unslot(old(shards), u, old(shards[qubit]).mapped)[qubit := old(shards[qubit]).(unit := Some(dest), mapped := 0)]
    {
      var shard := shards[qubit];
      var u, m := shard.unit.value, shard.mapped;
      var t := shard.(unit := None, mapped := 0);
      DecomposeKeeps(shards, counts, qubit, dest);
      shards := shards[qubit := t];
      counts := counts[u := counts[u] - 1];
      ShiftDown(u, m);
      shards := shards[qubit := shards[qubit].(unit := Some(dest), mapped := 0)];
    }

    /**
     * Applies `fn` to each distinct unit in order of first appearance and
     * stops at the first one for which it fails.
     */
    method ParallelUnitApply(fn: UnitId -> bool) returns (ok: bool, units: seq<UnitId>)
      ensures units <= UnitList(shards)
      ensures ok <==> forall k | 0 <= k < |UnitList(shards)| :: fn(UnitList(shards)[k])
      ensures ok ==> units == UnitList(shards)
      ensures !ok ==> |units| > 0 && !fn(units[|units| - 1]) && forall k | 0 <= k < |units| - 1 :: fn(units[k])
    {
      units := [];
      var i := 0;
      while i < |shards|
        invariant 0 <= i <= |shards| && units == UnitList(shards[..i])
        invariant forall k | 0 <= k < |units| :: fn(units[k])
      {
        var toFind := shards[i].unit;
        assert shards[..i + 1][..i] == shards[..i];
        if toFind.Some? && toFind.value !in units {
          units := units + [toFind.value];
          if !fn(toFind.value) {
            UnitListPrefix(shards, i + 1);
            assert UnitList(shards)[|units| - 1] == toFind.value;
            return false, units;
          }
        }
        i := i + 1;
      }
      assert shards[..i] == shards;
      ok := true;
    }

    /** isFinished: every unit the register uses has finished its queued work. */
    method IsFinished(unitFinished: UnitId -> bool) returns (r: bool)
      ensures r <==> forall u | u in UnitsOf(shards) :: unitFinished(u)
    {
      var units;
      r, units := ParallelUnitApply(unitFinished);
      UnitListSpec(shards);
      if !r {
        var k :| 0 <= k < |UnitList(shards)| && !unitFinished(UnitList(shards)[k]);
        assert UnitList(shards)[k] in UnitList(shards);
      } else {
        forall u | u in UnitsOf(shards) ensures unitFinished(u) {
          assert u in UnitList(shards);
        }
      }
    }

    /** The EndEmulation loop over the listed bits. */
    method EndEmulationAll(bits: seq<nat>)
      requires Valid() && forall k | 0 <= k < |bits| :: bits[k] < qubitCount
      modifies this
      ensures Valid() && qubitCount == old(qubitCount) && old(nextId) <= nextId
      ensures Emulated(old(shards), shards, bits, old(nextId), old(counts))
    {
      var k := 0;
      assert bits[..0] == [];
      while k < |bits|
        invariant 0 <= k <= |bits|
        invariant Valid() && qubitCount == old(qubitCount) && old(nextId) <= nextId
        invariant Emulated(old(shards), shards, bits[..k], old(nextId), old(counts))
      {
        ghost var e, n := shards, nextId;
        EndEmulation(bits[k]);
        EmulatedStep(old(shards), e, shards, bits, k, old(nextId), old(counts), n);
        k := k + 1;
      }
      assert bits[..k] == bits;
    }

    /** The shard pass that moves every consumed unit's shards into its partner. */
    method RelabelPass(offsets: map<UnitId, nat>, partners: map<UnitId, UnitId>)
      requires offsets.Keys <= partners.Keys
      modifies this
      ensures shards == Relabel(old(shards), offsets, partners)
      ensures qubitCount == old(qubitCount) && counts == old(counts) && nextId == old(nextId)
    {
      var i := 0;
      while i < |shards|
        invariant 0 <= i <= |shards| == |old(shards)|
        invariant qubitCount == old(qubitCount) && counts == old(counts) && nextId == old(nextId)
        invariant forall k | 0 <= k < i :: shards[k] == Relabel(old(shards), offsets, partners)[k]
        invariant forall k | i <= k < |shards| :: shards[k] == old(shards)[k]
      {
        var shard := shards[i];
        if shard.unit.Some? && shard.unit.value in offsets {
          shards := shards[i := shard.(unit := Some(partners[shard.unit.value]), mapped := shard.mapped + offsets[shard.unit.value])];
        }
        i := i + 1;
      }
    }

    /** Odd number of units: unit1 composes units[1] first. */
    method OddStep(units: seq<UnitId>) returns (rest: seq<UnitId>, ghost into: map<UnitId, UnitId>, ghost shift: map<UnitId, nat>)
      requires Valid() && |units| >= 3
      requires Distinct(units)
      requires forall j | 0 <= j < |units| :: Referenced(shards, units[j])
      modifies this
      ensures Valid() && qubitCount == old(qubitCount) && nextId == old(nextId)
      ensures rest == [units[0]] + units[2..] && Distinct(rest)
      ensures forall k | 0 <= k < |rest| :: rest[k] in units
      ensures forall k | 0 <= k < |rest| :: Referenced(shards, rest[k])
      ensures RoundMoves(old(shards), shards, units, rest)
      ensures Lands(old(shards), shards, units, rest, into, shift)
    {
      var unit1, consumed := units[0], units[1];
      assert unit1 != consumed && Referenced(shards, unit1) && Referenced(shards, consumed);
      ghost var s0, c0 := shards, counts;
      OnePairKeeps(s0, c0, unit1, consumed);
      var offset := counts[unit1];
      var offsets, partners := map[consumed := offset], map[consumed := unit1];
      var merged := counts[unit1 := counts[unit1] + counts[consumed]];
      assert WellFormed(Relabel(s0, offsets, partners), merged);
      counts := merged;
      rest := [units[0]] + units[2..];
      into, shift := OddMoves(s0, units, rest, offsets, partners);
      RelabelPass(offsets, partners);
      assert WellFormed(shards, counts);
    }

    /** One pairing round: units[2k] composes units[2k+1], then one shard pass. */
    method PairRound(units: seq<UnitId>) returns (nUnits: seq<UnitId>, ghost into: map<UnitId, UnitId>, ghost shift: map<UnitId, nat>)
      requires Valid() && |units| >= 2 && |units| % 2 == 0
      requires Distinct(units)
      requires forall j | 0 <= j < |units| :: Referenced(shards, units[j])
      modifies this
      ensures Valid() && qubitCount == old(qubitCount) && nextId == old(nextId)
      ensures 2 * |nUnits| == |units| && forall k | 0 <= k < |nUnits| :: nUnits[k] == units[2 * k]
      ensures Distinct(nUnits) && forall k | 0 <= k < |nUnits| :: nUnits[k] in units
      ensures forall k | 0 <= k < |nUnits| :: Referenced(shards, nUnits[k])
      ensures RoundMoves(old(shards), shards, units, nUnits)
      ensures Lands(old(shards), shards, units, nUnits, into, shift)
    {
      ghost var counts0 := counts;
      forall j | 0 <= j < |units| ensures units[j] in counts {
        CountOfReferenced(shards, counts, units[j]);
      }
      var offsets, partners;
      ghost var mates;
      nUnits, offsets, partners, mates := ComposePairs(units);
      forall k | 0 <= k < |nUnits| ensures Referenced(shards, nUnits[k]) {
        assert nUnits[k] == units[2 * k];
      }
      forall c | c in partners ensures Referenced(shards, c) && Referenced(shards, partners[c]) {
        var j :| 0 <= j < |units| && units[j] == c;
        var k :| 0 <= k < |nUnits| && nUnits[k] == partners[c];
      }
      RelabelKeeps(shards, counts0, offsets, partners, mates);
      RelabelMoves(shards, offsets, partners, units, nUnits);
      into, shift := RelabelLands(shards, offsets, partners, units, nUnits);
      RelabelPass(offsets, partners);
      DistinctEvens(units, nUnits);
    }

    /**
     * The pairing loop: each retained unit composes its consumed partner,
     * recording the offset Compose returns and the partner.
     */
    method ComposePairs(units: seq<UnitId>)
      returns (nUnits: seq<UnitId>, offsets: map<UnitId, nat>, partners: map<UnitId, UnitId>, ghost mates: map<UnitId, UnitId>)
      requires |units| % 2 == 0
      requires Distinct(units)
      requires forall j | 0 <= j < |units| :: units[j] in counts
      modifies this
      ensures shards == old(shards) && nextId == old(nextId) && qubitCount == old(qubitCount)
      ensures MergePlan(old(counts), offsets, partners, mates) && counts == MergedCounts(old(counts), mates)
      ensures 2 * |nUnits| == |units| && forall k | 0 <= k < |nUnits| :: nUnits[k] == units[2 * k]
      ensures forall c | c in partners :: c in units
      ensures forall j | 0 <= j < |units| :: if units[j] in partners then partners[units[j]] in nUnits else units[j] in nUnits
      ensures forall k | 0 <= k < |nUnits| :: nUnits[k] !in partners
    {
      nUnits := [];
      ghost var gone: seq<UnitId> := [];
      offsets, partners, mates := map[], map[], map[];
      ghost var half := Half(|units|);
      var counts0, merged := counts, counts;
      var i := 0;
      while i < |units|
        invariant 0 <= i <= |units| && |nUnits| <= half
        invariant unchanged(this)
        invariant PairPlan(units, i, counts0, offsets, partners, mates, nUnits, gone)
        invariant merged == MergedCounts(counts0, mates)
      {
        var retained, consumed := units[i], units[i + 1];
        PairPlanStep(units, i, counts0, offsets, partners, mates, nUnits, gone);
        MergedCountsStep(counts0, mates, retained, consumed);
        nUnits := nUnits + [retained];
        gone := gone + [consumed];
        offsets := offsets[consumed := merged[retained]];
        merged := merged[retained := merged[retained] + merged[consumed]];
        partners := partners[consumed := retained];
        mates := mates[retained := consumed];
        i := i + 2;
      }
      counts := merged;
      PairPlanDone(units, counts0, offsets, partners, mates, nUnits, gone);
    }

    /** The odd step of a round, taken when the number of units is odd. */
    method MakeEven(left: seq<UnitId>) returns (even: seq<UnitId>, ghost into: map<UnitId, UnitId>, ghost shift: map<UnitId, nat>)
      requires Valid() && |left| > 1 && Distinct(left)
      requires forall j | 0 <= j < |left| :: Referenced(shards, left[j])
      modifies this
      ensures Valid() && qubitCount == old(qubitCount) && nextId == old(nextId)
      ensures 2 <= |even| <= |left| && |even| % 2 == 0 && even[0] == left[0] && Distinct(even)
      ensures forall k | 0 <= k < |even| :: Referenced(shards, even[k]) && even[k] in left
      ensures RoundMoves(old(shards), shards, left, even)
      ensures Lands(old(shards), shards, left, even, into, shift)
    {
      if |left| % 2 == 1 {
        ghost var n: nat := |left|;
        OddPredecessor(n);
        even, into, shift := OddStep(left);
        assert |even| == n - 1;
      } else {
        even := left;
        RoundMovesSame(shards, left);
        into, shift := LandsSame(shards, left);
      }
    }

    /**
     * One pass of the `while (units.size() > 1)` loop: an odd step when the
     * count is odd, then a pairing round.
     */
    method MergeRound(left: seq<UnitId>) returns (next: seq<UnitId>, ghost into: map<UnitId, UnitId>, ghost shift: map<UnitId, nat>)
      requires Valid() && |left| > 1 && Distinct(left)
      requires forall j | 0 <= j < |left| :: Referenced(shards, left[j])
      modifies this
      ensures Valid() && qubitCount == old(qubitCount) && nextId == old(nextId)
      ensures 1 <= |next| < |left| && next[0] == left[0] && Distinct(next)
      ensures forall k | 0 <= k < |next| :: Referenced(shards, next[k]) && next[k] in left
      ensures RoundMoves(old(shards), shards, left, next)
      ensures Lands(old(shards), shards, left, next, into, shift)
    {
      var even, into1, shift1 := MakeEven(left);
      ghost var s1 := shards;
      ghost var into2, shift2;
      next, into2, shift2 := PairRound(even);
      RoundMovesTrans(old(shards), s1, shards, left, even, next);
      into, shift := LandsTrans(old(shards), s1, shards, left, even, next, into1, shift1, into2, shift2);
      SubList(next, even, left);
    }

    /**
     * The `while (units.size() > 1)` loop: rounds until only the first unit
     * is left, holding every shard of every listed unit.
     */
    method MergeAll(units: seq<UnitId>) returns (ghost into: map<UnitId, UnitId>, ghost shift: map<UnitId, nat>)
      requires Valid() && |units| >= 1 && Distinct(units)
      requires forall j | 0 <= j < |units| :: Referenced(shards, units[j])
      modifies this
      ensures Valid() && qubitCount == old(qubitCount) && nextId == old(nextId)
      ensures RoundMoves(old(shards), shards, units, [units[0]])
      ensures Lands(old(shards), shards, units, [units[0]], into, shift)
    {
      var left := units;
      MergingStart(shards, units);
      into, shift := LandsSame(shards, units);
      while |left| > 1
        invariant Valid() && qubitCount == old(qubitCount) && nextId == old(nextId)
        invariant Merging(old(shards), shards, units, left)
        invariant Lands(old(shards), shards, units, left, into, shift)
        decreases |left|
      {
        ghost var s1 := shards;
        var next, into1, shift1 := MergeRound(left);
        MergingStep(old(shards), s1, shards, units, left, next);
        into, shift := LandsTrans(old(shards), s1, shards, units, left, next, into, shift, into1, shift1);
        left := next;
      }
      assert left == [units[0]];
    }

    /**
     * Gives every listed qubit a backing unit and composes all of their units
     * into the first one, pairwise in rounds.  Returns that unit and the slot
     * of each listed qubit in it.
     */
    method EntangleInCurrentBasis(bits: seq<nat>) returns (unit1: UnitId, mappedBits: seq<nat>, ghost shift: map<UnitId, nat>)
      requires Valid() && |bits| > 0 && forall k | 0 <= k < |bits| :: bits[k] < qubitCount
      modifies this
      ensures Valid() && qubitCount == old(qubitCount)
      ensures |mappedBits| == |bits|
      ensures forall k | 0 <= k < |bits| :: shards[bits[k]].unit == Some(unit1) && mappedBits[k] == shards[bits[k]].mapped
      ensures forall i | 0 <= i < qubitCount :: shards[i] == old(shards[i]).(unit := shards[i].unit, mapped := shards[i].mapped)
      ensures forall i | 0 <= i < qubitCount && old(shards[i]).unit.Some? && old(shards[i]).unit.value in UnitsAt(old(shards), bits) ::
        shards[i].unit == Some(unit1)
      ensures forall i | 0 <= i < qubitCount && old(shards[i]).unit.Some? && old(shards[i]).unit.value in UnitsAt(old(shards), bits) ::
        old(shards[i]).unit.value in shift && shards[i].mapped == old(shards[i]).mapped + shift[old(shards[i]).unit.value]
      ensures unit1 in shift && shift[unit1] == 0
      ensures forall i | 0 <= i < qubitCount && i !in bits && !(old(shards[i]).unit.Some? && old(shards[i]).unit.value in UnitsAt(old(shards), bits)) ::
        shards[i] == old(shards[i])
    {
      EndEmulationAll(bits);
      ghost var e := shards;
      var units := CollectUnits(shards, bits);
      unit1 := units[0];
      ghost var into;
      into, shift := MergeAll(units);
      mappedBits := SlotsOf(shards, bits);
      EntangledAll(old(shards), e, shards, bits, units, old(nextId), old(counts), into, shift);
    }

    // ------------------------------------------------------------- Detach

    /**
     * The first loop of Detach: how many of the detached qubits each unit
     * holds (`subunits`) and, with a destination, the destination's shards
     * as they start out: fresh |0> shards, with the unit-less detached shards
     * copied in.
     */
    method CountSubunits(start: nat, length: nat, withDest: bool) returns (sub: map<UnitId, nat>, dest: seq<Shard>)
      requires start + length <= |shards|
      ensures sub == SubMap(shards, start, length)
      ensures withDest ==> |dest| == length && forall k | 0 <= k < length :: dest[k] == Pending(shards[start + k])
      ensures !withDest ==> dest == []
    {
      sub := map[];
      dest := if withDest then seq(length, _ => Classical(false)) else [];
      var i := 0;
      while i < length
        invariant i <= length && sub == SubMap(shards, start, i)
        invariant withDest ==> |dest| == length && forall k | 0 <= k < length ::
          dest[k] == if k < i then Pending(shards[start + k]) else Classical(false)
        invariant !withDest ==> dest == []
      {
        SubMapStep(shards, start, i);
        var shard := shards[start + i];
        if shard.unit.Some? {
          var u := shard.unit.value;
          sub := sub[u := (if u in sub then sub[u] else 0) + 1];
        } else if withDest {
          dest := dest[i := shard];
        }
        i := i + 1;
      }
    }

    /**
     * The ordering loop of Detach: OrderContiguous on each unit among the
     * detached shards, in no particular order (`subunits` is keyed by pointer).
     */
    method OrderUnits(units: set<UnitId>)
      requires Valid() && forall u | u in units :: Referenced(shards, u)
      modifies this
      ensures Valid() && qubitCount == old(qubitCount) && counts == old(counts) && nextId == old(nextId)
      ensures SlotsOnly(old(shards), shards)
      ensures forall j | 0 <= j < |shards| && (old(shards)[j].unit.None? || old(shards)[j].unit.value !in units) ::
        shards[j] == old(shards)[j]
      ensures forall u | u in units :: InOrder(shards, u)
    {
      var todo := units;
      while todo != {}
        invariant Valid() && qubitCount == old(qubitCount) && counts == old(counts) && nextId == old(nextId)
        invariant Ordering(old(shards), shards, units, todo)
        decreases |todo|
      {
        var u :| u in todo;
        ghost var before := shards;
        OrderContiguous(Some(u));
        OrderStep(old(shards), before, shards, u, units, todo);
        todo := todo - {u};
      }
    }

    /** The release search of Detach: the first shard of unit u at slot m, or |shards| when there is none. */
    method FindSlot(u: UnitId, m: nat) returns (k: nat)
      ensures k <= |shards|
      ensures k < |shards| ==> shards[k].unit == Some(u) && shards[k].mapped == m
      ensures forall j | 0 <= j < k :: !(shards[j].unit == Some(u) && shards[j].mapped == m)
    {
      k := 0;
      while k < |shards| && !(shards[k].unit == Some(u) && shards[k].mapped == m)
        invariant k <= |shards|
        invariant forall j | 0 <= j < k :: !(shards[j].unit == Some(u) && shards[j].mapped == m)
      {
        k := k + 1;
      }
    }

    /** The closing loop of Detach: each shard of an affected unit above its block moves down by the block's length. */
    method ShiftRest(sub: map<UnitId, nat>, thr: map<UnitId, nat>)
      modifies this
      ensures |shards| == |old(shards)| && forall j | 0 <= j < |shards| :: shards[j] == Shifted(old(shards)[j], sub, thr)
      ensures qubitCount == old(qubitCount) && counts == old(counts) && nextId == old(nextId)
    {
      var j := 0;
      while j < |shards|
        invariant j <= |shards| == |old(shards)|
        invariant forall k | 0 <= k < j :: shards[k] == Shifted(old(shards)[k], sub, thr)
        invariant forall k | j <= k < |shards| :: shards[k] == old(shards)[k]
        invariant qubitCount == old(qubitCount) && counts == old(counts) && nextId == old(nextId)
      {
        var shard := shards[j];
        if shard.unit.Some? && shard.unit.value in sub && shard.unit.value in thr
           && shard.mapped >= thr[shard.unit.value] + sub[shard.unit.value]
        {
          shards := shards[j := shard.(mapped := shard.mapped - sub[shard.unit.value])];
        }
        j := j + 1;
      }
    }

    /**
     * One step of Detach's middle pass at a detached shard that is unit-less
     * (nothing to do) or whose unit was split off at an earlier shard: it
     * takes that shard's unit.
     */
    method StepSeen(ghost s: seq<Shard>, ghost c: map<UnitId, nat>, ghost n: UnitId, start: nat, length: nat, withDest: bool, i: nat,
                    decomposed: map<UnitId, nat>, thr: map<UnitId, nat>, made: map<UnitId, UnitId>,
                    dest: seq<Shard>) returns (dest': seq<Shard>)
      requires i < length && WellFormed(s, c) && Blocks(s, c, start, length) && forall u | u in c :: u < n
      requires shards == Mid(s, c, start, length, withDest, made, i) && Split(s, start, i, decomposed, thr)
      requires Made(s, c, n, start, length, withDest, i, nextId, made)
      requires withDest ==> DestEntries(s, c, start, length, made, i, dest)
      requires shards[start + i].unit.None? || shards[start + i].unit.value in decomposed
      modifies this
      ensures var sub, thr0 := SubMap(s, start, length), ThrMap(s, start, length);
        && shards == old(shards)[start + i := Taken(s[start + i], c, sub, made, withDest)]
        && dest' == if withDest then dest[i := Moved(s[start + i], c, sub, thr0, made)] else dest
      ensures qubitCount == old(qubitCount) && counts == old(counts) && nextId == old(nextId)
    {
      var shard := shards[start + i];
      assert shard == s[start + i];
      dest' := dest;
      if shard.unit.None? {
        assert shards[start + i := shard] == shards;
        if withDest {
          assert dest[i] == DestAt(s, c, start, length, made, i, i);
          assert dest[i := shard] == dest;
        }
        return;
      }
      var u := shard.unit.value;
      SeenTakes(s, c, n, start, length, withDest, i, nextId, decomposed, thr, made, shards);
      shard := shard.(unit := shards[decomposed[u]].unit);
      shards := shards[start + i := shard];
      if withDest {
        dest' := dest[i := Rebased(shard, u, made, thr)];
      }
    }

    /**
     * One step of Detach's middle pass at the first detached shard of a unit
     * (slot start + i, unit u, q of whose qubits are detached): a wholly
     * detached unit stays as it is (a destination takes it over); otherwise
     * the unit gives up its q qubits, to a new unit in the destination or to
     * nothing, a lone detached qubit is released in the destination, and
     * when one qubit is left behind, the first shard of u at the slot it will
     * keep (k) is released.
     */
    method StepFirst(start: nat, length: nat, withDest: bool, sub: map<UnitId, nat>, i: nat,
                     decomposed: map<UnitId, nat>, thr: map<UnitId, nat>, made: map<UnitId, UnitId>,
                     dest: seq<Shard>, destCounts: map<UnitId, nat>)
      returns (decomposed': map<UnitId, nat>, thr': map<UnitId, nat>, made': map<UnitId, UnitId>,
               dest': seq<Shard>, destCounts': map<UnitId, nat>, k: nat)
      requires start + i < |shards| && shards[start + i].unit.Some? && (withDest ==> i < |dest|)
      requires var u := shards[start + i].unit.value; u in sub && u in counts && sub[u] <= counts[u]
      requires forall v | v in counts :: v < nextId
      modifies this
      ensures qubitCount == old(qubitCount)
      ensures var t := old(shards)[start + i];
        decomposed' == decomposed[t.unit.value := start + i] && thr' == thr[t.unit.value := t.mapped]
      ensures var t := old(shards)[start + i]; var u := t.unit.value;
        sub[u] == old(counts)[u] ==>
          && shards == old(shards) && counts == old(counts) && nextId == old(nextId) && made' == made
          && dest' == (if withDest then dest[i := t] else dest)
          && destCounts' == (if withDest then destCounts[u := sub[u]] else destCounts)
      ensures var u := old(shards)[start + i].unit.value;
        sub[u] < old(counts)[u] ==>
          PartTaken(start, i, withDest, sub[u], old(shards), old(counts), old(nextId), thr, made, dest, destCounts, k,
                    shards, counts, nextId, made', dest', destCounts')
    {
      var shard := shards[start + i];
      var u := shard.unit.value;
      var subLen, origLen := sub[u], counts[u];
      decomposed', thr' := decomposed[u := start + i], thr[u := shard.mapped];
      made', dest', destCounts', k := made, dest, destCounts, 0;
      if subLen == origLen {
        if withDest {
          dest' := dest[i := shard];
          destCounts' := destCounts[u := origLen];
        }
        return;
      }
      if withDest {
        var nu := MakeEngine(subLen);
        counts := counts[u := origLen - subLen];
        shard := if subLen == 1 then Released(shard) else shard.(unit := Some(nu));
        made' := made[u := nu];
        destCounts' := destCounts[nu := subLen];
      } else {
        counts := counts[u := origLen - subLen];
      }
      shards := shards[start + i := shard];
      if subLen + 1 == origLen {
        var target := if thr'[u] == 0 then subLen else 0;
        k := FindSlot(u, target);
        if k < |shards| {
          shards := shards[k := Released(shards[k])];
        }
      }
      if withDest {
        dest' := dest[i := Rebased(shard, u, made', thr')];
      }
    }

    /** Step i of Walk at a unit-less shard or one whose unit was met before. */
    method WalkSeen(ghost s: seq<Shard>, ghost c: map<UnitId, nat>, ghost n: UnitId, start: nat, length: nat, withDest: bool, i: nat,
                    decomposed: map<UnitId, nat>, thr: map<UnitId, nat>, made: map<UnitId, UnitId>,
                    dest: seq<Shard>, destCounts: map<UnitId, nat>) returns (dest': seq<Shard>)
      requires i < length
      requires Decomposing(s, c, n, start, length, withDest, i, shards, counts, nextId, decomposed, thr, made, dest, destCounts)
      requires s[start + i].unit.None? || s[start + i].unit.value in decomposed
      modifies this
      ensures Decomposing(s, c, n, start, length, withDest, i + 1, shards, counts, nextId, decomposed, thr, made, dest', destCounts)
      ensures qubitCount == old(qubitCount)
    {
      StepFacts(s, c, n, start, length, withDest, i, shards, counts, nextId, decomposed, thr, made, dest, destCounts);
      ghost var shards0 := shards;
      dest' := StepSeen(s, c, n, start, length, withDest, i, decomposed, thr, made, dest);
      SeenLands(s, c, n, start, length, withDest, i, shards0, counts, nextId, decomposed, thr, made, dest, destCounts,
                shards, dest');
    }

    /** Step i of Walk at the first detached shard of a unit. */
    method WalkFirst(ghost s: seq<Shard>, ghost c: map<UnitId, nat>, ghost n: UnitId, start: nat, length: nat, withDest: bool,
                     sub: map<UnitId, nat>, i: nat, decomposed: map<UnitId, nat>, thr: map<UnitId, nat>, made: map<UnitId, UnitId>,
                     dest: seq<Shard>, destCounts: map<UnitId, nat>)
      returns (decomposed': map<UnitId, nat>, thr': map<UnitId, nat>, made': map<UnitId, UnitId>,
               dest': seq<Shard>, destCounts': map<UnitId, nat>)
      requires i < length
      requires Decomposing(s, c, n, start, length, withDest, i, shards, counts, nextId, decomposed, thr, made, dest, destCounts)
      requires start + length <= |s| && sub == SubMap(s, start, length)
      requires s[start + i].unit.Some? && s[start + i].unit.value !in decomposed
      modifies this
      ensures Decomposing(s, c, n, start, length, withDest, i + 1, shards, counts, nextId, decomposed', thr', made', dest', destCounts')
      ensures qubitCount == old(qubitCount)
    {
      StepFacts(s, c, n, start, length, withDest, i, shards, counts, nextId, decomposed, thr, made, dest, destCounts);
      ghost var shards0, counts0, nextId0 := shards, counts, nextId;
      var t := shards[start + i];
      var whole := sub[t.unit.value] == counts[t.unit.value];
      var k;
      decomposed', thr', made', dest', destCounts', k := StepFirst(start, length, withDest, sub, i, decomposed, thr, made, dest, destCounts);
      if whole {
        WholeLands(s, c, n, start, length, withDest, i, shards0, counts0, nextId0, decomposed, thr, made, dest, destCounts,
                   decomposed', thr', dest', destCounts');
      } else {
        FirstLands(s, c, n, start, length, withDest, i, shards0, counts0, nextId0, decomposed, thr, made, dest, destCounts, k,
                   shards, counts, nextId, decomposed', thr', made', dest', destCounts');
      }
    }

    /** Step i of Walk: StepSeen or StepFirst, as the shard's unit was met before or not. */
    method WalkStep(ghost s: seq<Shard>, ghost c: map<UnitId, nat>, ghost n: UnitId, start: nat, length: nat, withDest: bool,
                    sub: map<UnitId, nat>, i: nat, decomposed: map<UnitId, nat>, thr: map<UnitId, nat>, made: map<UnitId, UnitId>,
                    dest: seq<Shard>, destCounts: map<UnitId, nat>)
      returns (decomposed': map<UnitId, nat>, thr': map<UnitId, nat>, made': map<UnitId, UnitId>,
               dest': seq<Shard>, destCounts': map<UnitId, nat>)
      requires i < length
      requires Decomposing(s, c, n, start, length, withDest, i, shards, counts, nextId, decomposed, thr, made, dest, destCounts)
      requires start + length <= |s| && sub == SubMap(s, start, length)
      modifies this
      ensures Decomposing(s, c, n, start, length, withDest, i + 1, shards, counts, nextId, decomposed', thr', made', dest', destCounts')
      ensures qubitCount == old(qubitCount)
    {
      StepFacts(s, c, n, start, length, withDest, i, shards, counts, nextId, decomposed, thr, made, dest, destCounts);
      decomposed', thr', made', destCounts' := decomposed, thr, made, destCounts;
      if shards[start + i].unit.None? || shards[start + i].unit.value in decomposed {
        dest' := WalkSeen(s, c, n, start, length, withDest, i, decomposed, thr, made, dest, destCounts);
      } else {
        decomposed', thr', made', dest', destCounts' := WalkFirst(s, c, n, start, length, withDest, sub, i, decomposed, thr, made, dest, destCounts);
      }
    }

    /**
     * The middle pass of Detach over the detached shards start .. start +
     * length - 1 of the ordered map s (unit sizes c, handles below n): it
     * keeps Decomposing from the first shard to the last.
     */
    method Walk(ghost s: seq<Shard>, ghost c: map<UnitId, nat>, ghost n: UnitId, start: nat, length: nat, withDest: bool,
                sub: map<UnitId, nat>, dest0: seq<Shard>)
      returns (decomposed: map<UnitId, nat>, thr: map<UnitId, nat>, made: map<UnitId, UnitId>,
               dest: seq<Shard>, destCounts: map<UnitId, nat>)
      requires Decomposing(s, c, n, start, length, withDest, 0, shards, counts, nextId, map[], map[], map[], dest0, map[])
      requires start + length <= |s| && sub == SubMap(s, start, length)
      modifies this
      ensures Decomposing(s, c, n, start, length, withDest, length, shards, counts, nextId, decomposed, thr, made, dest, destCounts)
      ensures qubitCount == old(qubitCount)
    {
      decomposed, thr, made, dest, destCounts := map[], map[], map[], dest0, map[];
      var i := 0;
      while i < length
        invariant Decomposing(s, c, n, start, length, withDest, i, shards, counts, nextId, decomposed, thr, made, dest, destCounts)
        invariant qubitCount == old(qubitCount)
      {
        decomposed, thr, made, dest, destCounts := WalkStep(s, c, n, start, length, withDest, sub, i, decomposed, thr, made, dest, destCounts);
        i := i + 1;
      }
    }

    /**
     * Detach: removes the qubits start .. start + length - 1 from the
     * register, handing them to a destination when `withDest` (Decompose)
     * or dropping them (Dispose). The detached qubits' units are first made
     * contiguous (`ordered`); a unit wholly detached goes to the destination
     * as it is, a partly detached one is split, its detached qubits going
     * to a fresh unit (`made`); the remaining qubits of the split units move
     * down by the number detached. `dest` and `destCounts` are the
     * destination's map and unit sizes.
     */
    method Detach(start: nat, length: nat, withDest: bool)
      returns (dest: seq<Shard>, destCounts: map<UnitId, nat>, made: map<UnitId, UnitId>, ghost ordered: seq<Shard>)
      requires Valid() && start + length <= |shards|
      modifies this
      ensures Valid() && qubitCount == old(qubitCount) - length
      ensures SlotsOnly(old(shards), ordered)
      ensures forall j | 0 <= j < |ordered| && (old(shards)[j].unit.None? || old(shards)[j].unit.value !in SubMap(old(shards), start, length)) ::
        ordered[j] == old(shards)[j]
      ensures length > 1 ==> forall u | u in SubMap(old(shards), start, length) :: InOrder(ordered, u)
      ensures length <= 1 ==> ordered == old(shards)
      ensures WellFormed(ordered, old(counts)) && Blocks(ordered, old(counts), start, length)
      ensures shards == Rest(ordered, old(counts), start, length)
      ensures forall v | v in old(counts) :: v in counts && counts[v] == RestCounts(old(counts), ordered, start, length)[v]
      ensures forall u | u in made :: old(nextId) <= made[u] < nextId
      ensures withDest ==> dest == DestOf(ordered, old(counts), start, length, made) && WellFormed(dest, destCounts)
      ensures !withDest ==> dest == [] && destCounts == map[] && made == map[]
    {
      var sub, dest0 := CountSubunits(start, length, withDest);
      if length > 1 {
        DetachedReferenced(shards, start, length);
        OrderUnits(sub.Keys);
      }
      ordered := shards;
      SlotsOnlyRefl(old(shards));
      SlotsOnlySubMap(old(shards), ordered, start, length);
      SlotsOnlyPending(old(shards), ordered);
      if length > 1 {
        OrderedBlocks(ordered, counts, start, length);
      } else {
        SingleBlocks(ordered, counts, start, length);
      }
      ghost var c, n := counts, nextId;
      WalkStart(ordered, c, n, start, length, withDest, dest0);
      var decomposed, thr;
      decomposed, thr, made, dest, destCounts := Walk(ordered, c, n, start, length, withDest, sub, dest0);
      SplitDone(ordered, start, length, decomposed, thr);
      SizesDone(ordered, c, start, length, counts, nextId, made);
      if withDest {
        DestDone(ordered, c, n, start, length, nextId, made, dest, destCounts);
        DestKeeps(ordered, c, destCounts, start, length, made);
      }
      ShiftRest(sub, thr);
      MidRest(ordered, c, start, length, withDest, made, shards);
      shards := shards[..start] + shards[start + length..];
      qubitCount := qubitCount - length;
      RestKeeps(ordered, c, start, length);
      CountsExtend(shards, RestCounts(c, ordered, start, length), counts);
    }

    /** Decompose: the qubits start .. start + length - 1 leave for a destination register of that many qubits. */
    method Decompose(start: nat, length: nat) returns (dest: seq<Shard>, destCounts: map<UnitId, nat>)
      requires Valid() && start + length <= |shards|
      modifies this
      ensures Valid() && qubitCount == old(qubitCount) - length && |dest| == length && WellFormed(dest, destCounts)
      ensures exists r, made :: SlotsOnly(old(shards), r) && shards == Rest(r, old(counts), start, length)
                                && dest == DestOf(r, old(counts), start, length, made)
    {
      var made;
      ghost var ordered;
      dest, destCounts, made, ordered := Detach(start, length, true);
    }

    /** Dispose: the qubits start .. start + length - 1 are dropped. */
    method Dispose(start: nat, length: nat)
      requires Valid() && start + length <= |shards|
      modifies this
      ensures Valid() && qubitCount == old(qubitCount) - length
      ensures exists r :: SlotsOnly(old(shards), r) && shards == Rest(r, old(counts), start, length)
    {
      var dest, destCounts, made;
      ghost var ordered;
      dest, destCounts, made, ordered := Detach(start, length, false);
    }
  }

  /**
   * The state of OrderUnits from s0 with the units in todo still to order:
   * only slots changed, and only those of the units; the units already done
   * are in order; those left are still referenced.
   */
  ghost predicate Ordering(s0: seq<Shard>, s: seq<Shard>, units: set<UnitId>, todo: set<UnitId>)
  {
    && todo <= units && SlotsOnly(s0, s)
    && (forall j | 0 <= j < |s| && (s0[j].unit.None? || s0[j].unit.value !in units) :: s[j] == s0[j])
    && (forall v | v in units && v !in todo :: InOrder(s, v))
    && (forall v | v in todo :: Referenced(s, v))
  }

  /** One OrderContiguous inside OrderUnits keeps what the loop has established. */
  lemma OrderStep(s0: seq<Shard>, s: seq<Shard>, r: seq<Shard>, u: UnitId, units: set<UnitId>, todo: set<UnitId>)
    requires Ordering(s0, s, units, todo) && u in todo && MappedOnly(s, r, u) && InOrder(r, u)
    ensures Ordering(s0, r, units, todo - {u})
  {
    forall v: UnitId | Referenced(s, v) ensures Referenced(r, v) {
      var j :| 0 <= j < |s| && s[j].unit == Some(v);
      assert r[j].unit == Some(v);
    }
    assert forall v | v != u && InOrder(s, v) :: InOrder(r, v);
  }

  /** Every unit among the detached shards holds some shard. */
  lemma DetachedReferenced(s: seq<Shard>, start: nat, length: nat)
    requires start + length <= |s|
    ensures forall u | u in SubMap(s, start, length) :: Referenced(s, u)
  {
    forall u | u in SubMap(s, start, length) ensures Referenced(s, u) {
      var k := UnitsOfRange(s, start, length, u);
    }
  }

  /** Unit sizes that agree on every referenced unit keep the invariant. */
  lemma CountsExtend(r: seq<Shard>, rc: map<UnitId, nat>, counts: map<UnitId, nat>)
    requires WellFormed(r, rc) && forall v | v in rc :: v in counts && counts[v] == rc[v]
    ensures WellFormed(r, counts)
  {
  }

  /**
   * Moving shard q out of its unit into the fresh one-qubit unit `dest`, and
   * closing the gap, keeps the invariant; clearing the shard first does not
   * change what the gap-closing pass does.
   */
  lemma DecomposeKeeps(s: seq<Shard>, counts: map<UnitId, nat>, q: nat, dest: UnitId)
    requires WellFormed(s, counts) && q < |s| && s[q].unit.Some?
    requires dest in counts && counts[dest] == 1
    requires forall i | 0 <= i < |s| :: s[i].unit != Some(dest)
    ensures s[q].unit.value != dest && s[q].unit.value in counts && counts[s[q].unit.value] >= 1
    ensures var u, m, t := s[q].unit.value, s[q].mapped, s[q].(unit := None, mapped := 0);
      var r := Unslot(s[q := t], u, m);
      && r[q].unit.None?
      && r[q := r[q].(unit := Some(dest), mapped := 0)] == Unslot(s, u, m)[q := s[q].(unit := Some(dest), mapped := 0)]
      && WellFormed(r[q := r[q].(unit := Some(dest), mapped := 0)], counts[u := counts[u] - 1])
  {
    var u, m, t := s[q].unit.value, s[q].mapped, s[q].(unit := None, mapped := 0);
    RemoveSlotKeeps(s, counts, q, t);
    var r := Unslot(s[q := t], u, m);
    var c := counts[u := counts[u] - 1];
    FreshUnitKeeps(r, c, q, dest);
    assert c[dest := 1] == c;
    assert r[q := r[q].(unit := Some(dest), mapped := 0)] == Unslot(s, u, m)[q := s[q].(unit := Some(dest), mapped := 0)];
  }

  /** The slot of each listed qubit in its unit, in list order. */
  method SlotsOf(s: seq<Shard>, bits: seq<nat>) returns (mapped: seq<nat>)
    requires forall k | 0 <= k < |bits| :: bits[k] < |s|
    ensures |mapped| == |bits| && forall k | 0 <= k < |bits| :: mapped[k] == s[bits[k]].mapped
  {
    mapped := [];
    var k := 0;
    while k < |bits|
      invariant 0 <= k <= |bits| && |mapped| == k
      invariant forall j | 0 <= j < k :: mapped[j] == s[bits[j]].mapped
    {
      mapped := mapped + [s[bits[k]].mapped];
      k := k + 1;
    }
  }

  /** The cached classical state SeparateBit writes into a shard. */
  function SetClassical(s: Shard, value: bool): (r: Shard)
    ensures r.unit == None && r.mapped == 0 && !r.isProbDirty && !r.isPhaseDirty && r.pauliBasis == s.pauliBasis
    ensures (r.norm1 == 1.0) == value && (r.norm0 == 1.0) == !value
  {
    s.(unit := None, mapped := 0, isProbDirty := false, isPhaseDirty := false,
       norm0 := if value then 0.0 else 1.0, norm1 := if value then 1.0 else 0.0)
  }

  lemma ReleaseKeeps(s: seq<Shard>, counts: map<UnitId, nat>, q: nat)
    requires WellFormed(s, counts) && q < |s| && s[q].unit.Some? && counts[s[q].unit.value] == 1
    ensures WellFormed(s[q := Released(s[q])], counts)
  {
    SeparatedUnitKeeps(s, counts, q, Released(s[q]));
  }

  /**
   * A shard that is separable, or alone in its unit, may be replaced by any
   * separable shard.
   */
  lemma SeparatedUnitKeeps(s: seq<Shard>, counts: map<UnitId, nat>, q: nat, t: Shard)
    requires WellFormed(s, counts) && q < |s| && t.unit == None
    requires s[q].unit.Some? ==> counts[s[q].unit.value] == 1
    ensures WellFormed(s[q := t], counts)
  {
    var r := s[q := t];
    if s[q].unit.Some? {
      LastPartner(s, counts, q);
    }
    forall v: UnitId | s[q].unit != Some(v) ensures Owners(r, v) == Owners(s, v) { }
  }

  /** In a unit of one qubit, the shard found is the only one. */
  lemma LastPartner(s: seq<Shard>, counts: map<UnitId, nat>, p: nat)
    requires WellFormed(s, counts) && p < |s| && s[p].unit.Some? && counts[s[p].unit.value] == 1
    ensures Owners(s, s[p].unit.value) == {p}
    ensures forall i | 0 <= i < |s| && i != p :: s[i].unit != s[p].unit
  {
    var u := s[p].unit.value;
    assert {p} <= Owners(s, u);
    SubsetOfSameSize({p}, Owners(s, u));
    forall i | 0 <= i < |s| && i != p ensures s[i].unit != Some(u) {
      assert i !in {p};
    }
  }

  /** The units of the listed qubits. */
  ghost function UnitsAt(s: seq<Shard>, bits: seq<nat>): set<UnitId>
  {
    set k | 0 <= k < |bits| && bits[k] < |s| && s[bits[k]].unit.Some? :: s[bits[k]].unit.value
  }

  /** The `found`/`units` loop: the distinct units of the listed qubits, first-seen order. */
  method CollectUnits(s: seq<Shard>, bits: seq<nat>) returns (units: seq<UnitId>)
    requires |bits| > 0 && forall k | 0 <= k < |bits| :: bits[k] < |s| && s[bits[k]].unit.Some?
    ensures |units| > 0 && units[0] == s[bits[0]].unit.value
    ensures Distinct(units)
    ensures forall u :: u in units <==> u in UnitsAt(s, bits)
    ensures forall j | 0 <= j < |units| :: Referenced(s, units[j])
  {
    var found: set<UnitId> := {};
    units := [];
    var k := 0;
    while k < |bits|
      invariant 0 <= k <= |bits|
      invariant forall u :: u in found <==> u in units
      invariant forall a, b | 0 <= a < b < |units| :: units[a] != units[b]
      invariant forall u :: u in units <==> u in UnitsAt(s, bits[..k])
      invariant k == 0 ==> units == []
      invariant k > 0 ==> |units| > 0 && units[0] == s[bits[0]].unit.value
    {
      var u := s[bits[k]].unit.value;
      UnitsAtStep(s, bits, k);
      if u !in found {
        found := found + {u};
        units := units + [u];
      }
      k := k + 1;
    }
    assert bits[..k] == bits;
    CollectedReferenced(s, bits, units);
  }

  lemma UnitsAtStep(s: seq<Shard>, bits: seq<nat>, k: nat)
    requires k < |bits| && bits[k] < |s| && s[bits[k]].unit.Some?
    ensures UnitsAt(s, bits[..k + 1]) == UnitsAt(s, bits[..k]) + {s[bits[k]].unit.value}
  {
    var p, q := bits[..k], bits[..k + 1];
    assert forall j | 0 <= j < k :: q[j] == p[j];
    assert q[k] == bits[k];
    forall u | u in UnitsAt(s, q) ensures u in UnitsAt(s, p) + {s[bits[k]].unit.value} {
      var j :| 0 <= j < |q| && q[j] < |s| && s[q[j]].unit.Some? && s[q[j]].unit.value == u;
      if j < k {
        assert p[j] == q[j];
      }
    }
    forall u | u in UnitsAt(s, p) ensures u in UnitsAt(s, q) {
      var j :| 0 <= j < |p| && p[j] < |s| && s[p[j]].unit.Some? && s[p[j]].unit.value == u;
      assert q[j] == p[j];
    }
  }

  /** The odd step, `unit1` composing `consumed` alone, keeps the invariant. */
  lemma OnePairKeeps(s: seq<Shard>, counts: map<UnitId, nat>, unit1: UnitId, consumed: UnitId)
    requires WellFormed(s, counts) && Referenced(s, unit1) && Referenced(s, consumed) && unit1 != consumed
    ensures unit1 in counts && consumed in counts
    ensures WellFormed(Relabel(s, map[consumed := counts[unit1]], map[consumed := unit1]),
                       counts[unit1 := counts[unit1] + counts[consumed]])
  {
    CountOfReferenced(s, counts, unit1);
    CountOfReferenced(s, counts, consumed);
    var mates := map[unit1 := consumed];
    MergedCountsStep(counts, map[], unit1, consumed);
    assert mates == map[][unit1 := consumed];
    RelabelKeeps(s, counts, map[consumed := counts[unit1]], map[consumed := unit1], mates);
  }

  lemma MergedCountsStep(counts: map<UnitId, nat>, mates: map<UnitId, UnitId>, r: UnitId, c: UnitId)
    requires forall u | u in mates :: mates[u] in counts
    requires r in counts && c in counts && r !in mates && c !in mates
    ensures MergedCounts(counts, map[]) == counts
    ensures MergedCounts(counts, mates)[r] == counts[r] && MergedCounts(counts, mates)[c] == counts[c]
    ensures MergedCounts(counts, mates[r := c]) == MergedCounts(counts, mates)[r := counts[r] + counts[c]]
  {
  }

  /**
   * A qubit outside the list whose unit is not among the listed qubits' units
   * is untouched by EntangleInCurrentBasis: EndEmulation only hands out
   * handles at or above `base`, and every unit in use is below it.
   */
  lemma OutsideStays(s: seq<Shard>, e: seq<Shard>, bits: seq<nat>, i: nat, base: UnitId, counts: map<UnitId, nat>)
    requires |e| == |s| && i < |s| && i !in bits
    requires Bounded(s, counts) && forall u | u in counts :: u < base
    requires forall j | 0 <= j < |s| && (s[j].unit.Some? || j !in bits) :: e[j] == s[j]
    requires forall j | 0 <= j < |s| && e[j] != s[j] :: e[j].unit.Some? && base <= e[j].unit.value
    requires !(s[i].unit.Some? && s[i].unit.value in UnitsAt(s, bits))
    ensures !(e[i].unit.Some? && e[i].unit.value in UnitsAt(e, bits))
  {
    if e[i].unit.Some? {
      var v := e[i].unit.value;
      assert e[i] == s[i] && v < base;
      forall k | 0 <= k < |bits| && bits[k] < |e| && e[bits[k]].unit.Some? ensures e[bits[k]].unit.value != v {
        if e[bits[k]] == s[bits[k]] {
          assert s[bits[k]].unit.value in UnitsAt(s, bits);
        }
      }
    }
  }

  /**
   * The maps built by the first pairs of a pairing round: a merge plan over
   * the units seen so far, in which `kept[k]` (units[2k]) retains and
   * `gone[k]` (units[2k+1]) is consumed.
   */
  ghost predicate PairPlan(units: seq<UnitId>, i: nat, counts0: map<UnitId, nat>,
                           offsets: map<UnitId, nat>, partners: map<UnitId, UnitId>, mates: map<UnitId, UnitId>,
                           kept: seq<UnitId>, gone: seq<UnitId>)
  {
    PlanShape(units, i, kept, gone) && PlanMaps(units[..i], counts0, offsets, partners, mates) && PlanSides(partners, kept, gone)
  }

  ghost predicate PlanShape(units: seq<UnitId>, i: nat, kept: seq<UnitId>, gone: seq<UnitId>)
  {
    && i <= |units| && i == 2 * |kept| && |gone| == |kept|
    && (forall k | 0 <= k < |kept| :: kept[k] == units[2 * k])
    && (forall k | 0 <= k < |gone| :: gone[k] == units[2 * k + 1])
  }

  ghost predicate PlanMaps(seen: seq<UnitId>, counts0: map<UnitId, nat>,
                           offsets: map<UnitId, nat>, partners: map<UnitId, UnitId>, mates: map<UnitId, UnitId>)
  {
    && offsets.Keys == partners.Keys
    && (forall c | c in partners ::
          c in seen && partners[c] in mates && mates[partners[c]] == c
          && partners[c] in counts0 && offsets[c] == counts0[partners[c]])
    && (forall u | u in mates :: u in seen && mates[u] in partners && partners[mates[u]] == u && u !in partners
                                 && mates[u] in counts0)
  }

  ghost predicate PlanSides(partners: map<UnitId, UnitId>, kept: seq<UnitId>, gone: seq<UnitId>)
    requires |gone| == |kept|
  {
    && (forall k | 0 <= k < |gone| :: gone[k] in partners && partners[gone[k]] == kept[k])
    && (forall k | 0 <= k < |kept| :: kept[k] !in partners)
  }

  lemma PairPlanStep(units: seq<UnitId>, i: nat, counts0: map<UnitId, nat>,
                     offsets: map<UnitId, nat>, partners: map<UnitId, UnitId>, mates: map<UnitId, UnitId>,
                     kept: seq<UnitId>, gone: seq<UnitId>)
    requires PairPlan(units, i, counts0, offsets, partners, mates, kept, gone)
    requires forall a, b | 0 <= a < b < |units| :: units[a] != units[b]
    requires i + 1 < |units| && units[i] in counts0 && units[i + 1] in counts0
    ensures units[i] !in mates && units[i + 1] !in mates && units[i] !in partners && units[i + 1] !in partners
    ensures PairPlan(units, i + 2, counts0, offsets[units[i + 1] := counts0[units[i]]],
                     partners[units[i + 1] := units[i]], mates[units[i] := units[i + 1]],
                     kept + [units[i]], gone + [units[i + 1]])
  {
    var r, c := units[i], units[i + 1];
    assert r !in units[..i] && c !in units[..i] && r != c by {
      forall j | 0 <= j < i ensures units[..i][j] != r && units[..i][j] != c { }
    }
    assert units[..i + 2] == units[..i] + [r, c];
    forall k | 0 <= k < |kept| ensures kept[k] != c && gone[k] != c {
      assert kept[k] == units[..i][2 * k] && gone[k] == units[..i][2 * k + 1];
    }
    ShapeStep(units, i, kept, gone);
    MapsStep(units[..i], units[..i + 2], counts0, offsets, partners, mates, r, c);
    SidesStep(partners, kept, gone, r, c);
  }

  lemma ShapeStep(units: seq<UnitId>, i: nat, kept: seq<UnitId>, gone: seq<UnitId>)
    requires PlanShape(units, i, kept, gone) && i + 1 < |units|
    ensures PlanShape(units, i + 2, kept + [units[i]], gone + [units[i + 1]])
  {
    var kept', gone' := kept + [units[i]], gone + [units[i + 1]];
    forall k | 0 <= k < |kept'| ensures kept'[k] == units[2 * k] {
      if k == |kept| {
        assert 2 * k == i;
      }
    }
    forall k | 0 <= k < |gone'| ensures gone'[k] == units[2 * k + 1] {
      if k == |gone| {
        assert 2 * k + 1 == i + 1;
      }
    }
  }

  lemma MapsStep(seen: seq<UnitId>, seen': seq<UnitId>, counts0: map<UnitId, nat>,
                 offsets: map<UnitId, nat>, partners: map<UnitId, UnitId>, mates: map<UnitId, UnitId>,
                 r: UnitId, c: UnitId)
    requires PlanMaps(seen, counts0, offsets, partners, mates)
    requires seen' == seen + [r, c] && r !in seen && c !in seen && r != c && r in counts0 && c in counts0
    ensures r !in mates && c !in mates && r !in partners && c !in partners
    ensures PlanMaps(seen', counts0, offsets[c := counts0[r]], partners[c := r], mates[r := c])
  {
    var offsets', partners', mates' := offsets[c := counts0[r]], partners[c := r], mates[r := c];
    assert forall x | x in seen :: x in seen';
    assert r in seen' && c in seen';
    forall x | x in partners'
      ensures x in seen' && partners'[x] in mates' && mates'[partners'[x]] == x
              && partners'[x] in counts0 && offsets'[x] == counts0[partners'[x]]
    {
      if x != c {
        assert partners[x] in mates && partners[x] != r;
      }
    }
    forall x | x in mates'
      ensures x in seen' && mates'[x] in partners' && partners'[mates'[x]] == x && x !in partners' && mates'[x] in counts0
    {
      if x != r {
        assert mates[x] in partners && mates[x] != c;
      }
    }
  }

  lemma SidesStep(partners: map<UnitId, UnitId>, kept: seq<UnitId>, gone: seq<UnitId>, r: UnitId, c: UnitId)
    requires |gone| == |kept| && PlanSides(partners, kept, gone)
    requires c !in kept && c !in gone && r != c && r !in partners
    ensures PlanSides(partners[c := r], kept + [r], gone + [c])
  {
  }

  lemma PairPlanDone(units: seq<UnitId>, counts0: map<UnitId, nat>,
                     offsets: map<UnitId, nat>, partners: map<UnitId, UnitId>, mates: map<UnitId, UnitId>,
                     kept: seq<UnitId>, gone: seq<UnitId>)
    requires PairPlan(units, |units|, counts0, offsets, partners, mates, kept, gone)
    requires forall j | 0 <= j < |units| :: units[j] in counts0
    ensures MergePlan(counts0, offsets, partners, mates)
    ensures forall c | c in partners :: c in units
    ensures forall j | 0 <= j < |units| :: if units[j] in partners then partners[units[j]] in kept else units[j] in kept
    ensures forall k | 0 <= k < |kept| :: kept[k] !in partners
  {
    assert units[..|units|] == units;
    forall j | 0 <= j < |units|
      ensures if units[j] in partners then partners[units[j]] in kept else units[j] in kept
    {
      var k := j / 2;
      if j % 2 == 1 {
        assert j == 2 * k + 1 && gone[k] == units[j];
      } else {
        assert j == 2 * k && kept[k] == units[j];
      }
    }
  }

  /** What the odd step's relabelling pass does to the listed units. */
  lemma OddMoves(s: seq<Shard>, units: seq<UnitId>, rest: seq<UnitId>, offsets: map<UnitId, nat>, partners: map<UnitId, UnitId>)
    returns (into: map<UnitId, UnitId>, shift: map<UnitId, nat>)
    requires |units| >= 3 && rest == [units[0]] + units[2..] && Distinct(units)
    requires partners == map[units[1] := units[0]] && offsets.Keys == partners.Keys
    requires forall j | 0 <= j < |units| :: Referenced(s, units[j])
    ensures Distinct(rest) && forall k | 0 <= k < |rest| :: rest[k] in units
    ensures forall k | 0 <= k < |rest| :: Referenced(Relabel(s, offsets, partners), rest[k])
    ensures RoundMoves(s, Relabel(s, offsets, partners), units, rest)
    ensures Lands(s, Relabel(s, offsets, partners), units, rest, into, shift)
  {
    OddPlan(units, rest, partners);
    DistinctRest(units, rest);
    forall k | 0 <= k < |rest| ensures Referenced(s, rest[k]) && rest[k] !in partners {
      if k > 0 {
        assert rest[k] == units[k + 1];
      }
    }
    RelabelMoves(s, offsets, partners, units, rest);
    into, shift := RelabelLands(s, offsets, partners, units, rest);
  }

  lemma OddPlan(units: seq<UnitId>, rest: seq<UnitId>, partners: map<UnitId, UnitId>)
    requires |units| >= 3 && rest == [units[0]] + units[2..] && partners == map[units[1] := units[0]]
    requires forall a, b | 0 <= a < b < |units| :: units[a] != units[b]
    ensures forall c | c in partners :: c in units
    ensures forall j | 0 <= j < |units| :: if units[j] in partners then partners[units[j]] in rest else units[j] in rest
  {
    forall j | 0 <= j < |units| ensures if units[j] in partners then partners[units[j]] in rest else units[j] in rest {
      if j == 1 {
        assert rest[0] == units[0];
      } else if j == 0 {
        assert units[0] != units[1] && rest[0] == units[0];
      } else {
        assert units[j] != units[1] && rest[j - 1] == units[j];
      }
    }
  }

  /**
   * The effect of a relabelling pass whose consumed units all come from
   * `units` and whose targets, like the units it keeps, are in `kept`.
   */
  lemma RelabelMoves(s: seq<Shard>, offsets: map<UnitId, nat>, partners: map<UnitId, UnitId>,
                     units: seq<UnitId>, kept: seq<UnitId>)
    requires offsets.Keys == partners.Keys
    requires forall c | c in partners :: c in units
    requires forall j | 0 <= j < |units| :: if units[j] in partners then partners[units[j]] in kept else units[j] in kept
    requires forall k | 0 <= k < |kept| :: Referenced(s, kept[k]) && kept[k] !in partners
    ensures forall k | 0 <= k < |kept| :: Referenced(Relabel(s, offsets, partners), kept[k])
    ensures RoundMoves(s, Relabel(s, offsets, partners), units, kept)
  {
    var r := Relabel(s, offsets, partners);
    forall k | 0 <= k < |kept| ensures Referenced(r, kept[k]) {
      var w :| 0 <= w < |s| && s[w].unit == Some(kept[k]);
      assert r[w] == s[w];
    }
    forall i | 0 <= i < |s| && s[i].unit.Some? && s[i].unit.value in units
      ensures r[i].unit.Some? && r[i].unit.value in kept
    {
      var j :| 0 <= j < |units| && units[j] == s[i].unit.value;
    }
  }

  /**
   * What the EndEmulation pass over `bits` did to the map `s0` (whose units
   * are all below `base`): every listed qubit now has a unit, and the only
   * shards changed are separable listed ones, moved to handles from `base` on.
   */
  ghost predicate Emulated(s0: seq<Shard>, e: seq<Shard>, bits: seq<nat>, base: UnitId, counts: map<UnitId, nat>)
  {
    && |e| == |s0|
    && Bounded(s0, counts) && (forall u | u in counts :: u < base)
    && (forall k | 0 <= k < |bits| :: bits[k] < |s0| && e[bits[k]].unit.Some?)
    && (forall i | 0 <= i < |s0| :: e[i] == s0[i].(unit := e[i].unit, mapped := e[i].mapped))
    && (forall j | 0 <= j < |s0| && (s0[j].unit.Some? || j !in bits) :: e[j] == s0[j])
    && (forall j | 0 <= j < |s0| && e[j] != s0[j] :: e[j].unit.Some? && base <= e[j].unit.value)
  }

  /** One EndEmulation call of the loop extends the emulated prefix by one qubit. */
  lemma EmulatedStep(s0: seq<Shard>, e: seq<Shard>, e': seq<Shard>, bits: seq<nat>, k: nat, base: UnitId,
                     counts: map<UnitId, nat>, n: UnitId)
    requires k < |bits| && bits[k] < |s0| && Emulated(s0, e, bits[..k], base, counts) && base <= n
    requires e[bits[k]].unit.Some? ==> e' == e
    requires e[bits[k]].unit.None? ==> e' == e[bits[k] := e[bits[k]].(unit := Some(n), mapped := 0)]
    ensures Emulated(s0, e', bits[..k + 1], base, counts)
  {
    var q, pre, b := bits[k], bits[..k], bits[..k + 1];
    assert b == pre + [q];
    forall j | 0 <= j < |b| ensures b[j] < |s0| && e'[b[j]].unit.Some? {
      if j < k {
        assert b[j] == pre[j];
      }
    }
    forall j | 0 <= j < |s0| && (s0[j].unit.Some? || j !in b) ensures e'[j] == s0[j] {
      if j == q {
        assert e[q] == s0[q];
      } else {
        assert j !in pre || s0[j].unit.Some?;
      }
    }
  }

  /** No unit appears twice. */
  ghost predicate Distinct(units: seq<UnitId>)
  {
    forall a, b | 0 <= a < b < |units| :: units[a] != units[b]
  }

  lemma DistinctRest(units: seq<UnitId>, rest: seq<UnitId>)
    requires Distinct(units) && |units| >= 3 && rest == [units[0]] + units[2..]
    ensures Distinct(rest) && forall k | 0 <= k < |rest| :: rest[k] in units
  {
    assert forall k | 0 < k < |rest| :: rest[k] == units[k + 1];
  }

  lemma DistinctEvens(units: seq<UnitId>, kept: seq<UnitId>)
    requires Distinct(units) && 2 * |kept| <= |units| && forall k | 0 <= k < |kept| :: kept[k] == units[2 * k]
    ensures Distinct(kept) && forall k | 0 <= k < |kept| :: kept[k] in units
  {
    forall a, b | 0 <= a < b < |kept| ensures kept[a] != kept[b] {
      assert 2 * a < 2 * b;
    }
  }

  /**
   * What one merge round does to the shard map: every shard of a listed unit
   * now belongs to a unit in `kept`, only its unit and slot having changed,
   * and every other shard is untouched.
   */
  ghost predicate RoundMoves(s: seq<Shard>, r: seq<Shard>, units: seq<UnitId>, kept: seq<UnitId>)
  {
    && |r| == |s|
    && (forall i | 0 <= i < |s| && s[i].unit.Some? && s[i].unit.value in units :: r[i].unit.Some? && r[i].unit.value in kept)
    && (forall i | 0 <= i < |s| && !(s[i].unit.Some? && s[i].unit.value in units) :: r[i] == s[i])
    && (forall i | 0 <= i < |s| :: r[i] == s[i].(unit := r[i].unit, mapped := r[i].mapped))
  }

  /**
   * The state of the merge loop: `left` are the units still to be merged,
   * starting with the first listed unit, and every shard of a listed unit has
   * moved into one of them.
   */
  ghost predicate Merging(s0: seq<Shard>, s: seq<Shard>, units: seq<UnitId>, left: seq<UnitId>)
  {
    && |left| >= 1 && |units| >= 1 && left[0] == units[0] && Distinct(left)
    && (forall j | 0 <= j < |left| :: Referenced(s, left[j]) && left[j] in units)
    && RoundMoves(s0, s, units, left)
  }

  lemma MergingStart(s: seq<Shard>, units: seq<UnitId>)
    requires |units| >= 1 && Distinct(units) && forall j | 0 <= j < |units| :: Referenced(s, units[j])
    ensures Merging(s, s, units, units)
  {
    RoundMovesSame(s, units);
  }

  lemma MergingStep(s0: seq<Shard>, s1: seq<Shard>, s2: seq<Shard>, units: seq<UnitId>, left: seq<UnitId>, next: seq<UnitId>)
    requires Merging(s0, s1, units, left)
    requires 1 <= |next| < |left| && next[0] == left[0] && Distinct(next)
    requires forall k | 0 <= k < |next| :: Referenced(s2, next[k]) && next[k] in left
    requires RoundMoves(s1, s2, left, next)
    ensures Merging(s0, s2, units, next)
  {
    RoundMovesTrans(s0, s1, s2, units, left, next);
    SubList(next, left, units);
  }

  /** Two merge rounds in a row are one, when the second starts from units of the first. */
  lemma RoundMovesTrans(a: seq<Shard>, b: seq<Shard>, c: seq<Shard>, units: seq<UnitId>, mid: seq<UnitId>, kept: seq<UnitId>)
    requires RoundMoves(a, b, units, mid) && RoundMoves(b, c, mid, kept)
    requires forall j | 0 <= j < |mid| :: mid[j] in units
    ensures RoundMoves(a, c, units, kept)
  {
    forall i | 0 <= i < |a| && !(a[i].unit.Some? && a[i].unit.value in units) ensures c[i] == a[i] {
      assert b[i] == a[i];
      assert !(b[i].unit.Some? && b[i].unit.value in mid);
    }
  }

  /** Half of an even count, as a witness that keeps `/` out of loop reasoning. */
  lemma Half(n: nat) returns (h: nat)
    requires n % 2 == 0
    ensures 2 * h == n
  {
    h := n / 2;
  }

  lemma OddPredecessor(n: nat)
    requires n % 2 == 1 && n > 1
    ensures n >= 3 && (n - 1) % 2 == 0
  {
  }

  lemma SubList(a: seq<UnitId>, b: seq<UnitId>, c: seq<UnitId>)
    requires forall k | 0 <= k < |a| :: a[k] in b
    requires forall k | 0 <= k < |b| :: b[k] in c
    ensures forall k | 0 <= k < |a| :: a[k] in c
  {
  }

  /** A round that merges nothing. */
  lemma RoundMovesSame(s: seq<Shard>, units: seq<UnitId>)
    ensures RoundMoves(s, s, units, units)
  {
  }

  /**
   * Where merge rounds put the shards of the listed units: every unit u
   * went whole into `into[u]`, one of `kept`, each of its shards at its old
   * slot plus the one offset `shift[u]`; a kept unit's shards stay where
   * they were.
   */
  ghost predicate Lands(s: seq<Shard>, r: seq<Shard>, units: seq<UnitId>, kept: seq<UnitId>,
                        into: map<UnitId, UnitId>, shift: map<UnitId, nat>)
  {
    && |r| == |s|
    && (forall u | u in units :: u in into && u in shift && into[u] in kept)
    && (forall k | k in kept :: k in into && into[k] == k && k in shift && shift[k] == 0)
    && (forall i | 0 <= i < |s| && s[i].unit.Some? && s[i].unit.value in units ::
          s[i].unit.value in into && s[i].unit.value in shift
          && r[i].unit == Some(into[s[i].unit.value]) && r[i].mapped == s[i].mapped + shift[s[i].unit.value])
  }

  /** Nothing merged: every unit lands on itself at its own slots. */
  lemma LandsSame(s: seq<Shard>, units: seq<UnitId>) returns (into: map<UnitId, UnitId>, shift: map<UnitId, nat>)
    ensures Lands(s, s, units, units, into, shift)
  {
    into := map u | u in units :: u;
    shift := map u | u in units :: 0;
  }

  /** A relabelling pass lands each consumed unit in its partner, shifted by the partner's old count. */
  lemma RelabelLands(s: seq<Shard>, offsets: map<UnitId, nat>, partners: map<UnitId, UnitId>,
                     units: seq<UnitId>, kept: seq<UnitId>)
    returns (into: map<UnitId, UnitId>, shift: map<UnitId, nat>)
    requires offsets.Keys == partners.Keys
    requires forall j | 0 <= j < |units| :: if units[j] in partners then partners[units[j]] in kept else units[j] in kept
    requires forall k | 0 <= k < |kept| :: kept[k] !in partners
    ensures Lands(s, Relabel(s, offsets, partners), units, kept, into, shift)
    ensures forall c | c in partners && c in units :: into[c] == partners[c] && shift[c] == offsets[c]
  {
    into := map u | u in units + kept :: if u in partners then partners[u] else u;
    shift := map u | u in units + kept :: if u in offsets then offsets[u] else 0;
  }

  /** Two rounds in a row land each unit where the second round put the unit the first chose. */
  lemma LandsTrans(a: seq<Shard>, b: seq<Shard>, c: seq<Shard>, units: seq<UnitId>, mid: seq<UnitId>, kept: seq<UnitId>,
                   into1: map<UnitId, UnitId>, shift1: map<UnitId, nat>, into2: map<UnitId, UnitId>, shift2: map<UnitId, nat>)
    returns (into: map<UnitId, UnitId>, shift: map<UnitId, nat>)
    requires Lands(a, b, units, mid, into1, shift1) && Lands(b, c, mid, kept, into2, shift2)
    requires forall k | 0 <= k < |kept| :: kept[k] in mid
    ensures Lands(a, c, units, kept, into, shift)
  {
    into := map u | u in into1 && into1[u] in into2 :: into2[into1[u]];
    shift := map u | u in into1 && into1[u] in into2 && u in shift1 && into1[u] in shift2 :: shift1[u] + shift2[into1[u]];
  }

  lemma CollectedReferenced(s: seq<Shard>, bits: seq<nat>, units: seq<UnitId>)
    requires forall u :: u in units <==> u in UnitsAt(s, bits)
    ensures forall j | 0 <= j < |units| :: Referenced(s, units[j])
  {
    forall j | 0 <= j < |units| ensures Referenced(s, units[j]) {
      assert units[j] in UnitsAt(s, bits);
      var k :| 0 <= k < |bits| && bits[k] < |s| && s[bits[k]].unit.Some? && s[bits[k]].unit.value == units[j];
    }
  }

  /**
   * The postconditions of EntangleInCurrentBasis, from the EndEmulation pass
   * (s0 to e) and the finished merge loop (e to r).
   */
  lemma EntangledAll(s0: seq<Shard>, e: seq<Shard>, r: seq<Shard>, bits: seq<nat>, units: seq<UnitId>,
                     base: UnitId, counts: map<UnitId, nat>, into: map<UnitId, UnitId>, shift: map<UnitId, nat>)
    requires Emulated(s0, e, bits, base, counts) && |units| > 0
    requires forall u :: u in units <==> u in UnitsAt(e, bits)
    requires RoundMoves(e, r, units, [units[0]]) && Lands(e, r, units, [units[0]], into, shift)
    ensures forall k | 0 <= k < |bits| :: r[bits[k]].unit == Some(units[0])
    ensures forall i | 0 <= i < |s0| :: r[i] == s0[i].(unit := r[i].unit, mapped := r[i].mapped)
    ensures forall i | 0 <= i < |s0| && s0[i].unit.Some? && s0[i].unit.value in UnitsAt(s0, bits) ::
      r[i].unit == Some(units[0]) && s0[i].unit.value in shift && r[i].mapped == s0[i].mapped + shift[s0[i].unit.value]
    ensures units[0] in shift && shift[units[0]] == 0
    ensures forall i | 0 <= i < |s0| && i !in bits && !(s0[i].unit.Some? && s0[i].unit.value in UnitsAt(s0, bits)) :: r[i] == s0[i]
  {
    forall k | 0 <= k < |bits| ensures r[bits[k]].unit == Some(units[0]) {
      assert e[bits[k]].unit.value in UnitsAt(e, bits);
    }
    forall i | 0 <= i < |s0| && s0[i].unit.Some? && s0[i].unit.value in UnitsAt(s0, bits)
      ensures r[i].unit == Some(units[0]) && s0[i].unit.value in shift && r[i].mapped == s0[i].mapped + shift[s0[i].unit.value]
    {
      var k :| 0 <= k < |bits| && bits[k] < |s0| && s0[bits[k]].unit.Some? && s0[bits[k]].unit.value == s0[i].unit.value;
      assert e[bits[k]] == s0[bits[k]];
      assert e[bits[k]].unit.value in UnitsAt(e, bits);
    }
    forall i | 0 <= i < |s0| && i !in bits && !(s0[i].unit.Some? && s0[i].unit.value in UnitsAt(s0, bits))
      ensures r[i] == s0[i]
    {
      OutsideStays(s0, e, bits, i, base, counts);
    }
  }

  lemma MappedOnlyTrans(a: seq<Shard>, b: seq<Shard>, c: seq<Shard>, u: UnitId)
    requires MappedOnly(a, b, u) && MappedOnly(b, c, u)
    ensures MappedOnly(a, c, u)
  {
  }

  /** `while (bits[i] < pivot) i++;` stops at the witness `w` at the latest. */
  method ScanUp(keys: seq<nat>, i0: nat, ghost w: nat, pivot: nat) returns (i: nat)
    requires i0 <= w < |keys| && pivot <= keys[w]
    ensures i0 <= i <= w && pivot <= keys[i]
    ensures forall k | i0 <= k < i :: keys[k] < pivot
  {
    i := i0;
    while keys[i] < pivot
      invariant i0 <= i <= w && forall k | i0 <= k < i :: keys[k] < pivot
      decreases w - i
    {
      i := i + 1;
    }
  }

  /** `while (bits[j] > pivot) j--;` stops at the witness `w` at the latest. */
  method ScanDown(keys: seq<nat>, j0: nat, ghost w: nat, pivot: nat) returns (j: nat)
    requires w <= j0 < |keys| && keys[w] <= pivot
    ensures w <= j <= j0 && keys[j] <= pivot
    ensures forall k | j < k <= j0 :: pivot < keys[k]
  {
    j := j0;
    while pivot < keys[j]
      invariant w <= j <= j0 && forall k | j < k <= j0 :: pivot < keys[k]
      decreases j - w
    {
      j := j - 1;
    }
  }

  /**
   * The collection loop of OrderContiguous: the `bit` and `mapped` fields of
   * the sort entries, for the n shards of unit u in logical order.
   */
  method CollectOwners(s: seq<Shard>, u: UnitId, n: nat) returns (keys: array<nat>, pos: seq<nat>)
    requires CountIn(s, u) == n
    ensures fresh(keys) && keys.Length == n == |pos|
    ensures forall t | 0 <= t < |pos| :: pos[t] < |s| && s[pos[t]].unit == Some(u) && keys[t] == s[pos[t]].mapped
    ensures forall a, b | 0 <= a < b < |pos| :: pos[a] < pos[b]
    ensures forall i | 0 <= i < |s| && s[i].unit == Some(u) :: i in pos
  {
    keys := new nat[n];
    pos := [];
    var i, j := 0, 0;
    while i < |s|
      invariant 0 <= i <= |s| && j == |pos| == CountIn(s[..i], u) <= n
      invariant forall t | 0 <= t < |pos| :: pos[t] < i && s[pos[t]].unit == Some(u) && keys[t] == s[pos[t]].mapped
      invariant forall a, b | 0 <= a < b < |pos| :: pos[a] < pos[b]
      invariant forall k | 0 <= k < i && s[k].unit == Some(u) :: k in pos
    {
      assert s[..i + 1][..i] == s[..i];
      CountPrefix(s, u, i + 1);
      if s[i].unit == Some(u) {
        keys[j] := s[i].mapped;
        pos := pos + [i];
        j := j + 1;
      }
      i := i + 1;
    }
    assert s[..i] == s;
  }

  /** A prefix holds no more shards of u than the whole map. */
  lemma CountPrefix(s: seq<Shard>, u: UnitId, i: nat)
    requires i <= |s|
    ensures CountIn(s[..i], u) <= CountIn(s, u)
  {
    assert s == s[..i] + s[i..];
    CountConcat(s[..i], s[i..], u);
  }

  /** A unit of one qubit is trivially in order. */
  lemma OneOwnerInOrder(s: seq<Shard>, u: UnitId)
    requires |Owners(s, u)| == 1
    ensures InOrder(s, u)
  {
    forall a, b | 0 <= a < b < |s| && s[a].unit == Some(u) && s[b].unit == Some(u) ensures false {
      assert {a, b} <= Owners(s, u);
      SubsetCard({a, b}, Owners(s, u));
    }
  }

  lemma MappedOnlyRefl(s: seq<Shard>, u: UnitId)
    ensures MappedOnly(s, s, u)
  {
  }

  /**
   * Sorted keys that mirror every qubit of u, listed in logical order, put
   * the unit's slots in logical order; distinct slots make the order strict.
   */
  lemma SortedInOrder(s0: seq<Shard>, s: seq<Shard>, keys: seq<nat>, pos: seq<nat>, u: UnitId)
    requires MappedOnly(s0, s, u) && Injective(s) && |keys| == |pos| >= 1
    requires forall i | 0 <= i < |s0| && s0[i].unit == Some(u) :: i in pos
    requires forall t | 0 <= t < |pos| :: pos[t] < |s| && s[pos[t]].unit == Some(u) && s[pos[t]].mapped == keys[t]
    requires forall a, b | 0 <= a < b < |pos| :: pos[a] < pos[b]
    requires SortedRange(keys, 0, |keys| - 1)
    ensures InOrder(s, u)
  {
    forall a, b | 0 <= a < b < |s| && s[a].unit == Some(u) && s[b].unit == Some(u) ensures s[a].mapped < s[b].mapped {
      assert s0[a].unit == Some(u) && s0[b].unit == Some(u);
      var ta :| 0 <= ta < |pos| && pos[ta] == a;
      var tb :| 0 <= tb < |pos| && pos[tb] == b;
      assert keys[ta] <= keys[tb];
    }
  }

  /** Only the slots of shards of unit u differ between s and r. */
  ghost predicate MappedOnly(s: seq<Shard>, r: seq<Shard>, u: UnitId)
  {
    && |r| == |s|
    && (forall i | 0 <= i < |s| :: r[i] == s[i].(mapped := r[i].mapped))
    && (forall i | 0 <= i < |s| && s[i].unit != Some(u) :: r[i] == s[i])
  }
}
