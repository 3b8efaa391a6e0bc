// What the classical fast paths of QUnit read from the shard map: whether a
// qubit sits in a cached Z eigenstate (or the |+> state), and the integer a
// register of such qubits holds.
module CachedBits {
  import opened Wrappers
  import opened Bits
  import opened Shards

  /** The cached reading of one qubit. */
  datatype Qubit = Known(b: bool) | Plus | Unknown

  /** `SHARD_STATE`: the bit a cached shard is taken to hold, |1> when |amp0|^2 < 1/2. */
  predicate State(s: Shard)
  {
    s.norm0 < 0.5
  }

  /** `UNSAFE_CACHED_ZERO`: a clean Z-basis shard whose |1> amplitude is below the threshold. */
  predicate CachedZero(s: Shard, threshold: real)
  {
    !s.isProbDirty && s.pauliBasis == PauliZ && s.norm1 <= threshold
  }

  /** `UNSAFE_CACHED_ONE`: a clean Z-basis shard whose |0> amplitude is below the threshold. */
  predicate CachedOne(s: Shard, threshold: real)
  {
    !s.isProbDirty && s.pauliBasis == PauliZ && s.norm0 <= threshold
  }

  /** `CACHED_PLUS`: a clean X-basis shard whose |1> amplitude is below the threshold (no queued phase gates). */
  predicate CachedPlus(s: Shard, threshold: real)
  {
    !s.isProbDirty && !s.isPhaseDirty && s.pauliBasis == PauliX && s.norm1 <= threshold
  }

  /**
   * The reading the fast paths act on: `UNSAFE_CACHED_ZERO_OR_ONE` gives a
   * known bit (its value read by `SHARD_STATE`), `CACHED_PLUS` gives |+>.
   */
  function Read(s: Shard, threshold: real): (q: Qubit)
    ensures q.Known? <==> CachedZero(s, threshold) || CachedOne(s, threshold)
    ensures q.Known? ==> q.b == State(s)
    ensures q.Plus? <==> CachedPlus(s, threshold)
  {
    if CachedZero(s, threshold) || CachedOne(s, threshold) then Known(State(s))
    else if CachedPlus(s, threshold) then Plus
    else Unknown
  }

  /**
   * For a normalised cached state and a threshold below 1/2 the three tests
   * agree: a cached zero reads 0 and a cached one reads 1.
   */
  lemma ReadAgrees(s: Shard, threshold: real)
    requires s.norm0 + s.norm1 == 1.0 && 0.0 <= threshold < 0.5
    ensures CachedZero(s, threshold) <==> Read(s, threshold) == Known(false)
    ensures CachedOne(s, threshold) <==> Read(s, threshold) == Known(true)
  {
  }

  /** The readings of a run of shards. */
  function Readings(s: seq<Shard>, threshold: real): (r: seq<Qubit>)
    ensures |r| == |s| && forall i :: 0 <= i < |s| ==> r[i] == Read(s[i], threshold)
  {
    seq(|s|, i requires 0 <= i < |s| => Read(s[i], threshold))
  }

  /** The bits `SHARD_STATE` reads off a run of shards, least significant first. */
  function States(s: seq<Shard>): (r: seq<bool>)
    ensures |r| == |s| && forall i :: 0 <= i < |s| ==> r[i] == State(s[i])
  {
    seq(|s|, i requires 0 <= i < |s| => State(s[i]))
  }

  /** Every qubit of the register has a known bit. */
  predicate AllKnown(r: seq<Qubit>)
  {
    forall i :: 0 <= i < |r| ==> r[i].Known?
  }

  /** Every qubit of the register is |+>. */
  predicate AllPlus(r: seq<Qubit>)
  {
    forall i :: 0 <= i < |r| ==> r[i].Plus?
  }

  /** The bits of a fully known register. */
  function KnownBits(r: seq<Qubit>): (bs: seq<bool>)
    requires AllKnown(r)
    ensures |bs| == |r| && forall i :: 0 <= i < |r| ==> bs[i] == r[i].b
  {
    seq(|r|, i requires 0 <= i < |r| => r[i].b)
  }

  /** A register holding the low `n` bits of `v`, all known. */
  function KnownValue(v: nat, n: nat): (r: seq<Qubit>)
    ensures |r| == n && AllKnown(r)
  {
    FromToBits(v, n);
    var bs := ToBits(v, n);
    seq(n, i requires 0 <= i < n => Known(bs[i]))
  }

  /** The value a fully known register holds. */
  function Value(r: seq<Qubit>): (v: nat)
    requires AllKnown(r)
    ensures v < Pow2(|r|)
  {
    FromBitsBound(KnownBits(r));
    FromBits(KnownBits(r))
  }

  /** `SetReg` followed by a read gives back the value modulo 2^n. */
  lemma ValueOfKnown(v: nat, n: nat)
    ensures Value(KnownValue(v, n)) == v % Pow2(n)
  {
    FromToBits(v, n);
    assert KnownBits(KnownValue(v, n)) == ToBits(v, n);
  }

  /** A known register is the one `SetReg` writes for its own value. */
  lemma KnownOfValue(r: seq<Qubit>)
    requires AllKnown(r)
    ensures KnownValue(Value(r), |r|) == r
  {
    ToFromBits(KnownBits(r));
  }

  /**
   * `CheckBitsPermutation(start, length)`: whether every qubit of the
   * range reads as a cached Z eigenstate.
   */
  method CheckBitsPermutation(s: seq<Shard>, threshold: real, start: nat, length: nat) returns (r: bool)
    requires start + length <= |s|
    ensures r <==> AllKnown(Readings(s[start..start + length], threshold))
  {
    var i := 0;
    while i < length
      invariant i <= length
      invariant forall k :: start <= k < start + i ==> Read(s[k], threshold).Known?
    {
      if !(CachedZero(s[start + i], threshold) || CachedOne(s[start + i], threshold)) {
        assert Readings(s[start..start + length], threshold)[i] == Read(s[start + i], threshold);
        return false;
      }
      i := i + 1;
    }
    return true;
  }

  /**
   * `GetCachedPermutation(start, length)`: the integer whose bit i is the
   * state of qubit start + i.
   */
  method GetCachedPermutation(s: seq<Shard>, start: nat, length: nat) returns (res: nat)
    requires start + length <= |s|
    ensures res == FromBits(States(s[start..start + length]))
  {
    res := 0;
    var i := 0;
    while i < length
      invariant i <= length
      invariant res == FromBits(States(s[start..start + i]))
    {
      AppendBit(States(s[start..start + i]), State(s[start + i]));
      assert States(s[start..start + i + 1]) == States(s[start..start + i]) + [State(s[start + i])];
      if State(s[start + i]) {
        res := Or(res, Pow2(i));
      }
      i := i + 1;
    }
  }

  /** `GetCachedPermutation(bitArray, length)`: as above, for qubits listed one by one. */
  method GetCachedPermutationOf(s: seq<Shard>, bits: seq<nat>) returns (res: nat)
    requires forall k :: 0 <= k < |bits| ==> bits[k] < |s|
    ensures res == FromBits(seq(|bits|, k requires 0 <= k < |bits| => State(s[bits[k]])))
  {
    ghost var all := seq(|bits|, k requires 0 <= k < |bits| => State(s[bits[k]]));
    res := 0;
    var i := 0;
    while i < |bits|
      invariant i <= |bits|
      invariant res == FromBits(all[..i])
    {
      AppendBit(all[..i], State(s[bits[i]]));
      assert all[..i + 1] == all[..i] + [State(s[bits[i]])];
      if State(s[bits[i]]) {
        res := Or(res, Pow2(i));
      }
      i := i + 1;
    }
    assert all[..|bits|] == all;
  }

  /** Setting bit |bs| of the value of bs: the step of the read loop. */
  lemma {:induction false} AppendBit(bs: seq<bool>, b: bool)
    ensures FromBits(bs + [b]) == FromBits(bs) + (if b then Pow2(|bs|) else 0)
    ensures b ==> Or(FromBits(bs), Pow2(|bs|)) == FromBits(bs) + Pow2(|bs|)
  {
    if bs != [] {
      AppendBit(bs[1..], b);
      assert (bs + [b])[1..] == bs[1..] + [b];
    }
    FromBitsBound(bs);
    OrShifted(FromBits(bs), 1, |bs|);
  }
}
