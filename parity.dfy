// The classical side of QUnit's parity operations (`ForceMParity`,
// `PhaseParity`): the walk over the set bits of the mask, the sorting of
// the masked qubits into cached zeros, cached ones and the rest, and the
// path each operation then takes.
module QUnitParity {
  import opened Wrappers
  import opened Bits
  import opened Shards
  import opened CachedBits

  /**
   * The set-bit walk: `nV = v & (v - 1)` clears the lowest set bit of v, and
   * `(v ^ nV) & v`, the bit it cleared, is `v - nV`; its `log2` is listed.
   */
  method MaskIndices(mask: nat) returns (q: seq<nat>)
    ensures q == SetBits(mask)
  {
    q := [];
    var v := mask;
    while v != 0
      invariant q + SetBits(v) == SetBits(mask)
      decreases v
    {
      var nV := And(v, v - 1);
      ClearLowestBit(v);
      SetBitsLowest(v);
      q := q + [Log2(v - nV)];
      v := nV;
    }
  }

  /** The walk lists each set bit of the mask once, in increasing order. */
  lemma MaskIndicesSpec(mask: nat)
    ensures forall i, j :: 0 <= i < j < |SetBits(mask)| ==> SetBits(mask)[i] < SetBits(mask)[j]
    ensures forall d: nat :: d in SetBits(mask) <==> TestBit(mask, d)
  {
    SetBitsFromSpec(mask, 0);
  }

  /** Every listed qubit is one of the n qubits of the register. */
  predicate InRange(q: seq<nat>, n: nat)
  {
    forall k :: 0 <= k < |q| ==> q[k] < n
  }

  /** A masked qubit that toggles the result: `UNSAFE_CACHED_ONE` and not `UNSAFE_CACHED_ZERO`. */
  predicate Flips(s: Shard, threshold: real)
  {
    !CachedZero(s, threshold) && CachedOne(s, threshold)
  }

  /** A masked qubit that is neither cached zero nor cached one. */
  predicate Uncached(s: Shard, threshold: real)
  {
    !CachedZero(s, threshold) && !CachedOne(s, threshold)
  }

  /** `flipResult` after the listed qubits: toggled once per cached one. */
  function FlipOf(s: seq<Shard>, threshold: real, q: seq<nat>): bool
    requires InRange(q, |s|)
  {
    if q == [] then false
    else FlipOf(s, threshold, q[..|q| - 1]) != Flips(s[q[|q| - 1]], threshold)
  }

  /** `eIndices`: the listed qubits that are neither cached zero nor cached one, in order. */
  function UncachedOf(s: seq<Shard>, threshold: real, q: seq<nat>): (e: seq<nat>)
    requires InRange(q, |s|)
    ensures forall k :: 0 <= k < |e| ==> e[k] in q && e[k] < |s| && Uncached(s[e[k]], threshold)
  {
    if q == [] then []
    else
      var last := q[|q| - 1];
      UncachedOf(s, threshold, q[..|q| - 1]) + (if Uncached(s[last], threshold) then [last] else [])
  }

  /** The parity of the bits `SHARD_STATE` reads off the listed qubits. */
  function StateParity(s: seq<Shard>, q: seq<nat>): bool
    requires InRange(q, |s|)
  {
    if q == [] then false else State(s[q[0]]) != StateParity(s, q[1..])
  }

  /** The classification loop shared by `ForceMParity` and `PhaseParity`. */
  method Classify(s: seq<Shard>, threshold: real, q: seq<nat>) returns (flip: bool, e: seq<nat>)
    requires InRange(q, |s|)
    ensures flip == FlipOf(s, threshold, q) && e == UncachedOf(s, threshold, q)
  {
    flip, e := false, [];
    for i := 0 to |q|
      invariant flip == FlipOf(s, threshold, q[..i]) && e == UncachedOf(s, threshold, q[..i])
    {
      assert q[..i + 1][..i] == q[..i];
      var shard := s[q[i]];
      if CachedZero(shard, threshold) {
        continue;
      }
      if CachedOne(shard, threshold) {
        flip := !flip;
        continue;
      }
      e := e + [q[i]];
    }
    assert q[..|q|] == q;
  }

  /**
   * For a run of normalised cached qubits and a threshold below 1/2, the
   * flip the loop computes is the parity of their states and none is left
   * uncached.
   */
  lemma {:induction false} CachedParity(s: seq<Shard>, threshold: real, q: seq<nat>)
    requires 0.0 <= threshold < 0.5
    requires InRange(q, |s|)
    requires forall k :: 0 <= k < |q| ==> s[q[k]].norm0 + s[q[k]].norm1 == 1.0
    requires forall k :: 0 <= k < |q| ==> Read(s[q[k]], threshold).Known?
    ensures FlipOf(s, threshold, q) == StateParity(s, q)
    ensures UncachedOf(s, threshold, q) == []
  {
    if q != [] {
      var front := q[..|q| - 1];
      CachedParity(s, threshold, front);
      ReadAgrees(s[q[|q| - 1]], threshold);
      ParityLast(s, q);
    }
  }

  /** The state parity can be taken from the back of the list as well as the front. */
  lemma {:induction false} ParityLast(s: seq<Shard>, q: seq<nat>)
    requires q != [] && InRange(q, |s|)
    ensures StateParity(s, q) == (StateParity(s, q[..|q| - 1]) != State(s[q[|q| - 1]]))
  {
    if |q| > 1 {
      ParityLast(s, q[1..]);
      assert q[1..][..|q| - 2] == q[..|q| - 1][1..];
    }
  }

  /** What `ForceMParity` does after its classical work. */
  datatype ParityOut =
    | Const(value: bool)                    // returned without measuring
    | Single(qubit: nat, flip: bool)        // `flip ^ ForceM(qubit, result ^ flip)`
    | Parity(qubits: seq<nat>, flip: bool)  // entangle the qubits, force the parity of their unit

  /**
   * `ForceMParity(mask, result, doForce)`: an empty mask reads false, a
   * single-bit mask measures its qubit; otherwise cached zeros drop out,
   * cached ones toggle the answer, and what remains is measured.
   */
  method ForceMParity(s: seq<Shard>, threshold: real, mask: nat) returns (r: ParityOut)
    requires InRange(SetBits(mask), |s|)
    ensures mask == 0 ==> r == Const(false)
    ensures mask != 0 && IsPow2(mask) ==> r == Single(Log2(mask), false)
    ensures mask != 0 && !IsPow2(mask) ==>
      var flip, e := FlipOf(s, threshold, SetBits(mask)), UncachedOf(s, threshold, SetBits(mask));
      r == if e == [] then Const(flip) else if |e| == 1 then Single(e[0], flip) else Parity(e, flip)
  {
    if mask == 0 {
      return Const(false);
    }
    SingleBitTest(mask);
    if And(mask, mask - 1) == 0 {
      return Single(Log2(mask), false);
    }
    var q := MaskIndices(mask);
    var flip, e := Classify(s, threshold, q);
    if |e| == 0 {
      return Const(flip);
    }
    if |e| == 1 {
      return Single(e[0], flip);
    }
    return Parity(e, flip);
  }

  /**
   * When every masked qubit of a multi-bit mask is a normalised cached qubit,
   * `ForceMParity` measures nothing and answers the parity of their states.
   */
  lemma ForceMParityCached(s: seq<Shard>, threshold: real, mask: nat)
    requires 0.0 <= threshold < 0.5 && mask != 0 && !IsPow2(mask)
    requires InRange(SetBits(mask), |s|)
    requires forall k :: 0 <= k < |SetBits(mask)| ==> s[SetBits(mask)[k]].norm0 + s[SetBits(mask)[k]].norm1 == 1.0
    requires forall k :: 0 <= k < |SetBits(mask)| ==> Read(s[SetBits(mask)[k]], threshold).Known?
    ensures FlipOf(s, threshold, SetBits(mask)) == StateParity(s, SetBits(mask))
    ensures UncachedOf(s, threshold, SetBits(mask)) == []
  {
    CachedParity(s, threshold, SetBits(mask));
  }

  /** What `PhaseParity` does after its classical work. */
  datatype PhaseOut =
    | NoOp                                  // empty mask
    | GlobalPhase(flip: bool)               // `Phase` of both amplitudes of qubit 0
    | PhaseOn(qubit: nat, flip: bool)       // a relative phase on one qubit
    | PhaseParityOn(qubits: seq<nat>, flip: bool)  // entangle, then the unit's `PhaseParity`

  /** The path of `PhaseParity` once the masked qubits are classified, the single-qubit target given. */
  function PhasePath(mask: nat, flip: bool, e: seq<nat>, single: nat): PhaseOut
  {
    if e == [] then GlobalPhase(flip)
    else if |e| == 1 then PhaseOn(single, flip)
    else PhaseParityOn(e, flip)
  }

  /**
   * `PhaseParity(radians, mask)` as the source writes it: when one masked
   * qubit is left uncached, the phase goes to `log2(mask)`, the highest
   * masked qubit, whichever qubit that is.
   */
  function PhaseParityAsWritten(s: seq<Shard>, threshold: real, mask: nat): (r: PhaseOut)
    requires InRange(SetBits(mask), |s|)
    ensures r.PhaseOn? ==> mask != 0 && r.qubit == Log2(mask)
  {
    if mask == 0 then NoOp
    else if IsPow2(mask) then PhaseOn(Log2(mask), false)
    else
      var q := SetBits(mask);
      PhasePath(mask, FlipOf(s, threshold, q), UncachedOf(s, threshold, q), Log2(mask))
  }

  /**
   * `PhaseParity(radians, mask)`, the lone uncached qubit taking the
   * phase: a relative phase only ever lands on a masked qubit that is the
   * mask's only qubit or is not cached.
   */
  method PhaseParity(s: seq<Shard>, threshold: real, mask: nat) returns (r: PhaseOut)
    requires InRange(SetBits(mask), |s|)
    ensures mask == 0 <==> r == NoOp
    ensures mask != 0 && IsPow2(mask) ==> r == PhaseOn(Log2(mask), false)
    ensures mask != 0 && !IsPow2(mask) ==>
      var flip, e := FlipOf(s, threshold, SetBits(mask)), UncachedOf(s, threshold, SetBits(mask));
      r == PhasePath(mask, flip, e, if e == [] then 0 else e[0])
    ensures r.PhaseOn? ==> r.qubit in SetBits(mask) && r.qubit < |s| && (IsPow2(mask) || Uncached(s[r.qubit], threshold))
    ensures r.GlobalPhase? ==> UncachedOf(s, threshold, SetBits(mask)) == []
    ensures r.GlobalPhase? || r.PhaseParityOn? || (r.PhaseOn? && !IsPow2(mask)) ==>
      r.flip == FlipOf(s, threshold, SetBits(mask))
  {
    if mask == 0 {
      return NoOp;
    }
    SingleBitTest(mask);
    MaskIndicesSpec(mask);
    if And(mask, mask - 1) == 0 {
      Log2OfSingle(mask);
      return PhaseOn(Log2(mask), false);
    }
    var q := MaskIndices(mask);
    var flip, e := Classify(s, threshold, q);
    if |e| == 0 {
      return GlobalPhase(flip);
    }
    if |e| == 1 {
      assert e[0] in q;
      return PhaseOn(e[0], flip);
    }
    return PhaseParityOn(e, flip);
  }

  /** The qubit of a single-bit mask is in the mask. */
  lemma Log2OfSingle(mask: nat)
    requires IsPow2(mask)
    ensures TestBit(mask, Log2(mask))
  {
    Pow2OfLog2(mask);
    PowBit(Log2(mask));
  }

  lemma {:induction false} PowBit(k: nat)
    ensures TestBit(Pow2(k), k)
  {
    if k > 0 {
      PowBit(k - 1);
      HalfOfDouble(Pow2(k - 1));
    }
  }

  /** Qubit k of the example register: cached zero when `zero`, else uncached, each alone. */
  function Example(k: nat, zero: bool): Shard
  {
    if zero then Shard(None, 0, PauliZ, false, false, 1.0, 0.0)
    else Shard(Some(k), 0, PauliZ, true, true, 0.5, 0.5)
  }

  /**
   * As written: with mask 3, qubit 1 a cached zero and qubit 0
   * uncached, the phase lands on qubit 1, not on qubit 0.
   */
  lemma PhaseParityAsWrittenMisses()
    ensures var s := [Example(0, false), Example(1, true)];
      && PhaseParityAsWritten(s, 0.0, 3) == PhaseOn(1, false)
      && CachedZero(s[1], 0.0)
      && Uncached(s[0], 0.0)
  {
    var s := [Example(0, false), Example(1, true)];
    assert SetBits(3) == [0, 1] by {
      assert SetBitsFrom(3, 0) == [0] + SetBitsFrom(1, 1);
      assert SetBitsFrom(1, 1) == [1] + SetBitsFrom(0, 2);
    }
    assert [0, 1][..1] == [0];
    assert [0][..0] == [];
    assert UncachedOf(s, 0.0, [0, 1]) == [0];
    assert FlipOf(s, 0.0, [0, 1]) == false;
    assert !IsPow2(3) && Log2(3) == 1;
  }
}
