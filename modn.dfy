// The modular multiply and power of QUnit (`xMULModNOut`, `POWModNOut`):
// which of the source's paths a call takes, and what each path leaves in
// the output register when the input register holds a basis state.
module QUnitModN {
  import opened Wrappers
  import opened Bits
  import opened Shards
  import opened CachedBits

  /** What a modular operation does to the output register. */
  datatype ModOut =
    | SetOut(value: nat)                // `SetReg(outStart, length, value)`
    | SubtractOut(value: nat)           // `DEC(value, outStart, length)`
    | ControlledAdds(zeroFirst: bool)   // one `CINC` / `CDEC` of `toMod << i` per input qubit
    | Engine(zeroFirst: bool)           // entangle both registers and run the engine's operation

  /** Every input shard belongs to the unit of the first: the `isFullyEntangled` test. */
  predicate SameUnit(ins: seq<Shard>)
  {
    forall i :: 0 <= i < |ins| ==> ins[i].unit == ins[0].unit
  }

  /** The `isFullyEntangled` loop of `xMULModNOut`. */
  method IsFullyEntangled(ins: seq<Shard>) returns (b: bool)
    ensures b <==> SameUnit(ins)
  {
    var i := 1;
    while i < |ins|
      invariant 1 <= i || |ins| == 0
      invariant forall k :: 0 <= k < i && k < |ins| ==> ins[k].unit == ins[0].unit
    {
      if ins[0].unit != ins[i].unit {
        return false;
      }
      i := i + 1;
    }
    return true;
  }

  /**
   * The path `xMULModNOut` takes, `fastPow2` being the value of the guard of
   * its controlled-add path: zero multiplier, cached input, controlled adds,
   * or the engine.  The output register is zeroed first except when inverting.
   */
  function MulModNPath(toMod: nat, modN: nat, ins: seq<Shard>, threshold: real, inverse: bool, fastPow2: bool): (r: ModOut)
    requires toMod != 0 && AllKnown(Readings(ins, threshold)) ==> modN != 0
    ensures toMod == 0 ==> r == SetOut(0)
    ensures r.SetOut? <==> toMod == 0 || (AllKnown(Readings(ins, threshold)) && !inverse)
    ensures r.SubtractOut? <==> toMod != 0 && AllKnown(Readings(ins, threshold)) && inverse
    ensures r.ControlledAdds? <==> toMod != 0 && !AllKnown(Readings(ins, threshold)) && fastPow2 && !SameUnit(ins)
    ensures (r.ControlledAdds? || r.Engine?) ==> (r.zeroFirst <==> !inverse)
    ensures toMod != 0 && AllKnown(Readings(ins, threshold)) ==> r.value == (Value(Readings(ins, threshold)) * toMod) % modN
  {
    var input := Readings(ins, threshold);
    if toMod == 0 then SetOut(0)
    else if AllKnown(input) then
      var res := (Value(input) * toMod) % modN;
      if inverse then SubtractOut(res) else SetOut(res)
    else if fastPow2 && !SameUnit(ins) then ControlledAdds(!inverse)
    else Engine(!inverse)
  }

  /** `xMULModNOut` as the source guards its controlled-add path: `modN` a power of two. */
  function MulModNOutAsWritten(toMod: nat, modN: nat, ins: seq<Shard>, threshold: real, inverse: bool): (r: ModOut)
    requires toMod != 0 && AllKnown(Readings(ins, threshold)) ==> modN != 0
    ensures r.ControlledAdds? ==> IsPow2(modN)
  {
    MulModNPath(toMod, modN, ins, threshold, inverse, IsPow2(modN))
  }

  /**
   * `xMULModNOut` (`MULModNOut` when not inverting, `IMULModNOut` when
   * inverting), its controlled-add path taken only when `modN` is a power of
   * two at least 2^length, where adding modulo 2^length is the same as
   * adding modulo `modN` (MulModNOutAgrees).
   */
  function MulModNOut(toMod: nat, modN: nat, ins: seq<Shard>, threshold: real, inverse: bool): (r: ModOut)
    requires toMod != 0 && AllKnown(Readings(ins, threshold)) ==> modN != 0
    ensures r.ControlledAdds? ==> IsPow2(modN) && modN >= Pow2(|ins|)
  {
    MulModNPath(toMod, modN, ins, threshold, inverse, IsPow2(modN) && modN >= Pow2(|ins|))
  }

  /**
   * The output register after the engine's `MULModNOut` (adding the product
   * modulo `modN` to the output) or `IMULModNOut` (subtracting it), modulo
   * 2^n, on input value x.
   */
  function MulReference(x: nat, out: nat, n: nat, toMod: nat, modN: nat, inverse: bool): (o: nat)
    requires modN > 0
    ensures o < Pow2(n)
  {
    var y := (x * toMod) % modN;
    (if inverse then out - y else out + y) % Pow2(n)
  }

  /**
   * The output register after the controlled adds: each set input bit i
   * adds (or subtracts) toMod * 2^i modulo 2^n, which in all adds the
   * product of the input with toMod.
   */
  function AddsResult(bits: seq<bool>, toMod: nat, out0: nat, n: nat, inverse: bool): (o: nat)
    ensures o < Pow2(n)
  {
    var y := FromBits(bits) * toMod;
    (if inverse then out0 - y else out0 + y) % Pow2(n)
  }

  /** The output register a path leaves, on input basis state x and output value out. */
  function MulEffect(r: ModOut, x: nat, out: nat, n: nat, toMod: nat, modN: nat, inverse: bool): (o: nat)
    requires modN > 0
    ensures o < Pow2(n)
  {
    match r
    case SetOut(v) => v % Pow2(n)
    case SubtractOut(v) => (out - v) % Pow2(n)
    case ControlledAdds(z) => AddsResult(ToBits(x, n), toMod, if z then 0 else out, n, inverse)
    case Engine(z) => MulReference(x, if z then 0 else out, n, toMod, modN, inverse)
  }

  /**
   * The controlled-add loop of `xMULModNOut` on a basis state: input bit i
   * controls a `CINC` (or `CDEC`) of `toModExp`, which doubles each step.
   */
  method ControlledAddLoop(bits: seq<bool>, toMod: nat, out0: nat, n: nat, inverse: bool) returns (out: nat)
    requires out0 < Pow2(n)
    ensures out == AddsResult(bits, toMod, out0, n, inverse)
  {
    out := out0;
    var toModExp := toMod;
    var i := 0;
    AddsNone(bits, toMod, out0, n, inverse);
    while i < |bits|
      invariant i <= |bits| && toModExp == Pow2(i) * toMod
      invariant out == AddsResult(bits[..i], toMod, out0, n, inverse)
    {
      AddsStep(bits, i, toMod, out0, n, inverse, out);
      if bits[i] {
        out := if inverse then (out - toModExp) % Pow2(n) else (out + toModExp) % Pow2(n);
      }
      toModExp := toModExp * 2;
      i := i + 1;
    }
    assert bits[..i] == bits;
  }

  lemma AddsNone(bits: seq<bool>, toMod: nat, out0: nat, n: nat, inverse: bool)
    requires out0 < Pow2(n)
    ensures AddsResult(bits[..0], toMod, out0, n, inverse) == out0
  {
    assert bits[..0] == [];
    FitsOwnMod(out0, Pow2(n));
  }

  /** One step of the controlled-add loop. */
  lemma AddsStep(bits: seq<bool>, i: nat, toMod: nat, out0: nat, n: nat, inverse: bool, out: nat)
    requires i < |bits| && out == AddsResult(bits[..i], toMod, out0, n, inverse)
    ensures AddsResult(bits[..i + 1], toMod, out0, n, inverse)
      == if !bits[i] then out
         else if inverse then (out - Pow2(i) * toMod) % Pow2(n)
         else (out + Pow2(i) * toMod) % Pow2(n)
  {
    assert bits[..i + 1] == bits[..i] + [bits[i]];
    AppendBit(bits[..i], bits[i]);
    var f := FromBits(bits[..i]);
    var c := if bits[i] then Pow2(i) else 0;
    ProductStep(f, FromBits(bits[..i + 1]), c, toMod);
    var y := f * toMod;
    if inverse {
      ModShift(out0 - y, out, -(c * toMod), Pow2(n));
    } else {
      ModShift(out0 + y, out, c * toMod, Pow2(n));
    }
  }

  lemma ProductStep(f: int, f': int, c: int, t: int)
    requires f' == f + c
    ensures f' * t == f * t + c * t
  {
  }

  /** Adding to a residue is adding to the number it is the residue of. */
  lemma ModShift(a: int, o: int, w: int, p: int)
    requires p > 0 && o == a % p
    ensures (o + w) % p == (a + w) % p
  {
    var q := a / p;
    var r := (o + w) % p;
    var s := (o + w) / p;
    assert a == p * q + o;
    assert o + w == p * s + r;
    assert a + w == p * (q + s) + r;
    DivModUnique(a + w, p, q + s, r);
  }

  /** Reducing modulo a multiple of p, then modulo p, is reducing modulo p. */
  lemma ModMod(y: int, p: int, k: int, m: int)
    requires p > 0 && k > 0 && m == p * k
    ensures (y % m) % p == y % p
  {
    var q := y / m;
    var r := y % m;
    assert y == m * q + r;
    assert m * q == p * (k * q);
    ModShift(r, r % p, m * q, p);
    ModMultiple(r % p, k * q, p);
  }

  lemma ModMultiple(o: int, j: int, p: int)
    requires p > 0 && 0 <= o < p
    ensures (o + p * j) % p == o
  {
    DivModUnique(o + p * j, p, j, o);
  }

  /** A power of two at least 2^n is a multiple of 2^n. */
  lemma Pow2Multiple(m: nat, n: nat) returns (k: nat)
    requires IsPow2(m) && m >= Pow2(n)
    ensures k > 0 && m == Pow2(n) * k
  {
    var e := Log2(m);
    Pow2OfLog2(m);
    if e < n {
      Pow2Monotone(e, n);
    }
    Pow2Add(n, e - n);
    k := Pow2(e - n);
  }

  /** Two differences agree modulo p when what they subtract does. */
  lemma SubCongruent(a: int, b: int, c: int, p: int)
    requires p > 0 && b % p == c % p
    ensures (a - b) % p == (a - c) % p
  {
    ModShift(-b, (-b) % p, a, p);
    ModShift(-c, (-c) % p, a, p);
    NegCongruent(b, c, p);
  }

  lemma NegCongruent(b: int, c: int, p: int)
    requires p > 0 && b % p == c % p
    ensures (-b) % p == (-c) % p
  {
    var r := b % p;
    DivModUnique(b, p, b / p, r);
    DivModUnique(c, p, c / p, r);
    if r == 0 {
      DivModUnique(-b, p, -(b / p), 0);
      DivModUnique(-c, p, -(c / p), 0);
    } else {
      DivModUnique(-b, p, -(b / p) - 1, p - r);
      DivModUnique(-c, p, -(c / p) - 1, p - r);
    }
  }

  /**
   * On every input basis state, each path of `xMULModNOut` leaves the output
   * register the engine's operation would: the product modulo `modN` written
   * into a cleared output, or subtracted from an output that holds it.
   */
  lemma MulModNOutAgrees(toMod: nat, modN: nat, ins: seq<Shard>, threshold: real, inverse: bool, x: nat, out: nat)
    requires modN > 0 && x < Pow2(|ins|)
    requires AllKnown(Readings(ins, threshold)) ==> x == Value(Readings(ins, threshold))
    requires !inverse ==> out == 0
    requires inverse ==> out == MulReference(x, 0, |ins|, toMod, modN, false)
    ensures MulEffect(MulModNOut(toMod, modN, ins, threshold, inverse), x, out, |ins|, toMod, modN, inverse)
         == MulReference(x, out, |ins|, toMod, modN, inverse)
  {
    var n, r := |ins|, MulModNOut(toMod, modN, ins, threshold, inverse);
    if toMod == 0 {
      assert r == SetOut(0);
      ZeroProduct(x, out, n, modN, inverse);
    } else if AllKnown(Readings(ins, threshold)) {
      KnownAgrees((x * toMod) % modN, x, toMod, modN, n, out, inverse);
    } else if r.ControlledAdds? {
      AddsAgree(toMod, modN, n, x, out, inverse);
    }
  }

  /** The cached path writes, or subtracts, the product modulo `modN`. */
  lemma KnownAgrees(v: nat, x: nat, toMod: nat, modN: nat, n: nat, out: nat, inverse: bool)
    requires modN > 0 && v == (x * toMod) % modN
    requires !inverse ==> out == 0
    ensures MulEffect(if inverse then SubtractOut(v) else SetOut(v), x, out, n, toMod, modN, inverse)
         == MulReference(x, out, n, toMod, modN, inverse)
  {
  }

  lemma ZeroProduct(x: nat, out: nat, n: nat, modN: nat, inverse: bool)
    requires modN > 0
    requires !inverse ==> out == 0
    requires inverse ==> out == MulReference(x, 0, n, 0, modN, false)
    ensures MulReference(x, out, n, 0, modN, inverse) == 0
  {
    FitsOwnMod(0, modN);
    FitsOwnMod(0, Pow2(n));
  }

  /** The controlled adds agree with the engine when `modN` is a power of two at least 2^n. */
  lemma AddsAgree(toMod: nat, modN: nat, n: nat, x: nat, out: nat, inverse: bool)
    requires IsPow2(modN) && modN >= Pow2(n) && x < Pow2(n)
    requires !inverse ==> out == 0
    requires inverse ==> out == MulReference(x, 0, n, toMod, modN, false)
    ensures AddsResult(ToBits(x, n), toMod, if inverse then out else 0, n, inverse)
         == MulReference(x, out, n, toMod, modN, inverse)
  {
    var k := Pow2Multiple(modN, n);
    var o := if inverse then out else 0;
    AddsOfValue(x, n, toMod, o, inverse);
    Congruent(x * toMod, modN, Pow2(n), k, o, inverse);
  }

  /** The controlled adds on a basis state add (or subtract) its value times toMod. */
  lemma AddsOfValue(x: nat, n: nat, toMod: nat, o: nat, inverse: bool)
    requires x < Pow2(n)
    ensures AddsResult(ToBits(x, n), toMod, o, n, inverse)
         == (if inverse then o - x * toMod else o + x * toMod) % Pow2(n)
  {
    FromToBits(x, n);
    FitsOwnMod(x, Pow2(n));
  }

  /** Adding y or its residue modulo a multiple of p gives the same residue modulo p. */
  lemma Congruent(y: int, m: int, p: int, k: int, o: int, inverse: bool)
    requires p > 0 && k > 0 && m == p * k
    ensures (if inverse then o - y else o + y) % p == (if inverse then o - y % m else o + y % m) % p
  {
    ModMod(y, p, k, m);
    if inverse {
      SubCongruent(o, y, y % m, p);
    } else {
      ModShift(y, y % p, o, p);
      ModShift(y % m, y % p, o, p);
    }
  }

  /**
   * As written: with `modN` = 2 on a two-qubit input of separate,
   * uncached qubits holding 3, the controlled adds leave 3 where the product
   * modulo `modN` is 1; with the corrected guard the engine runs.
   */
  lemma MulModNOutAsWrittenDiffers()
    ensures var ins := [Dirty(0), Dirty(1)];
      && MulModNOutAsWritten(1, 2, ins, 0.0, false) == ControlledAdds(true)
      && MulEffect(MulModNOutAsWritten(1, 2, ins, 0.0, false), 3, 0, 2, 1, 2, false) == 3
      && MulReference(3, 0, 2, 1, 2, false) == 1
      && MulModNOut(1, 2, ins, 0.0, false) == Engine(true)
  {
    var ins := [Dirty(0), Dirty(1)];
    assert !AllKnown(Readings(ins, 0.0)) by {
      assert Readings(ins, 0.0)[0] == Unknown;
    }
    assert !SameUnit(ins) by {
      assert ins[1].unit != ins[0].unit;
    }
    assert IsPow2(2) && Pow2(2) == 4;
    assert ToBits(3, 2) == [true, true];
    assert FromBits([true, true]) == 3;
  }

  /** An uncached qubit alone in unit u. */
  function Dirty(u: UnitId): Shard
  {
    Shard(Some(u), 0, PauliZ, true, true, 0.5, 0.5)
  }

  /**
   * `MULModNOut` then `IMULModNOut` with the same arguments returns a cleared
   * output register to zero, when the residues modulo `modN` fit in it.
   */
  lemma MulModNOutRoundTrip(toMod: nat, modN: nat, ins: seq<Shard>, threshold: real, x: nat)
    requires 0 < modN <= Pow2(|ins|) && x < Pow2(|ins|)
    requires AllKnown(Readings(ins, threshold)) ==> x == Value(Readings(ins, threshold))
    ensures var n := |ins|;
      var mid := MulEffect(MulModNOut(toMod, modN, ins, threshold, false), x, 0, n, toMod, modN, false);
      MulEffect(MulModNOut(toMod, modN, ins, threshold, true), x, mid, n, toMod, modN, true) == 0
  {
    var n := |ins|;
    MulModNOutAgrees(toMod, modN, ins, threshold, false, x, 0);
    var mid := MulReference(x, 0, n, toMod, modN, false);
    MulModNOutAgrees(toMod, modN, ins, threshold, true, x, mid);
    ReferenceRoundTrip(x, n, toMod, modN);
  }

  /** The engine's `IMULModNOut` undoes its `MULModNOut` when the residues fit in n bits. */
  lemma ReferenceRoundTrip(x: nat, n: nat, toMod: nat, modN: nat)
    requires 0 < modN <= Pow2(n)
    ensures MulReference(x, MulReference(x, 0, n, toMod, modN, false), n, toMod, modN, true) == 0
  {
    var y := (x * toMod) % modN;
    FitsOwnMod(y, Pow2(n));
    FitsOwnMod(0, Pow2(n));
  }

  /** `intPow`: base to the power e. */
  function Power(base: nat, e: nat): (r: nat)
    ensures base >= 1 ==> r >= 1
  {
    if e == 0 then 1 else base * Power(base, e - 1)
  }

  /**
   * The path `POWModNOut` takes, `one` being what it writes for base 1:
   * base 1, cached input, or the engine on a cleared output.
   */
  function PowModNPath(toMod: nat, modN: nat, ins: seq<Shard>, threshold: real, one: nat): (r: ModOut)
    requires toMod != 1 && AllKnown(Readings(ins, threshold)) ==> modN != 0
    ensures r.SetOut? || r == Engine(true)
    ensures r.Engine? <==> toMod != 1 && !AllKnown(Readings(ins, threshold))
    ensures toMod == 1 ==> r == SetOut(one)
    ensures toMod != 1 && r.SetOut? ==> r.value == Power(toMod, Value(Readings(ins, threshold))) % modN
  {
    var input := Readings(ins, threshold);
    if toMod == 1 then SetOut(one)
    else if AllKnown(input) then SetOut(Power(toMod, Value(input)) % modN)
    else Engine(true)
  }

  /** `POWModNOut` as the source writes it: base 1 sets the output to 1 whatever `modN`. */
  function PowModNOutAsWritten(toMod: nat, modN: nat, ins: seq<Shard>, threshold: real): (r: ModOut)
    requires toMod != 1 && AllKnown(Readings(ins, threshold)) ==> modN != 0
    ensures toMod == 1 ==> r == SetOut(1)
  {
    PowModNPath(toMod, modN, ins, threshold, 1)
  }

  /** `POWModNOut`, base 1 writing 1 modulo `modN`, which is 0 when `modN` is 1. */
  function PowModNOut(toMod: nat, modN: nat, ins: seq<Shard>, threshold: real): (r: ModOut)
    requires toMod != 1 && AllKnown(Readings(ins, threshold)) ==> modN != 0
    ensures toMod == 1 ==> r == SetOut(if modN == 1 then 0 else 1)
  {
    PowModNPath(toMod, modN, ins, threshold, if modN == 1 then 0 else 1)
  }

  /** The engine's `POWModNOut` on input value x: base to the x, modulo `modN`, in n bits. */
  function PowReference(x: nat, n: nat, toMod: nat, modN: nat): (o: nat)
    requires modN > 0
    ensures o < Pow2(n)
  {
    (Power(toMod, x) % modN) % Pow2(n)
  }

  /** The output register a path of `POWModNOut` leaves. */
  function PowEffect(r: ModOut, x: nat, n: nat, toMod: nat, modN: nat): (o: nat)
    requires modN > 0 && (r.SetOut? || r.Engine?)
    ensures o < Pow2(n)
  {
    if r.SetOut? then r.value % Pow2(n) else PowReference(x, n, toMod, modN)
  }

  lemma {:induction false} PowerOfOne(e: nat)
    ensures Power(1, e) == 1
  {
    if e > 0 {
      PowerOfOne(e - 1);
    }
  }

  /** On every input basis state each path of `POWModNOut` leaves what the engine's would. */
  lemma PowModNOutAgrees(toMod: nat, modN: nat, ins: seq<Shard>, threshold: real, x: nat)
    requires modN > 0
    requires AllKnown(Readings(ins, threshold)) ==> x == Value(Readings(ins, threshold))
    ensures PowEffect(PowModNOut(toMod, modN, ins, threshold), x, |ins|, toMod, modN)
         == PowReference(x, |ins|, toMod, modN)
  {
    if toMod == 1 {
      PowerOfOne(x);
      if modN > 1 {
        FitsOwnMod(1, modN);
      }
    }
  }

  /**
   * As written: base 1 with `modN` = 1 on a one-qubit output
   * writes 1, where one to any power modulo 1 is 0.
   */
  lemma PowModNOutAsWrittenDiffers(ins: seq<Shard>, threshold: real, x: nat)
    requires |ins| == 1
    ensures PowEffect(PowModNOutAsWritten(1, 1, ins, threshold), x, 1, 1, 1) == 1
    ensures PowReference(x, 1, 1, 1) == 0
  {
    assert Pow2(1) == 2;
  }
}
