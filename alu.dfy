// The classical fast paths of QUnit's arithmetic: when the registers an
// operation reads hold cached Z eigenstates, QUnit computes the result as an
// integer and writes it back with `SetReg` instead of entangling the qubits
// in a backing unit.  Each function says what the fast path writes, or that
// it hands the work to a backing unit.
module QUnitAlu {
  import opened Wrappers
  import opened Bits
  import opened CachedBits

  /** `INTSCOptimize` on known bits: the new register value and which flag qubits get an X / a Z. */
  datatype Sum = Sum(value: nat, flipCarry: bool, flipOverflow: bool)

  /**
   * `INTSCOptimize`: add (or subtract) `toMod` to a known register, taking
   * the measured carry qubit in (`carryIn`) and flipping it to the carry
   * out.  `overflows` is the outcome of the signed-overflow test on the
   * operands (the helpers computing it are not part of this model).  None
   * when some qubit of the register is not a known bit.
   */
  function IntscOptimize(toMod: nat, inOut: seq<Qubit>, isAdd: bool, carry: bool, carryIn: bool, overflows: bool): (r: Option<Sum>)
    requires toMod < Pow2(|inOut|)
    requires carryIn ==> carry
    ensures r.Some? <==> AllKnown(inOut)
    ensures r.Some? ==>
      var n, v := |inOut|, Value(inOut);
      var k := toMod + (if carry && carryIn == isAdd then 1 else 0);
      && r.value.value < Pow2(n)
      && r.value.flipOverflow == overflows
      && (!carry ==> !r.value.flipCarry)
      && (isAdd ==> r.value.value == (v + k) % Pow2(n) && (carry ==> (carryIn != r.value.flipCarry <==> v + k >= Pow2(n))))
      && (!isAdd ==> r.value.value == (v - k) % Pow2(n) && (carry ==> (carryIn != r.value.flipCarry <==> v >= k)))
  {
    if !AllKnown(inOut) then None
    else
      var lengthPower := Pow2(|inOut|);
      var k := if carry && carryIn == isAdd then toMod + 1 else toMod;
      var inOutInt := Value(inOut);
      var outInt := if isAdd then inOutInt + k else (inOutInt + lengthPower) - k;
      var carryOut := outInt >= lengthPower;
      var written := if carryOut then And(outInt, lengthPower - 1) else outInt;
      SumFacts(inOutInt, k, |inOut|, isAdd, outInt, written);
      Some(Sum(written, carry && carryIn != carryOut, overflows))
  }

  /** The arithmetic behind IntscOptimize's contract. */
  lemma SumFacts(v: nat, k: nat, n: nat, isAdd: bool, outInt: nat, written: nat)
    requires v < Pow2(n) && k <= Pow2(n)
    requires outInt == if isAdd then v + k else (v + Pow2(n)) - k
    requires written == if outInt >= Pow2(n) then And(outInt, Pow2(n) - 1) else outInt
    ensures written < Pow2(n)
    ensures isAdd ==> written == (v + k) % Pow2(n) && (outInt >= Pow2(n) <==> v + k >= Pow2(n))
    ensures !isAdd ==> written == (v - k) % Pow2(n) && (outInt >= Pow2(n) <==> v >= k)
  {
    SumMod(v, k, Pow2(n), isAdd, outInt);
    AndLowMask(outInt, n);
  }

  lemma SumMod(v: nat, k: nat, p: nat, isAdd: bool, outInt: nat)
    requires v < p && k <= p
    requires outInt == if isAdd then v + k else (v + p) - k
    ensures outInt >= p ==> outInt % p == outInt - p
    ensures outInt < p ==> outInt % p == outInt
    ensures isAdd ==> outInt % p == (v + k) % p && (outInt >= p <==> v + k >= p)
    ensures !isAdd ==> outInt % p == (v - k) % p && (outInt >= p <==> v >= k)
  {
    if outInt >= p {
      DivModUnique(outInt, p, 1, outInt - p);
    } else {
      DivModUnique(outInt, p, 0, outInt);
    }
    if !isAdd {
      if v >= k {
        DivModUnique(v - k, p, 0, v - k);
      } else {
        DivModUnique(v - k, p, -1, outInt);
      }
    }
  }

  /**
   * Adding and then subtracting the same amount with no carry qubit gives
   * the register back (INC followed by DEC on known bits).
   */
  lemma AddThenSubtract(toMod: nat, inOut: seq<Qubit>, overflows1: bool, overflows2: bool)
    requires toMod < Pow2(|inOut|) && AllKnown(inOut)
    ensures var a := IntscOptimize(toMod, inOut, true, false, false, overflows1).value;
      var b := IntscOptimize(toMod, KnownValue(a.value, |inOut|), false, false, false, overflows2).value;
      KnownValue(b.value, |inOut|) == inOut
  {
    var a := Plain(toMod, inOut, |inOut|, true, overflows1);
    SubtractBack(toMod, inOut, a, overflows2);
    KnownOfValue(inOut);
  }

  /** The subtraction step of the round trip: it restores the register's value. */
  lemma SubtractBack(toMod: nat, inOut: seq<Qubit>, a: nat, overflows: bool)
    requires toMod < Pow2(|inOut|) && AllKnown(inOut)
    requires a == (Value(inOut) + toMod) % Pow2(|inOut|)
    ensures IntscOptimize(toMod, KnownValue(a, |inOut|), false, false, false, overflows).Some?
    ensures IntscOptimize(toMod, KnownValue(a, |inOut|), false, false, false, overflows).value.value == Value(inOut)
  {
    var n := |inOut|;
    ValueOfKnown(a, n);
    FitsOwnMod(a, Pow2(n));
    var b := Plain(toMod, KnownValue(a, n), n, false, overflows);
    AddSubMod(Value(inOut), toMod, Pow2(n), a, Value(KnownValue(a, n)), b);
  }

  /** IntscOptimize with no carry qubit on a known register. */
  lemma Plain(toMod: nat, inOut: seq<Qubit>, n: nat, isAdd: bool, overflows: bool) returns (w: nat)
    requires |inOut| == n && toMod < Pow2(n) && AllKnown(inOut)
    ensures IntscOptimize(toMod, inOut, isAdd, false, false, overflows).Some?
    ensures w == IntscOptimize(toMod, inOut, isAdd, false, false, overflows).value.value
    ensures w < Pow2(n)
    ensures isAdd ==> w == (Value(inOut) + toMod) % Pow2(n)
    ensures !isAdd ==> w == (Value(inOut) - toMod) % Pow2(n)
  {
    w := IntscOptimize(toMod, inOut, isAdd, false, false, overflows).value.value;
  }

  lemma AddSubMod(v: nat, t: nat, p: nat, a: int, a': int, b: int)
    requires v < p
    requires t < p
    requires a == (v + t) % p
    requires a' == a
    requires b == (a' - t) % p
    ensures b == v
  {
    if v + t >= p {
      DivModUnique(v + t, p, 1, v + t - p);
      DivModUnique(a - t, p, -1, v);
    } else {
      DivModUnique(v + t, p, 0, v + t);
      DivModUnique(a - t, p, 0, v);
    }
  }

  /** What a fast path writes: the new values of its two registers (None: left alone), or a hand-off to a backing unit. */
  datatype Fast = Fast(low: Option<nat>, high: Option<nat>) | Entangled

  /** The low register after a classical outcome, read as an integer. */
  function LowAfter(r: Fast, low: nat): nat
    requires r.Fast?
  {
    if r.low.Some? then r.low.value else low
  }

  /**
   * `MUL`: multiply the in/out register by `toMul`, the high half of the
   * product going to the carry register.  Multiplying by 0 or 1 is handled
   * whatever the registers hold.
   */
  function Mul(toMul: nat, inOut: seq<Qubit>): (r: Fast)
    ensures r.Fast? <==> toMul <= 1 || AllKnown(inOut)
    ensures toMul == 0 ==> r == Fast(Some(0), Some(0))
    ensures toMul == 1 ==> r == Fast(None, Some(0))
    ensures toMul != 1 && r.Fast? ==> r.low.Some?
    ensures r.Fast? && AllKnown(inOut) ==>
      var n, low := |inOut|, LowAfter(r, Value(inOut));
      && r.high.Some? && low < Pow2(n) && r.high.value < Pow2(n)
      && low + r.high.value * Pow2(n) == (Value(inOut) * toMul) % Pow2(n + n)
  {
    var n := |inOut|;
    if toMul == 0 then
      if AllKnown(inOut) then
        Pow2Add(n, n);
        Shortcuts(Value(inOut), Pow2(n), Pow2(n + n));
        Fast(Some(0), Some(0))
      else Fast(Some(0), Some(0))
    else if toMul == 1 then
      if AllKnown(inOut) then
        Pow2Add(n, n);
        Shortcuts(Value(inOut), Pow2(n), Pow2(n + n));
        Fast(None, Some(0))
      else Fast(None, Some(0))
    else if AllKnown(inOut) then
      var lengthMask := Mask(n);
      var res := Value(inOut) * toMul;
      LowHigh(res, n);
      Fast(Some(And(res, lengthMask)), Some(And(Shr(res, n), lengthMask)))
    else Entangled
  }

  /** What the general product formula gives for the factors 0 and 1. */
  lemma Shortcuts(v: nat, p: nat, q: nat)
    requires v < p && q == p * p
    ensures 0 + 0 * p == (v * 0) % q
    ensures v + 0 * p == (v * 1) % q
  {
    assert v < q by {
      MulStep(p, 0, p);
    }
    FitsOwnMod(v, q);
  }

  /** `lo | (hi << n)` for lo below 2^n: the double-width register. */
  function Join(lo: nat, hi: nat, n: nat): (x: nat)
    requires lo < Pow2(n)
    ensures x == lo + hi * Pow2(n)
  {
    OrShifted(lo, hi, n);
    Or(lo, hi * Pow2(n))
  }

  /** `x / d` when d divides x exactly (`x == (x / d) * d`), else None. */
  function ExactQuotient(x: nat, d: nat): (q: Option<nat>)
    requires d >= 1
    ensures q.Some? <==> x % d == 0
    ensures q.Some? ==> q.value * d == x && q.value <= x
  {
    var res := x / d;
    QuotientFacts(x, d, res);
    if x == res * d then Some(res) else None
  }

  lemma QuotientFacts(x: nat, d: nat, res: nat)
    requires d >= 1 && res == x / d
    ensures x == res * d <==> x % d == 0
    ensures res <= x
  {
    MulLe(1, d, res);
  }

  /**
   * `DIV`: divide the double-width register (carry register high) by
   * `toDiv`, writing the quotient back only when the division is exact.
   * Division by 1 does nothing.  The source does not guard toDiv == 0.
   */
  function Div(toDiv: nat, inOut: seq<Qubit>, carry: seq<Qubit>): (r: Fast)
    requires toDiv != 0 && |inOut| == |carry|
    ensures r.Fast? <==> toDiv == 1 || (AllKnown(inOut) && AllKnown(carry))
    ensures r.Fast? ==> (r.low.Some? <==> r.high.Some?)
    ensures r.Fast? && r.low.Some? ==> AllKnown(inOut) && AllKnown(carry)
    ensures r.Fast? && r.low.Some? && AllKnown(inOut) && AllKnown(carry) ==>
      var n := |inOut|;
      && r.low.value < Pow2(n) && r.high.value < Pow2(n)
      && (r.low.value + r.high.value * Pow2(n)) * toDiv == Value(inOut) + Value(carry) * Pow2(n)
    ensures r.Fast? && r.low.None? && AllKnown(inOut) && AllKnown(carry) ==>
      toDiv == 1 || (Value(inOut) + Value(carry) * Pow2(|inOut|)) % toDiv != 0
  {
    var n := |inOut|;
    if toDiv == 1 then Fast(None, None)
    else if AllKnown(inOut) && AllKnown(carry) then
      var lengthMask := Mask(n);
      var origRes := Join(Value(inOut), Value(carry), n);
      var res := ExactQuotient(origRes, toDiv);
      if res.Some? then
        LowHigh(res.value, n);
        Pow2Add(n, n);
        Quotient(Value(inOut), Value(carry), Pow2(n), Pow2(n + n), toDiv, origRes, res.value,
          And(res.value, lengthMask) + And(Shr(res.value, n), lengthMask) * Pow2(n));
        Fast(Some(And(res.value, lengthMask)), Some(And(Shr(res.value, n), lengthMask)))
      else Fast(None, None)
    else Entangled
  }

  /** An exact quotient of a 2n-bit number fits in 2n bits, so splitting it loses nothing. */
  lemma Quotient(v: nat, c: nat, p: nat, q: nat, d: nat, orig: nat, res: nat, halves: int)
    requires v < p && c < p && q == p * p && d >= 1
    requires orig == v + c * p && res * d == orig && res <= orig && halves == res % q
    ensures halves * d == v + c * p
  {
    assert c * p <= (p - 1) * p by {
      MulLe(c, p - 1, p);
    }
    FitsOwnMod(res, q);
  }

  lemma MulLe(a: nat, b: nat, c: nat)
    requires a <= b
    ensures a * c <= b * c
  {
  }

  /**
   * Multiplying a known register and then dividing the product by the
   * same factor gives the register back and clears the carry register.
   */
  lemma MulThenDiv(toMul: nat, inOut: seq<Qubit>)
    requires AllKnown(inOut) && 2 <= toMul < Pow2(|inOut|)
    ensures var n, m := |inOut|, Mul(toMul, inOut);
      Div(toMul, KnownValue(m.low.value, n), KnownValue(m.high.value, n)) == Fast(Some(Value(inOut)), Some(0))
  {
    var n, v := |inOut|, Value(inOut);
    var m := Mul(toMul, inOut);
    var low, high := m.low.value, m.high.value;
    assert LowAfter(m, v) == low;
    ProductBack(v, toMul, n, low, high);
    ValueOfKnown(low, n);
    ValueOfKnown(high, n);
    FitsOwnMod(low, Pow2(n));
    FitsOwnMod(high, Pow2(n));
    DivOfKnown(toMul, KnownValue(low, n), KnownValue(high, n), v);
    LowHighSmall(v, n);
  }

  /** A product of two n-bit factors fits in 2n bits, so MUL keeps all of it. */
  lemma ProductBack(v: nat, t: nat, n: nat, low: nat, high: nat)
    requires v < Pow2(n) && 1 <= t < Pow2(n)
    requires low + high * Pow2(n) == (v * t) % Pow2(n + n)
    ensures low + high * Pow2(n) == v * t
  {
    Pow2Add(n, n);
    ProductFits(v, t, Pow2(n), Pow2(n + n));
  }

  lemma ProductFits(v: nat, t: nat, p: nat, q: nat)
    requires v < p && 1 <= t < p && q == p * p
    ensures (v * t) % q == v * t
  {
    assert v * t < q by {
      MulLe(v, p - 1, t);
      MulLe(t, p - 1, p - 1);
      MulStep(p, p - 2, p);
    }
    FitsOwnMod(v * t, q);
  }

  /** Div on known registers holding a multiple of the divisor writes the quotient's two halves. */
  lemma DivOfKnown(toDiv: nat, inOut: seq<Qubit>, carry: seq<Qubit>, quot: nat)
    requires toDiv >= 2 && |inOut| == |carry| && AllKnown(inOut) && AllKnown(carry)
    requires Value(inOut) + Value(carry) * Pow2(|inOut|) == quot * toDiv
    ensures Div(toDiv, inOut, carry) == Fast(Some(And(quot, Mask(|inOut|))), Some(And(Shr(quot, |inOut|), Mask(|inOut|))))
  {
    var n := |inOut|;
    var origRes := Join(Value(inOut), Value(carry), n);
    DivModUnique(origRes, toDiv, quot, 0);
    assert origRes % toDiv == 0;
    assert ExactQuotient(origRes, toDiv) == Some(quot);
  }
}
