// QUnit's `INT`: the ripple adder that adds a classical integer to a
// register qubit by qubit while the carry stays classical, handing what is
// left to the unit's own `INC` (or `INCC`) once it meets a qubit it cannot
// read.  The register is followed through one basis state: `x` holds its
// bits, least significant first, and the readings are what the shard cache
// says of each qubit.
module QUnitInt {
  import opened Bits
  import opened Shards
  import opened CachedBits

  /** The basis state x agrees with every cached reading. */
  predicate Consistent(reg: seq<Qubit>, x: seq<bool>)
  {
    |reg| == |x| && forall i :: 0 <= i < |reg| && reg[i].Known? ==> reg[i].b == x[i]
  }

  /** The unit's `INC(m, s, pl)` on a basis state: qubits s .. s + pl - 1 gain m modulo 2^pl. */
  function IncRange(x: seq<bool>, s: nat, pl: nat, m: nat): (y: seq<bool>)
    requires s + pl <= |x|
    ensures |y| == |x| && y[..s] == x[..s] && y[s + pl..] == x[s + pl..]
  {
    FromToBits((FromBits(x[s..s + pl]) + m) % Pow2(pl), pl);
    x[..s] + ToBits((FromBits(x[s..s + pl]) + m) % Pow2(pl), pl) + x[s + pl..]
  }

  /**
   * The loop invariant of the ripple: qubits from s on are untouched, and
   * what has been written below s, the carry into qubit s and the addend
   * still to go add up to the original register plus the addend.
   */
  predicate Ripple(x0: seq<bool>, t: nat, x: seq<bool>, s: nat, carry: bool, toMod: nat)
  {
    |x| == |x0| && s <= |x0| && x[s..] == x0[s..] && toMod < Pow2(|x0| - s)
    && FromBits(x) + (if carry then Pow2(s) else 0) + toMod * Pow2(s) == FromBits(x0) + t
  }

  /**
   * `INT(toMod, start, length, carryIndex, hasCarry)` with no controls, on a
   * register holding basis state x0: the register ends holding x0 plus
   * toMod modulo 2^length and, with a carry qubit (clear on entry), the
   * carry qubit ends holding the carry out.  A register read as all |+>
   * is left alone when there is no carry.
   */
  method Int(reg: seq<Qubit>, x0: seq<bool>, toMod0: nat, hasCarry: bool) returns (x: seq<bool>, carryOut: bool)
    requires Consistent(reg, x0)
    ensures |x| == |x0|
    ensures AllPlus(reg) && !hasCarry ==> x == x0
    ensures !(AllPlus(reg) && !hasCarry) ==> FromBits(x) == (FromBits(x0) + toMod0 % Pow2(|x0|)) % Pow2(|x0|)
    ensures hasCarry ==> (carryOut <==> FromBits(x0) + toMod0 % Pow2(|x0|) >= Pow2(|x0|))
    ensures !hasCarry ==> !carryOut
  {
    var L := |x0|;
    x, carryOut := x0, false;
    // `toMod &= pow2Mask(length)`
    var toMod: nat := And(toMod0, Mask(L));
    AndLowMask(toMod0, L);
    ghost var t := toMod;
    RippleStart(x0, t);
    if toMod == 0 {
      RippleDone(x0, t, x0, L, false, 0);
      return;
    }
    if !hasCarry && AllPlus(reg) {
      return;
    }

    var carry := false;
    var start: nat, i: nat := 0, 0;
    while i < L
      invariant start <= i <= L && (i != start ==> i == L && !carry)
      invariant Ripple(x0, t, x, start, carry, toMod)
      decreases L - i
    {
      var toAdd := toMod % 2 == 1;
      if toAdd == carry {
        // Nothing changes in this qubit; the carry moves up.
        RippleSkip(x0, t, x, start, carry, toMod);
        toMod := toMod / 2;
        start, i := start + 1, i + 1;
        continue;
      }
      if reg[start].Known? {
        var inReg := reg[start].b;
        var total := (if toAdd then 1 else 0) + (if inReg then 1 else 0) + (if carry then 1 else 0);
        RippleKnown(x0, t, x, start, carry, toMod);
        if inReg != (total % 2 == 1) {
          x := x[start := !x[start]];
        }
        carry := total > 1;
        toMod := toMod / 2;
        start, i := start + 1, i + 1;
      } else {
        // The carry-in is classical: fold it into the addend.
        if carry {
          RippleAbsorb(x0, t, x, start, toMod);
          carry := false;
          toMod := toMod + 1;
        }
        if L - start == 1 {
          break;
        }
        var found;
        x, carry, toMod, start, found := AddPart(reg, x0, t, x, start, toMod);
        i := if found then start else L;
      }
    }

    x, carryOut := AddRest(x0, t, x, start, carry, toMod, hasCarry);
  }

  /**
   * `INCC` as written: a set carry qubit is cleared and its one folded into
   * the addend, which `INT` then masks to the register's width.  When the
   * addend was 2^length - 1 the folded addend is 2^length, the mask makes it
   * zero, and `INT` returns at once: the carry out is lost.
   */
  method IncCAsWritten(reg: seq<Qubit>, x0: seq<bool>, toAdd: nat, carryIn: bool) returns (x: seq<bool>, carryOut: bool)
    requires Consistent(reg, x0)
    ensures var a := (toAdd + (if carryIn then 1 else 0)) % Pow2(|x0|);
      |x| == |x0| && FromBits(x) == (FromBits(x0) + a) % Pow2(|x0|)
      && (carryOut <==> FromBits(x0) + a >= Pow2(|x0|))
  {
    var a := if carryIn then toAdd + 1 else toAdd;
    x, carryOut := Int(reg, x0, a, true);
  }

  /**
   * `INCC` as intended: the register gains the addend (modulo 2^length) plus
   * the carry in, and the carry qubit ends holding the carry out of that sum.
   */
  method IncC(reg: seq<Qubit>, x0: seq<bool>, toAdd: nat, carryIn: bool) returns (x: seq<bool>, carryOut: bool)
    requires Consistent(reg, x0)
    ensures var sum := FromBits(x0) + toAdd % Pow2(|x0|) + (if carryIn then 1 else 0);
      |x| == |x0| && FromBits(x) == sum % Pow2(|x0|) && (carryOut <==> sum >= Pow2(|x0|))
  {
    var p := Pow2(|x0|);
    var a := toAdd % p + (if carryIn then 1 else 0);
    if a == p {
      // Adding 2^length leaves the register as it is and sets the carry.
      x, carryOut := x0, true;
      FromBitsBound(x0);
      DivModUnique(FromBits(x0) + a, p, 1, FromBits(x0));
    } else {
      FitsOwnMod(a, p);
      x, carryOut := Int(reg, x0, a, true);
    }
  }

  /**
   * `DECC` as written: a set carry qubit (no borrow) is cleared, a clear one
   * adds one to the subtrahend, and `INT` adds 2^length minus the
   * subtrahend, masked.  Subtracting zero with no borrow masks to zero and
   * the carry (no borrow) out is lost.
   */
  method DecCAsWritten(reg: seq<Qubit>, x0: seq<bool>, toSub: nat, carryIn: bool) returns (x: seq<bool>, carryOut: bool)
    requires Consistent(reg, x0)
    ensures var p := Pow2(|x0|);
      var a := (p - (toSub + (if carryIn then 0 else 1))) % p;
      |x| == |x0| && FromBits(x) == (FromBits(x0) + a) % p && (carryOut <==> FromBits(x0) + a >= p)
  {
    var p := Pow2(|x0|);
    var sub := if carryIn then toSub else toSub + 1;
    // `pow2(length) - toSub` wraps in the unsigned width, a multiple of 2^length, before `INT` masks it.
    var a: nat := (p - sub) % p;
    FitsOwnMod(a, p);
    x, carryOut := Int(reg, x0, a, true);
  }

  /**
   * `DECC` as intended: the register loses the subtrahend (modulo 2^length)
   * and one more when the carry in is clear (a borrow), and the carry qubit
   * ends set exactly when nothing had to be borrowed.
   */
  method DecC(reg: seq<Qubit>, x0: seq<bool>, toSub: nat, carryIn: bool) returns (x: seq<bool>, carryOut: bool)
    requires Consistent(reg, x0)
    ensures var diff := FromBits(x0) - (toSub % Pow2(|x0|) + (if carryIn then 0 else 1));
      |x| == |x0| && FromBits(x) == diff % Pow2(|x0|) && (carryOut <==> diff >= 0)
  {
    var p := Pow2(|x0|);
    var sub := toSub % p + (if carryIn then 0 else 1);
    FromBitsBound(x0);
    if sub == 0 {
      // Nothing to subtract and no borrow: the register stays and the carry is set.
      x, carryOut := x0, true;
      FitsOwnMod(FromBits(x0), p);
    } else {
      var a: nat := p - sub;
      FitsOwnMod(a, p);
      x, carryOut := Int(reg, x0, a, true);
      BorrowFacts(FromBits(x0), sub, p);
    }
  }

  /** Adding p - d modulo p subtracts d, and carries exactly when nothing is borrowed. */
  lemma BorrowFacts(v: nat, d: nat, p: nat)
    requires 0 < d <= p && v < p
    ensures (v + (p - d)) % p == (v - d) % p
    ensures v + (p - d) >= p <==> v - d >= 0
  {
    if v >= d {
      DivModUnique(v + (p - d), p, 1, v - d);
      DivModUnique(v - d, p, 0, v - d);
    } else {
      DivModUnique(v + (p - d), p, 0, v + p - d);
      DivModUnique(v - d, p, -1, v + p - d);
    }
  }

  /**
   * One qubit holding 0, addend 1 and the carry set: the sum is 2, so the
   * register stays 0 and the carry must come out set; as written it comes
   * out clear.  Likewise subtracting 0 from it with no borrow.
   */
  method CarryLost() returns (incLost: bool, incKept: bool, decLost: bool, decKept: bool)
    ensures incLost && incKept && decLost && decKept
  {
    var reg, x0 := [Known(false)], [false];
    assert FromBits(x0) == 0 by {
      assert x0[1..] == [];
    }
    assert Pow2(1) == 2;
    var x, c := IncCAsWritten(reg, x0, 1, true);
    incLost := !c;
    x, c := IncC(reg, x0, 1, true);
    incKept := c;
    x, c := DecCAsWritten(reg, x0, 0, true);
    decLost := !c;
    x, c := DecC(reg, x0, 0, true);
    decKept := c;
  }

  /**
   * After the ripple: with nothing left to add the classical carry is
   * written to the carry qubit; otherwise the unit's `INC` (or `INCC`) adds
   * what is left over the remaining qubits and produces the carry.
   */
  method AddRest(x0: seq<bool>, ghost t: nat, x: seq<bool>, start: nat, carry: bool, toMod: nat, hasCarry: bool)
    returns (x': seq<bool>, carryOut: bool)
    requires Ripple(x0, t, x, start, carry, toMod) && (start < |x0| ==> !carry)
    ensures |x'| == |x0| && FromBits(x') == (FromBits(x0) + t) % Pow2(|x0|)
    ensures carryOut <==> hasCarry && FromBits(x0) + t >= Pow2(|x0|)
  {
    var L := |x0|;
    if toMod == 0 && start == L {
      // The carry never had to be entangled.
      x', carryOut := x, hasCarry && carry;
      RippleDone(x0, t, x, L, carry, toMod);
      return;
    }

    // What is left goes to the unit's `INC` (or `INCC`) over the remaining qubits.
    var rest := L - start;
    var sum := FromBits(x[start..start + rest]) + toMod;
    RippleFinish(x0, t, x, start, toMod);
    x' := IncRange(x, start, rest, toMod);
    carryOut := hasCarry && sum >= Pow2(rest);
    RippleDone(x0, t, x', L, sum >= Pow2(rest), 0);
  }

  /**
   * The search above an unreadable qubit at `start` (the carry already
   * folded into the addend): the first readable qubit whose addend bit
   * equals it closes a part, which the unit's `INC` adds and whose top bit
   * is the carry out; with none, the top of the register is reached and
   * nothing changes.
   */
  method AddPart(reg: seq<Qubit>, x0: seq<bool>, ghost t: nat, x: seq<bool>, start: nat, toMod: nat)
    returns (x': seq<bool>, carry: bool, toMod': nat, start': nat, found: bool)
    requires Consistent(reg, x0) && Ripple(x0, t, x, start, false, toMod) && start + 1 < |x0|
    ensures Ripple(x0, t, x', start', carry, toMod')
    ensures found ==> start + 2 <= start' <= |x0|
    ensures !found ==> x' == x && start' == start && toMod' == toMod && !carry
  {
    var L := |x0|;
    x', carry, toMod', start', found := x, false, toMod, start, false;
    var partLength := 1;
    var i := start + 1;
    while i < L
      invariant i == start + partLength && 1 <= partLength && i <= L
      decreases L - i
    {
      partLength := partLength + 1;
      i := i + 1;
      var toAdd := Shr(toMod, partLength - 1) % 2 == 1;
      var partStart := start + partLength - 1;
      if !reg[partStart].Known? {
        continue;
      }
      if toAdd != reg[partStart].b {
        continue;
      }
      assert x[partStart] == x0[partStart] by {
        assert x[start..][partLength - 1] == x0[start..][partLength - 1];
      }
      RipplePart(x0, t, x, start, partLength, toMod);
      x' := IncRange(x, start, partLength, toMod % Pow2(partLength));
      carry := toAdd;
      toMod' := Shr(toMod, partLength);
      start' := start + partLength;
      found := true;
      return;
    }
  }

  lemma {:induction false} RippleStart(x0: seq<bool>, t: nat)
    requires t < Pow2(|x0|)
    ensures Ripple(x0, t, x0, 0, false, t)
  {
  }

  /** At the top of the register the invariant gives the sum and its carry. */
  lemma {:induction false} RippleDone(x0: seq<bool>, t: nat, x: seq<bool>, s: nat, carry: bool, toMod: nat)
    requires s == |x0| && Ripple(x0, t, x, s, carry, toMod)
    ensures toMod == 0
    ensures FromBits(x) == (FromBits(x0) + t) % Pow2(|x0|)
    ensures carry <==> FromBits(x0) + t >= Pow2(|x0|)
  {
    FromBitsBound(x);
    DivModUnique(FromBits(x0) + t, Pow2(|x0|), if carry then 1 else 0, FromBits(x));
  }

  /** The addend bit equals the carry: the qubit keeps its value and the carry moves up. */
  lemma {:induction false} RippleSkip(x0: seq<bool>, t: nat, x: seq<bool>, s: nat, carry: bool, toMod: nat)
    requires Ripple(x0, t, x, s, carry, toMod) && s < |x0| && (toMod % 2 == 1) == carry
    ensures Ripple(x0, t, x, s + 1, carry, toMod / 2)
  {
    assert x[s + 1..] == x[s..][1..];
    HalveBound(toMod, |x0| - s);
    SkipGlue(toMod, toMod / 2, if carry then 1 else 0, Pow2(s), Pow2(s + 1));
  }

  lemma SkipGlue(tm: int, t2: int, c: int, p: int, q: int)
    requires q == 2 * p && tm == c + 2 * t2
    ensures c * q + t2 * q == c * p + tm * p
  {
  }

  /** Halving a number below 2^k gives one below 2^(k-1). */
  lemma {:induction false} HalveBound(v: nat, k: nat)
    requires k >= 1 && v < Pow2(k)
    ensures v / 2 < Pow2(k - 1) && (v % 2 == 0 ==> v + 1 < Pow2(k))
  {
  }

  /** A known qubit: it takes the low bit of addend bit + qubit + carry, and the carry the high bit. */
  lemma {:induction false} RippleKnown(x0: seq<bool>, t: nat, x: seq<bool>, s: nat, carry: bool, toMod: nat)
    requires Ripple(x0, t, x, s, carry, toMod) && s < |x0|
    ensures var a, r, c := toMod % 2, (if x[s] then 1 else 0), (if carry then 1 else 0);
      Ripple(x0, t, x[s := (a + r + c) % 2 == 1], s + 1, a + r + c > 1, toMod / 2)
  {
    var a, r, c := toMod % 2, (if x[s] then 1 else 0), (if carry then 1 else 0);
    var total := a + r + c;
    var x' := x[s := total % 2 == 1];
    KnownTotal(x, s, carry, toMod);
    assert x'[s + 1..] == x[s + 1..] == x[s..][1..];
    HalveBound(toMod, |x0| - s);
    RippleStep(x0, t, x, s, carry, toMod, x', s + 1, total > 1, toMod / 2);
  }

  /** The full-adder step at a known qubit keeps the register's total. */
  lemma {:induction false} KnownTotal(x: seq<bool>, s: nat, carry: bool, toMod: nat)
    requires s < |x|
    ensures var a, r, c := toMod % 2, (if x[s] then 1 else 0), (if carry then 1 else 0);
      var total := a + r + c;
      FromBits(x[s := total % 2 == 1]) + (if total > 1 then Pow2(s + 1) else 0) + toMod / 2 * Pow2(s + 1)
      == FromBits(x) + (if carry then Pow2(s) else 0) + toMod * Pow2(s)
  {
    var a, r, c := toMod % 2, (if x[s] then 1 else 0), (if carry then 1 else 0);
    var total := a + r + c;
    var nb := total % 2 == 1;
    FromBitsSet(x, s, nb);
    assert toMod == a + 2 * (toMod / 2);
    BitSum(a, r, c);
    KnownGlue(FromBits(x), Pow2(s), Pow2(s + 1), if nb then 1 else 0, r, a, c,
      if total > 1 then 1 else 0, toMod, toMod / 2);
  }

  lemma BitSum(a: int, r: int, c: int)
    requires 0 <= a <= 1 && 0 <= r <= 1 && 0 <= c <= 1
    ensures a + r + c == (if (a + r + c) % 2 == 1 then 1 else 0) + 2 * (if a + r + c > 1 then 1 else 0)
  {
  }

  /** The invariant carries over to any state of the same total. */
  lemma {:induction false} RippleStep(x0: seq<bool>, t: nat, x: seq<bool>, s: nat, carry: bool, toMod: nat,
                                      x': seq<bool>, s': nat, carry': bool, toMod': nat)
    requires Ripple(x0, t, x, s, carry, toMod)
    requires |x'| == |x0| && s' <= |x0| && x'[s'..] == x0[s'..] && toMod' < Pow2(|x0| - s')
    requires FromBits(x') + (if carry' then Pow2(s') else 0) + toMod' * Pow2(s')
      == FromBits(x) + (if carry then Pow2(s) else 0) + toMod * Pow2(s)
    ensures Ripple(x0, t, x', s', carry', toMod')
  {
  }

  lemma KnownGlue(f: int, p: int, q: int, nb: int, r: int, a: int, c: int, c2: int, tm: int, t2: int)
    requires q == 2 * p && a + r + c == nb + 2 * c2 && tm == a + 2 * t2
    ensures (f + p * (nb - r)) + c2 * q + t2 * q == f + c * p + tm * p
  {
  }

  /** Setting bit s of a register moves its value by 2^s times the change of the bit. */
  lemma {:induction false} FromBitsSet(x: seq<bool>, s: nat, v: bool)
    requires s < |x|
    ensures FromBits(x[s := v]) == FromBits(x) + Pow2(s) * ((if v then 1 else 0) - (if x[s] then 1 else 0))
  {
    if s == 0 {
      assert x[s := v][1..] == x[1..];
    } else {
      assert x[s := v][1..] == x[1..][s - 1 := v];
      FromBitsSet(x[1..], s - 1, v);
    }
  }

  /** Folding the classical carry into an even addend. */
  lemma {:induction false} RippleAbsorb(x0: seq<bool>, t: nat, x: seq<bool>, s: nat, toMod: nat)
    requires Ripple(x0, t, x, s, true, toMod) && s < |x0| && toMod % 2 == 0
    ensures Ripple(x0, t, x, s, false, toMod + 1)
  {
    HalveBound(toMod, |x0| - s);
  }

  /**
   * A part of pl qubits from s whose top qubit equals its addend bit: the
   * unit's `INC` of the addend's low pl bits over the part carries out
   * exactly that bit.
   */
  lemma {:induction false} RipplePart(x0: seq<bool>, t: nat, x: seq<bool>, s: nat, pl: nat, toMod: nat)
    requires Ripple(x0, t, x, s, false, toMod) && 2 <= pl && s + pl <= |x0|
    requires x[s + pl - 1] == (Shr(toMod, pl - 1) % 2 == 1)
    ensures Ripple(x0, t, IncRange(x, s, pl, toMod % Pow2(pl)), s + pl, x[s + pl - 1], Shr(toMod, pl))
  {
    var L := |x0|;
    var x' := IncRange(x, s, pl, toMod % Pow2(pl));
    PartTotal(x, s, pl, toMod);
    Pow2Add(pl, L - s - pl);
    DivBound(toMod, Pow2(pl), Pow2(L - s - pl));
    assert x'[s + pl..] == x[s + pl..] == x[s..][pl..];
    RippleStep(x0, t, x, s, false, toMod, x', s + pl, x[s + pl - 1], Shr(toMod, pl));
  }

  /** The unit's `INC` over a part keeps the register's total, its top bit becoming the carry. */
  lemma {:induction false} PartTotal(x: seq<bool>, s: nat, pl: nat, toMod: nat)
    requires 1 <= pl && s + pl <= |x|
    requires x[s + pl - 1] == (Shr(toMod, pl - 1) % 2 == 1)
    ensures FromBits(IncRange(x, s, pl, toMod % Pow2(pl))) + (if x[s + pl - 1] then Pow2(s + pl) else 0)
      + Shr(toMod, pl) * Pow2(s + pl) == FromBits(x) + toMod * Pow2(s)
  {
    var pw, m := Pow2(pl), toMod % Pow2(pl);
    var b := if x[s + pl - 1] then 1 else 0;
    PartCarry(x[s..s + pl], toMod, pl);
    var sum := FromBits(x[s..s + pl]) + m;
    IncValue(x, s, pl, m);
    Pow2Add(s, pl);
    ShrSplit(toMod, pl);
    var x' := IncRange(x, s, pl, m);
    SplitValue(x, s, pl);
    PartGlue(FromBits(x[..s]), Pow2(s), pw, FromBits(x[s..s + pl]), FromBits(x[s + pl..]),
      m, sum % pw, b, toMod, Shr(toMod, pl), FromBits(x), FromBits(x'), Pow2(s + pl));
  }

  lemma PartGlue(lo: int, p: int, pw: int, part: int, hi: int, m: int, v: int, b: int,
                 tm: int, t2: int, fx: int, fx': int, q: int)
    requires fx == lo + p * (part + pw * hi)
    requires fx' == lo + p * (v + pw * hi)
    requires part + m == v + b * pw
    requires tm == m + pw * t2
    requires q == p * pw
    ensures fx' + b * q + t2 * q == fx + tm * p
  {
    assert p * (v + pw * hi) == p * v + p * (pw * hi);
    assert p * (part + pw * hi) == p * part + p * (pw * hi);
    assert b * q == p * (b * pw);
    assert t2 * q == p * (pw * t2);
    assert tm * p == p * m + p * (pw * t2);
  }

  /** The carry out of a part whose top qubit b equals the addend's bit: the sum is its residue plus b * 2^pl. */
  lemma {:induction false} PartCarry(part: seq<bool>, toMod: nat, pl: nat)
    requires |part| == pl >= 1 && part[pl - 1] == (Shr(toMod, pl - 1) % 2 == 1)
    ensures var sum := FromBits(part) + toMod % Pow2(pl);
      sum == sum % Pow2(pl) + (if part[pl - 1] then Pow2(pl) else 0)
  {
    var h := Pow2(pl - 1);
    var b := if part[pl - 1] then 1 else 0;
    assert part == part[..pl - 1] + [part[pl - 1]];
    AppendBit(part[..pl - 1], part[pl - 1]);
    FromBitsBound(part[..pl - 1]);
    HighSplit(toMod, h);
    assert Pow2(pl) == 2 * h;
    var low := FromBits(part[..pl - 1]) + toMod % h;
    DivModUnique(FromBits(part) + toMod % Pow2(pl), Pow2(pl), b, low);
  }

  /** The residue modulo 2p is the residue modulo p plus p times the next bit. */
  lemma {:induction false} HighSplit(x: nat, p: nat)
    requires p >= 1
    ensures x % (2 * p) == x % p + p * ((x / p) % 2)
  {
    var d := x / p;
    assert x == p * d + x % p;
    assert d == 2 * (d / 2) + d % 2;
    assert p * d == (2 * p) * (d / 2) + p * (d % 2);
    DivModUnique(x, 2 * p, d / 2, x % p + p * (d % 2));
  }

  /** A number is its low n bits plus 2^n times what lies above them. */
  lemma {:induction false} ShrSplit(x: nat, n: nat)
    ensures x == x % Pow2(n) + Pow2(n) * Shr(x, n)
  {
    var p := Pow2(n);
    assert x == p * (x / p) + x % p;
  }

  lemma {:induction false} DivBound(v: nat, a: nat, b: nat)
    requires a >= 1 && v < a * b
    ensures v / a < b
  {
    var q := v / a;
    assert v == a * q + v % a;
    if q >= b {
      MulMono(a, b, q);
      assert false;
    }
  }

  lemma {:induction false} MulMono(a: nat, b: nat, c: nat)
    requires b <= c
    ensures a * b <= a * c
  {
  }

  /** The value of a register, split at s and at s + pl. */
  lemma {:induction false} SplitValue(x: seq<bool>, s: nat, pl: nat)
    requires s + pl <= |x|
    ensures FromBits(x) == FromBits(x[..s]) + Pow2(s) * (FromBits(x[s..s + pl]) + Pow2(pl) * FromBits(x[s + pl..]))
  {
    var a, b, c := x[..s], x[s..s + pl], x[s + pl..];
    assert x == a + b + c;
    ThreeConcat(a, b, c, s, pl);
  }

  /** The value of three registers laid end to end. */
  lemma {:induction false} ThreeConcat(a: seq<bool>, b: seq<bool>, c: seq<bool>, s: nat, pl: nat)
    requires |a| == s && |b| == pl
    ensures FromBits(a + b + c) == FromBits(a) + Pow2(s) * (FromBits(b) + Pow2(pl) * FromBits(c))
  {
    assert a + b + c == a + (b + c);
    FromBitsConcat(a, b + c);
    FromBitsConcat(b, c);
    Subst(FromBits(a + (b + c)), FromBits(a), Pow2(|a|), FromBits(b + c), FromBits(b), Pow2(|b|), FromBits(c));
  }

  lemma Subst(fx: int, lo: int, p: int, mid: int, part: int, pw: int, hi: int)
    requires fx == lo + p * mid && mid == part + pw * hi
    ensures fx == lo + p * (part + pw * hi)
  {
  }

  /** The value after the unit's `INC` over a part. */
  lemma {:induction false} IncValue(x: seq<bool>, s: nat, pl: nat, m: nat)
    requires s + pl <= |x|
    ensures var y := IncRange(x, s, pl, m);
      FromBits(y) == FromBits(x[..s]) + Pow2(s) * ((FromBits(x[s..s + pl]) + m) % Pow2(pl) + Pow2(pl) * FromBits(x[s + pl..]))
  {
    var v := (FromBits(x[s..s + pl]) + m) % Pow2(pl);
    var a, b, c := x[..s], ToBits(v, pl), x[s + pl..];
    FromToBits(v, pl);
    FitsOwnMod(v, Pow2(pl));
    var y := IncRange(x, s, pl, m);
    assert y == a + b + c;
    ThreeConcat(a, b, c, s, pl);
    assert FromBits(b) == v;
    Replace(FromBits(y), FromBits(a), Pow2(s), FromBits(b), v, Pow2(pl), FromBits(c));
  }

  lemma Replace(fy: int, lo: int, p: int, part: int, v: int, pw: int, hi: int)
    requires fy == lo + p * (part + pw * hi) && part == v
    ensures fy == lo + p * (v + pw * hi)
  {
  }

  lemma {:induction false} FromBitsConcat(a: seq<bool>, b: seq<bool>)
    ensures FromBits(a + b) == FromBits(a) + Pow2(|a|) * FromBits(b)
  {
    if a == [] {
      assert a + b == b;
    } else {
      var bit := if a[0] then 1 else 0;
      assert (a + b)[1..] == a[1..] + b;
      assert (a + b)[0] == a[0];
      assert FromBits(a + b) == bit + 2 * FromBits(a[1..] + b);
      assert FromBits(a) == bit + 2 * FromBits(a[1..]);
      assert Pow2(|a|) == 2 * Pow2(|a| - 1);
      FromBitsConcat(a[1..], b);
      ConcatGlue(FromBits(a + b), FromBits(a), FromBits(a[1..] + b), FromBits(a[1..]), FromBits(b),
        bit, Pow2(|a| - 1), Pow2(|a|));
    }
  }

  lemma ConcatGlue(fab: int, fa: int, ftail: int, fa1: int, fb: int, bit: int, p: int, q: int)
    requires fab == bit + 2 * ftail && fa == bit + 2 * fa1 && ftail == fa1 + p * fb && q == 2 * p
    ensures fab == fa + q * fb
  {
  }

  /** The final `INC` over the qubits left: the invariant then holds at the top with its carry. */
  lemma {:induction false} RippleFinish(x0: seq<bool>, t: nat, x: seq<bool>, s: nat, toMod: nat)
    requires Ripple(x0, t, x, s, false, toMod) && s < |x0|
    ensures var rest := |x0| - s;
      var sum := FromBits(x[s..s + rest]) + toMod;
      Ripple(x0, t, IncRange(x, s, rest, toMod), |x0|, sum >= Pow2(rest), 0)
  {
    var L := |x0|;
    var rest := L - s;
    var pw := Pow2(rest);
    var part := FromBits(x[s..s + rest]);
    var sum := part + toMod;
    FromBitsBound(x[s..s + rest]);
    var b := if sum >= pw then 1 else 0;
    DivModUnique(sum, pw, b, sum - b * pw);
    IncValue(x, s, rest, toMod);
    SplitValue(x, s, rest);
    Pow2Add(s, rest);
    var x' := IncRange(x, s, rest, toMod);
    assert x[s + rest..] == [];
    PartGlue(FromBits(x[..s]), Pow2(s), pw, part, 0, toMod, sum % pw, b, toMod, 0,
      FromBits(x), FromBits(x'), Pow2(L));
  }
}
