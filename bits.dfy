// Integer bit manipulation on unbounded naturals.  Qrack's `bitCapInt` masks
// are modelled as `nat`; `&`, `|`, shifts and `log2` are defined here once and
// related to ordinary arithmetic by lemmas.
module Bits {

  /** 2 to the power n (`pow2` in the source). */
  function Pow2(n: nat): (r: nat)
    ensures r >= 1
  {
    if n == 0 then 1 else 2 * Pow2(n - 1)
  }

  lemma {:induction false} Pow2Add(a: nat, b: nat)
    ensures Pow2(a + b) == Pow2(a) * Pow2(b)
  {
    if a > 0 {
      Pow2Add(a - 1, b);
    }
  }

  lemma {:induction false} Pow2Monotone(a: nat, b: nat)
    requires a < b
    ensures Pow2(a) < Pow2(b)
  {
    if b - 1 > a {
      Pow2Monotone(a, b - 1);
    }
  }

  /** `log2` of the source: the index of the highest set bit. */
  function Log2(m: nat): nat
    requires m >= 1
  {
    if m == 1 then 0 else 1 + Log2(m / 2)
  }

  /** Exactly one bit of m is set. */
  predicate IsPow2(m: nat)
  {
    m == 1 || (m > 1 && m % 2 == 0 && IsPow2(m / 2))
  }

  lemma {:induction false} Log2OfPow2(k: nat)
    ensures IsPow2(Pow2(k)) && Log2(Pow2(k)) == k
  {
    if k > 0 {
      Log2OfPow2(k - 1);
      var p := Pow2(k - 1);
      assert Pow2(k) == 2 * p;
      HalfOfDouble(p);
    }
  }

  lemma HalfOfDouble(p: nat)
    ensures (2 * p) % 2 == 0 && (2 * p) / 2 == p
  {
    DivModUnique(2 * p, 2, p, 0);
  }

  /** A single-bit mask is the power of two given by its `log2`. */
  lemma {:induction false} Pow2OfLog2(m: nat)
    requires IsPow2(m)
    ensures Pow2(Log2(m)) == m
  {
    if m > 1 {
      Pow2OfLog2(m / 2);
    }
  }

  /** Bitwise `&`. */
  function And(a: nat, b: nat): nat
  {
    if a == 0 || b == 0 then 0
    else 2 * And(a / 2, b / 2) + (if a % 2 == 1 && b % 2 == 1 then 1 else 0)
  }

  /** Bitwise `|`. */
  function Or(a: nat, b: nat): nat
    decreases a + b
  {
    if a == 0 then b
    else if b == 0 then a
    else 2 * Or(a / 2, b / 2) + (if a % 2 == 1 || b % 2 == 1 then 1 else 0)
  }

  /** Bit i of x (`(x >> i) & 1`). */
  predicate TestBit(x: nat, i: nat)
  {
    if i == 0 then x % 2 == 1 else TestBit(x / 2, i - 1)
  }

  lemma {:induction false} AndSelf(a: nat)
    ensures And(a, a) == a
  {
    if a > 0 {
      AndSelf(a / 2);
    }
  }

  /**
   * The single-bit test used before every masked gate: for a non-zero mask,
   * `!(mask & (mask - 1))` holds exactly when one bit is set.
   */
  lemma {:induction false} SingleBitTest(m: nat)
    requires m >= 1
    ensures And(m, m - 1) == 0 <==> IsPow2(m)
  {
    if m > 1 {
      if m % 2 == 0 {
        assert (m - 1) / 2 == m / 2 - 1 && (m - 1) % 2 == 1;
        SingleBitTest(m / 2);
      } else {
        assert (m - 1) / 2 == m / 2 && (m - 1) % 2 == 0;
        AndSelf(m / 2);
      }
    }
  }

  /** Number of trailing zero bits: the index of the lowest set bit. */
  function TrailingZeros(v: nat): nat
    requires v >= 1
  {
    if v % 2 == 1 then 0 else 1 + TrailingZeros(v / 2)
  }

  /**
   * `v & (v - 1)` clears exactly the lowest set bit, so `(v ^ nV) & v` (the
   * bit that was cleared) is `Pow2(TrailingZeros(v))` and its `log2` is the
   * trailing-zero count.
   */
  lemma {:induction false} ClearLowestBit(v: nat)
    requires v >= 1
    ensures TestBit(v, TrailingZeros(v))
    ensures And(v, v - 1) == v - Pow2(TrailingZeros(v))
    ensures IsPow2(v - And(v, v - 1)) && Log2(v - And(v, v - 1)) == TrailingZeros(v)
  {
    if v % 2 == 1 {
      assert (v - 1) / 2 == v / 2 && (v - 1) % 2 == 0;
      AndSelf(v / 2);
    } else {
      assert (v - 1) / 2 == v / 2 - 1 && (v - 1) % 2 == 1;
      ClearLowestBit(v / 2);
    }
    Log2OfPow2(TrailingZeros(v));
  }

  lemma DivModUnique(x: int, d: int, q: int, r: int)
    requires d > 0 && 0 <= r < d && x == d * q + r
    ensures x / d == q && x % d == r
  {
    var q0, r0 := x / d, x % d;
    assert d * q0 + r0 == d * q + r;
    if q0 > q {
      MulStep(d, q, q0);
      assert false;
    } else if q0 < q {
      MulStep(d, q0, q);
      assert false;
    }
  }

  lemma MulStep(d: int, a: int, b: int)
    requires d > 0 && a < b
    ensures d * a + d <= d * b
  {
    var k := b - a - 1;
    assert d * b == d * a + d * (k + 1);
    assert d * (k + 1) == d * k + d;
    assert d * k >= 0;
  }

  /** Positions of the set bits of m, offset by k, in increasing order. */
  function SetBitsFrom(m: nat, k: nat): seq<nat>
  {
    if m == 0 then []
    else (if m % 2 == 1 then [k] else []) + SetBitsFrom(m / 2, k + 1)
  }

  /** Positions of the set bits of m in increasing order. */
  function SetBits(m: nat): seq<nat>
  {
    SetBitsFrom(m, 0)
  }

  lemma {:induction false} SetBitsFromLowest(v: nat, k: nat)
    requires v >= 1
    ensures SetBitsFrom(v, k) == [k + TrailingZeros(v)] + SetBitsFrom(And(v, v - 1), k)
  {
    if v % 2 == 1 {
      assert (v - 1) / 2 == v / 2 && (v - 1) % 2 == 0;
      AndSelf(v / 2);
      if v > 1 {
        assert And(v, v - 1) == 2 * (v / 2);
      }
      EvenShift(v / 2, k);
    } else {
      assert (v - 1) / 2 == v / 2 - 1 && (v - 1) % 2 == 1;
      SetBitsFromLowest(v / 2, k + 1);
      assert And(v, v - 1) == 2 * And(v / 2, v / 2 - 1);
      EvenShift(And(v / 2, v / 2 - 1), k);
    }
  }

  lemma EvenShift(x: nat, k: nat)
    ensures SetBitsFrom(2 * x, k) == SetBitsFrom(x, k + 1)
  {
  }

  /** Clearing the lowest set bit peels the first entry off the set-bit list. */
  lemma SetBitsLowest(v: nat)
    requires v >= 1
    ensures SetBits(v) == [TrailingZeros(v)] + SetBits(And(v, v - 1))
  {
    SetBitsFromLowest(v, 0);
  }

  /** The set-bit list is increasing and lists exactly the set bits. */
  lemma {:induction false} SetBitsFromSpec(m: nat, k: nat)
    ensures forall i, j :: 0 <= i < j < |SetBitsFrom(m, k)| ==> SetBitsFrom(m, k)[i] < SetBitsFrom(m, k)[j]
    ensures forall p :: p in SetBitsFrom(m, k) ==> p >= k
    ensures forall d: nat :: k + d in SetBitsFrom(m, k) <==> TestBit(m, d)
  {
    if m > 0 {
      SetBitsFromSpec(m / 2, k + 1);
      var head: seq<nat> := if m % 2 == 1 then [k] else [];
      var tail := SetBitsFrom(m / 2, k + 1);
      assert SetBitsFrom(m, k) == head + tail;
      forall i, j | 0 <= i < j < |head + tail| ensures (head + tail)[i] < (head + tail)[j] {
        assert (head + tail)[j] == tail[j - |head|];
        if i < |head| {
          assert tail[j - |head|] in tail;
        } else {
          assert (head + tail)[i] == tail[i - |head|];
        }
      }
      forall d: nat ensures k + d in SetBitsFrom(m, k) <==> TestBit(m, d) {
        if d > 0 {
          assert k + d == (k + 1) + (d - 1);
        }
      }
    } else {
      forall d: nat ensures !TestBit(m, d) {
        ZeroHasNoBits(d);
      }
    }
  }

  /** No bit of 0 is set. */
  lemma {:induction false} ZeroHasNoBits(d: nat)
    ensures !TestBit(0, d)
  {
    if d > 0 {
      ZeroHasNoBits(d - 1);
    }
  }

  lemma {:induction false} AndLowMask(x: nat, n: nat)
    ensures And(x, Pow2(n) - 1) == x % Pow2(n)
  {
    if n > 0 && x > 0 {
      AndLowMask(x / 2, n - 1);
      AndLowMaskStep(x, n);
    } else if n == 0 {
      assert Pow2(n) - 1 == 0;
      DivModUnique(x, 1, x, 0);
    } else {
      DivModUnique(0, Pow2(n), 0, 0);
    }
  }

  lemma AndLowMaskStep(x: nat, n: nat)
    requires n > 0 && x > 0
    requires And(x / 2, Pow2(n - 1) - 1) == (x / 2) % Pow2(n - 1)
    ensures And(x, Pow2(n) - 1) == x % Pow2(n)
  {
    var p := Pow2(n - 1);
    MaskHalf(n);
    ModOfDouble(x, p);
    assert And(x, Pow2(n) - 1) == 2 * And(x / 2, p - 1) + x % 2;
  }

  /** The mask of n > 0 low bits is an odd number whose half is the mask of n - 1 bits. */
  lemma MaskHalf(n: nat)
    requires n > 0
    ensures Pow2(n) == 2 * Pow2(n - 1)
    ensures (Pow2(n) - 1) / 2 == Pow2(n - 1) - 1 && (Pow2(n) - 1) % 2 == 1
  {
    var p := Pow2(n - 1);
    DivModUnique(2 * p - 1, 2, p - 1, 1);
  }

  lemma ModOfDouble(x: nat, p: nat)
    requires p >= 1
    ensures x % (2 * p) == 2 * ((x / 2) % p) + x % 2
  {
    var q := (x / 2) / p;
    var r := 2 * ((x / 2) % p) + x % 2;
    assert x / 2 == p * q + (x / 2) % p;
    assert x == 2 * (x / 2) + x % 2;
    assert x == (2 * p) * q + r;
    DivModUnique(x, 2 * p, q, r);
  }

  /** Or of a low part with a high part shifted clear of it is a sum. */
  lemma {:induction false} OrShifted(a: nat, b: nat, n: nat)
    requires a < Pow2(n)
    ensures Or(a, b * Pow2(n)) == a + b * Pow2(n)
    decreases n
  {
    if a != 0 && b != 0 {
      assert n > 0;
      assert b * Pow2(n) == 2 * (b * Pow2(n - 1));
      OrShifted(a / 2, b, n - 1);
    }
  }

  /** Little-endian bits of a register: `bs[i]` is bit i. */
  function FromBits(bs: seq<bool>): (r: nat)
  {
    if bs == [] then 0 else (if bs[0] then 1 else 0) + 2 * FromBits(bs[1..])
  }

  /** The low n bits of x, least significant first. */
  function ToBits(x: nat, n: nat): seq<bool>
  {
    if n == 0 then [] else [x % 2 == 1] + ToBits(x / 2, n - 1)
  }

  lemma {:induction false} FromBitsBound(bs: seq<bool>)
    ensures FromBits(bs) < Pow2(|bs|)
  {
    if bs != [] {
      FromBitsBound(bs[1..]);
    }
  }

  /** Reading back a written register yields the value modulo 2^n. */
  lemma {:induction false} FromToBits(x: nat, n: nat)
    ensures |ToBits(x, n)| == n
    ensures FromBits(ToBits(x, n)) == x % Pow2(n)
  {
    if n > 0 {
      FromToBits(x / 2, n - 1);
      assert ToBits(x, n)[1..] == ToBits(x / 2, n - 1);
      ModOfDouble(x, Pow2(n - 1));
    }
  }

  /** Writing back a read register reproduces it. */
  lemma {:induction false} ToFromBits(bs: seq<bool>)
    ensures ToBits(FromBits(bs), |bs|) == bs
  {
    if bs != [] {
      ToFromBits(bs[1..]);
      assert FromBits(bs) / 2 == FromBits(bs[1..]);
    }
  }

  lemma {:induction false} ToBitsAt(x: nat, n: nat, i: nat)
    requires i < n
    ensures |ToBits(x, n)| == n && (ToBits(x, n)[i] <==> TestBit(x, i))
  {
    FromToBits(x, n);
    if i > 0 {
      ToBitsAt(x / 2, n - 1, i - 1);
    }
  }

  /** `x >> n`. */
  function Shr(x: nat, n: nat): nat
  {
    DivNat(x, Pow2(n));
    x / Pow2(n)
  }

  lemma DivNat(x: nat, d: nat)
    requires d >= 1
    ensures x / d >= 0
  {
  }

  /** `pow2Mask(n)`: the n low bits set. */
  function Mask(n: nat): nat
  {
    Pow2(n) - 1
  }

  /**
   * `x & pow2Mask(n)` and `(x >> n) & pow2Mask(n)` are the two n-bit halves
   * of x modulo 2^2n.
   */
  lemma LowHigh(x: nat, n: nat)
    ensures And(x, Mask(n)) < Pow2(n) && And(Shr(x, n), Mask(n)) < Pow2(n)
    ensures And(x, Mask(n)) + And(Shr(x, n), Mask(n)) * Pow2(n) == x % Pow2(n + n)
  {
    AndLowMask(x, n);
    AndLowMask(Shr(x, n), n);
    Pow2Add(n, n);
    SplitHalves(And(x, Mask(n)), And(Shr(x, n), Mask(n)), x, Pow2(n), Pow2(n + n));
  }

  lemma SplitHalves(lo: int, hi: int, x: nat, p: nat, q: nat)
    requires p >= 1 && lo == x % p && hi == (x / p) % p && q == p * p
    ensures lo < p && hi < p && lo + hi * p == x % q
  {
    var a, b, c := x % p, (x / p) % p, (x / p) / p;
    assert x / p == p * c + b;
    assert x == p * (x / p) + a;
    assert x == (p * p) * c + (b * p + a) by {
      assert p * (p * c + b) == (p * p) * c + b * p;
    }
    assert b * p + a < p * p by {
      MulStep(p, b, p);
    }
    DivModUnique(x, p * p, c, b * p + a);
  }

  /** A value that fits in n bits is its own low half and has no high half. */
  lemma LowHighSmall(x: nat, n: nat)
    requires x < Pow2(n)
    ensures And(x, Mask(n)) == x && Shr(x, n) == 0 && And(Shr(x, n), Mask(n)) == 0
  {
    AndLowMask(x, n);
    AndLowMask(0, n);
    FitsOwnMod(x, Pow2(n));
  }

  lemma FitsOwnMod(x: nat, p: nat)
    requires x < p
    ensures x % p == x && x / p == 0 && 0 % p == 0
  {
    DivModUnique(x, p, 0, x);
    DivModUnique(0, p, 0, 0);
  }

  /** The only set bit of 2^p is bit p. */
  lemma {:induction false} TestBitPow2(p: nat, j: nat)
    ensures TestBit(Pow2(p), j) <==> p == j
  {
    if p == 0 {
      if j > 0 {
        ZeroHasNoBits(j - 1);
      }
    } else if j > 0 {
      assert Pow2(p) / 2 == Pow2(p - 1);
      TestBitPow2(p - 1, j - 1);
    }
  }
}
