// The OpenCL device bookkeeping of `OCLEngine` and `OCLDeviceContext`: one
// `size_t` counter of bytes in use per device, and the per-device work-size
// preferences, which are queried once and then remembered.  Device queries
// and environment variables are parameters.
module OclEngine {
  import opened Wrappers
  import opened Bits

  /** 2^64: `size_t` arithmetic wraps modulo this. */
  const SizeModulus: nat := 0x1_0000_0000_0000_0000

  /** `counter += size` on a `size_t`. */
  function Added(counter: nat, size: nat): (r: nat)
    ensures r < SizeModulus
    ensures counter + size < SizeModulus ==> r == counter + size
  {
    (counter + size) % SizeModulus
  }

  /** The saturating decrement of `SubtractFromActiveAllocSize`. */
  function Subtracted(counter: nat, size: nat): (r: nat)
    ensures r <= counter
    ensures r == 0 <==> size >= counter
    ensures r > 0 ==> r + size == counter
  {
    if size < counter then counter - size else 0
  }

  /** Releasing what was just reserved gives the counter back, as long as the reservation did not wrap. */
  lemma SubtractUndoesAdd(counter: nat, size: nat)
    requires counter + size < SizeModulus
    ensures Subtracted(Added(counter, size), size) == counter
  {
  }

  /** A reservation that wraps the counter leaves it below where it started. */
  lemma AddWraps(counter: nat, size: nat)
    requires counter < SizeModulus && size < SizeModulus && counter + size >= SizeModulus
    ensures Added(counter, size) < counter
  {
    assert Added(counter, size) == counter + size - SizeModulus;
  }

  class OCLEngine {
    var activeAllocSizes: seq<nat>
    var defaultDeviceId: nat
    const maxActiveAllocSize: nat

    /** The default device exists and every counter is a `size_t`. */
    ghost predicate Valid()
      reads this
    {
      defaultDeviceId < |activeAllocSizes|
      && (forall d :: 0 <= d < |activeAllocSizes| ==> activeAllocSizes[d] < SizeModulus)
    }

    constructor (devices: nat, defaultDeviceId: nat, maxActiveAllocSize: nat)
      requires defaultDeviceId < devices
      ensures activeAllocSizes == seq(devices, _ => 0) && this.defaultDeviceId == defaultDeviceId
      ensures this.maxActiveAllocSize == maxActiveAllocSize && Valid()
    {
      activeAllocSizes := seq(devices, _ => 0);
      this.defaultDeviceId := defaultDeviceId;
      this.maxActiveAllocSize := maxActiveAllocSize;
    }

    /** The device `-1` stands for: the default one. */
    function Selected(dev: int): (d: nat)
      reads this
      requires dev >= -1
      ensures dev == -1 ==> d == defaultDeviceId
      ensures dev >= 0 ==> d == dev
    {
      if dev == -1 then defaultDeviceId else dev
    }

    /** `GetActiveAllocSize(dev)`: any negative device reads the default device's counter. */
    function GetActiveAllocSize(dev: int): (r: nat)
      reads this
      requires Valid() && dev < |activeAllocSizes|
      ensures dev < 0 ==> r == activeAllocSizes[defaultDeviceId]
      ensures dev >= 0 ==> r == activeAllocSizes[dev]
      ensures r < SizeModulus
    {
      if dev < 0 then activeAllocSizes[defaultDeviceId] else activeAllocSizes[dev]
    }

    /**
     * `AddToActiveAllocSize(dev, size)`: a device below -1 is refused (the
     * source throws) and nothing changes; a size of 0 only reads the
     * counter; otherwise the selected counter grows by size, wrapping as a
     * `size_t`, and its new value is returned.
     */
    method AddToActiveAllocSize(dev: int, size: nat) returns (r: Result<nat>)
      requires Valid() && dev < |activeAllocSizes| && size < SizeModulus
      modifies this
      ensures Valid() && defaultDeviceId == old(defaultDeviceId)
      ensures dev < -1 ==> r.Err? && activeAllocSizes == old(activeAllocSizes)
      ensures dev >= -1 && size == 0 ==>
        (activeAllocSizes == old(activeAllocSizes) && r == Ok(activeAllocSizes[Selected(dev)]))
      ensures dev >= -1 && size > 0 ==>
        (var d := old(Selected(dev));
         activeAllocSizes == old(activeAllocSizes)[d := Added(old(activeAllocSizes[d]), size)]
         && r == Ok(activeAllocSizes[d]))
    {
      if dev < -1 {
        return Err("Invalid device selection");
      }
      var lDev := Selected(dev);
      if size == 0 {
        return Ok(activeAllocSizes[lDev]);
      }
      activeAllocSizes := activeAllocSizes[lDev := Added(activeAllocSizes[lDev], size)];
      r := Ok(activeAllocSizes[lDev]);
    }

    /**
     * `SubtractFromActiveAllocSize(dev, size)`: like the addition, but the
     * counter saturates at 0 instead of wrapping.
     */
    method SubtractFromActiveAllocSize(dev: int, size: nat) returns (r: Result<nat>)
      requires Valid() && dev < |activeAllocSizes|
      modifies this
      ensures Valid() && defaultDeviceId == old(defaultDeviceId)
      ensures dev < -1 ==> r.Err? && activeAllocSizes == old(activeAllocSizes)
      ensures dev >= -1 && size == 0 ==>
        (activeAllocSizes == old(activeAllocSizes) && r == Ok(activeAllocSizes[Selected(dev)]))
      ensures dev >= -1 && size > 0 ==>
        (var d := old(Selected(dev));
         activeAllocSizes == old(activeAllocSizes)[d := Subtracted(old(activeAllocSizes[d]), size)]
         && r == Ok(activeAllocSizes[d]))
    {
      if dev < -1 {
        return Err("Invalid device selection");
      }
      var lDev := Selected(dev);
      if size == 0 {
        return Ok(activeAllocSizes[lDev]);
      }
      activeAllocSizes := activeAllocSizes[lDev := Subtracted(activeAllocSizes[lDev], size)];
      r := Ok(activeAllocSizes[lDev]);
    }

    /**
     * `ResetActiveAllocSize(dev)`: the selected counter becomes 0 and the
     * others are untouched.  The source does not check the device, so the
     * caller must name one that exists.
     */
    method ResetActiveAllocSize(dev: int)
      requires Valid() && -1 <= dev < |activeAllocSizes|
      modifies this
      ensures Valid() && defaultDeviceId == old(defaultDeviceId)
      ensures activeAllocSizes == old(activeAllocSizes)[old(Selected(dev)) := 0]
    {
      var lDev := Selected(dev);
      activeAllocSizes := activeAllocSizes[lDev := 0];
    }
  }

  // ---------------------------------------------------------------------
  // Preferred concurrency: the smallest power of two at least the number
  // of processing elements times the preferred work-group multiple, moved
  // by `QRACK_GPU_OFFSET_QB` powers of two.

  /** The exponent of the smallest power of two that is at least pc. */
  function CeilLog2(pc: nat): (k: nat)
    ensures pc <= Pow2(k)
    ensures k > 0 ==> Pow2(k - 1) < pc
  {
    if pc <= 1 then 0 else 1 + CeilLog2((pc + 1) / 2)
  }

  /** No smaller power of two reaches pc. */
  lemma CeilLog2Least(pc: nat, j: nat)
    requires pc <= Pow2(j)
    ensures CeilLog2(pc) <= j
  {
    var k := CeilLog2(pc);
    if k > 0 {
      Pow2Order(j, k - 1);
    }
  }

  lemma Pow2Order(a: nat, b: nat)
    ensures a < b ==> Pow2(a) < Pow2(b)
  {
    if a < b {
      Pow2Monotone(a, b);
    }
  }

  /** A power of two below pc is below the rounded-up one. */
  lemma CeilLog2Above(pc: nat, k: nat)
    requires Pow2(k) < pc
    ensures k < CeilLog2(pc)
  {
    Pow2Order(CeilLog2(pc), k);
  }

  /**
   * The doubling loop of `GetPreferredConcurrency`: starting from 1,
   * double while below pc.  Beyond 2^63 the `size_t` doubling would wrap
   * to 0 and never end, so pc is at most that.
   */
  method RoundUpPow2(pc: nat) returns (p: nat)
    requires pc <= Pow2(63)
    ensures p == Pow2(CeilLog2(pc))
    ensures p < SizeModulus
  {
    p := 1;
    ghost var k: nat := 0;
    while p < pc
      invariant p == Pow2(k) && k <= CeilLog2(pc)
      invariant k > 0 ==> Pow2(k - 1) < pc
      decreases pc - p
    {
      CeilLog2Above(pc, k);
      p, k := 2 * p, k + 1;
    }
    CeilLog2Least(pc, k);
    CeilLog2Least(pc, 63);
    if CeilLog2(pc) < 63 {
      Pow2Monotone(CeilLog2(pc), 63);
    }
    assert Pow2(64) == 2 * Pow2(63);
    Pow2Of64();
  }

  lemma Pow2Of32()
    ensures Pow2(32) == 0x1_0000_0000
  {
    Pow2Add(16, 16);
    Pow2Add(8, 8);
    Pow2Add(4, 4);
    Pow2Add(2, 2);
  }

  /**
   * `preferredConcurrency << hybridOffset` for a positive offset and
   * `preferredConcurrency >> hybridOffset` otherwise, as written.  A
   * negative offset is a shift by a negative amount, and an offset of 64 or
   * more a shift by the whole width: both are undefined, and give None here.
   */
  function ShiftAsWritten(p: nat, hybridOffset: int): (r: Option<nat>)
    ensures r.Some? <==> 0 <= hybridOffset < 64
  {
    if hybridOffset > 0 then
      (if hybridOffset < 64 then Some((p * Pow2(hybridOffset)) % SizeModulus) else None)
    else if hybridOffset == 0 then Some(p)
    else None
  }

  /** The evident intent: shift left by a positive offset, right by the size of a negative one. */
  function Shift(p: nat, hybridOffset: int): (r: nat)
    ensures 0 <= hybridOffset < 64 ==> Some(r) == ShiftAsWritten(p, hybridOffset)
  {
    if hybridOffset > 0 then (p * Pow2(hybridOffset)) % SizeModulus
    else if hybridOffset == 0 then p
    else Shr(p, -hybridOffset)
  }

  /** A right shift by k keeps the whole multiples of 2^k: p lies in [r * 2^k, (r + 1) * 2^k). */
  lemma ShiftRight(p: nat, hybridOffset: int)
    requires hybridOffset < 0
    ensures var d, r := Pow2(-hybridOffset), Shift(p, hybridOffset);
      r * d <= p < (r + 1) * d
  {
    var d := Pow2(-hybridOffset);
    var r := p / d;
    assert p == d * r + p % d;
  }

  /** `QRACK_GPU_OFFSET_QB=-1` as written shifts by -1; as intended it halves. */
  lemma ShiftAsWrittenNegative()
    ensures ShiftAsWritten(8, -1) == None && Shift(8, -1) == 4
  {
    assert Pow2(1) == 2;
  }

  /** The preferred concurrency for pc processing slots: rounded up to a power of two, shifted, at least 1. */
  function Concurrency(pc: nat, hybridOffset: int): (r: nat)
    ensures r >= 1
  {
    var s := Shift(Pow2(CeilLog2(pc)), hybridOffset);
    if s < 1 then 1 else s
  }

  /** With the default offset of 2 and no wrap, the concurrency is four times the rounded-up count. */
  lemma DefaultConcurrency(pc: nat)
    requires pc <= Pow2(61)
    ensures Concurrency(pc, 2) == 4 * Pow2(CeilLog2(pc)) >= 4 * pc
  {
    var k := CeilLog2(pc);
    CeilLog2Least(pc, 61);
    Pow2Order(k, 61);
    var p := Pow2(k);
    Pow2Add(61, 3);
    Pow2Of64();
    assert Pow2(3) == 8 && Pow2(2) == 4;
    FitsOwnMod(p * 4, SizeModulus);
  }

  lemma Pow2Of64()
    ensures Pow2(64) == SizeModulus
  {
    Pow2Add(32, 32);
    Pow2Of32();
  }

  class DeviceContext {
    const procElemCount: nat
    var preferredSizeMultiple: nat
    var preferredConcurrency: nat

    constructor (procElemCount: nat)
      ensures this.procElemCount == procElemCount
      ensures preferredSizeMultiple == 0 && preferredConcurrency == 0
    {
      this.procElemCount := procElemCount;
      preferredSizeMultiple := 0;
      preferredConcurrency := 0;
    }

    /** `GetPreferredSizeMultiple()`: the kernel is queried while nothing non-zero is remembered. */
    method GetPreferredSizeMultiple(queried: nat) returns (r: nat)
      modifies this
      ensures old(preferredSizeMultiple) != 0 ==> r == old(preferredSizeMultiple)
      ensures old(preferredSizeMultiple) == 0 ==> r == queried
      ensures preferredSizeMultiple == r && preferredConcurrency == old(preferredConcurrency)
    {
      if preferredSizeMultiple == 0 {
        preferredSizeMultiple := queried;
      }
      r := preferredSizeMultiple;
    }

    /**
     * `GetPreferredConcurrency()`: once computed the value is remembered;
     * otherwise pc is the processing elements times the preferred multiple
     * (a `size_t` product), rounded up to a power of two, shifted by
     * hybridOffset (2 unless `QRACK_GPU_OFFSET_QB` says otherwise) and
     * floored at 1.  The shift is the intended one; ShiftAsWritten is the
     * source's.
     */
    method GetPreferredConcurrency(hybridOffset: int, queriedMultiple: nat) returns (r: nat)
      requires (procElemCount * (if preferredSizeMultiple != 0 then preferredSizeMultiple else queriedMultiple))
        % SizeModulus <= Pow2(63)
      modifies this
      ensures old(preferredConcurrency) != 0 ==> r == old(preferredConcurrency) && unchanged(this)
      ensures old(preferredConcurrency) == 0 ==>
        (var m := if old(preferredSizeMultiple) != 0 then old(preferredSizeMultiple) else queriedMultiple;
         r == Concurrency((procElemCount * m) % SizeModulus, hybridOffset) && preferredSizeMultiple == m)
      ensures preferredConcurrency == r && r >= 1
    {
      if preferredConcurrency != 0 {
        return preferredConcurrency;
      }
      var m := GetPreferredSizeMultiple(queriedMultiple);
      var pc := (procElemCount * m) % SizeModulus;
      var p := RoundUpPow2(pc);
      p := Shift(p, hybridOffset);
      if p < 1 {
        p := 1;
      }
      preferredConcurrency := p;
      r := p;
    }
  }
}
