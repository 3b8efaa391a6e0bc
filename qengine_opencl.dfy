// QEngineOCL's own bookkeeping: the bytes of device memory it holds,
// reserved against the device-wide budget kept by `OCLEngine`; the queue of
// kernel calls waiting to run, which is started when its first item
// arrives; and the choice between a one-qubit gate and a mask kernel for
// `XMask` and `PhaseParity`.  Kernels and buffers are left out.
module QEngineOcl {
  import opened Wrappers
  import opened Bits
  import opened OclEngine

  /** An entry of `wait_queue_items`. */
  datatype QueueItem =
    | SetDoNormalize(doNorm: bool)
    | SetRunningNorm(runningNorm: real)
    | Call(api: nat, workItemCount: nat, localGroupSize: nat, deallocSize: nat, localBuffSize: nat)

  class QEngineOCL {
    const deviceID: int
    const ocl: OCLEngine
    var totalOclAllocSize: nat
    var waitQueue: seq<QueueItem>
    /** How many times `DispatchQueue` was started. */
    var dispatches: nat
    /** Whether `FreeAll` released this engine's buffers. */
    var freedAll: bool

    /** The device budget is well formed, the engine names one of its devices, and a waiting queue was started. */
    ghost predicate Valid()
      reads this, ocl
    {
      ocl.Valid() && deviceID < |ocl.activeAllocSizes| && totalOclAllocSize < SizeModulus
      && (|waitQueue| > 0 ==> dispatches > 0)
    }

    constructor (ocl: OCLEngine, deviceID: int)
      requires ocl.Valid() && deviceID < |ocl.activeAllocSizes|
      ensures this.ocl == ocl && this.deviceID == deviceID && totalOclAllocSize == 0
      ensures waitQueue == [] && dispatches == 0 && !freedAll && Valid()
    {
      this.ocl := ocl;
      this.deviceID := deviceID;
      totalOclAllocSize := 0;
      waitQueue := [];
      dispatches := 0;
      freedAll := false;
    }

    /** The device counter `AddToActiveAllocSize` leaves for a reservation of size bytes. */
    ghost function Reserved(size: nat): nat
      reads this, ocl
      requires Valid() && deviceID >= -1
    {
      var c := ocl.activeAllocSizes[ocl.Selected(deviceID)];
      if size == 0 then c else Added(c, size)
    }

    /**
     * `FreeAll()`: every buffer of this engine is freed, and what it held on
     * the device, `totalOclAllocSize`, is handed back to the device counter
     * (which saturates at 0), as the destructor relies on.
     */
    method FreeAll()
      requires Valid()
      modifies this, ocl
      ensures Valid() && waitQueue == old(waitQueue) && dispatches == old(dispatches)
      ensures ocl.defaultDeviceId == old(ocl.defaultDeviceId)
      ensures freedAll && totalOclAllocSize == 0
      ensures deviceID < -1 ==> ocl.activeAllocSizes == old(ocl.activeAllocSizes)
      ensures deviceID >= -1 ==>
        (var d := old(ocl.Selected(deviceID));
         ocl.activeAllocSizes == old(ocl.activeAllocSizes)[d := Subtracted(old(ocl.activeAllocSizes[d]), old(totalOclAllocSize))])
    {
      var _ := ocl.SubtractFromActiveAllocSize(deviceID, totalOclAllocSize);
      totalOclAllocSize := 0;
      freedAll := true;
    }

    /**
     * `AddAlloc(size)`: reserve size bytes on the device.  When the device
     * counter then exceeds the budget the reservation is subtracted again,
     * `FreeAll` hands back everything the engine held and `bad_alloc` is
     * thrown; otherwise `totalOclAllocSize` grows by size.  A device below
     * -1 makes the reservation itself throw.
     */
    method AddAlloc(size: nat) returns (r: Result<()>)
      requires Valid() && size < SizeModulus
      modifies this, ocl
      ensures Valid() && waitQueue == old(waitQueue) && dispatches == old(dispatches)
      ensures ocl.defaultDeviceId == old(ocl.defaultDeviceId)
      ensures deviceID < -1 ==>
        (r.Err? && ocl.activeAllocSizes == old(ocl.activeAllocSizes)
         && totalOclAllocSize == old(totalOclAllocSize) && freedAll == old(freedAll))
      ensures deviceID >= -1 ==>
        (var d, n := old(ocl.Selected(deviceID)), old(Reserved(size));
         if n > ocl.maxActiveAllocSize then
           r.Err? && freedAll && totalOclAllocSize == 0
           && ocl.activeAllocSizes == old(ocl.activeAllocSizes)[d := Subtracted(Subtracted(n, size), old(totalOclAllocSize))]
         else
           r.Ok? && freedAll == old(freedAll) && totalOclAllocSize == Added(old(totalOclAllocSize), size)
           && ocl.activeAllocSizes == old(ocl.activeAllocSizes)[d := n])
    {
      var currentAlloc := ocl.AddToActiveAllocSize(deviceID, size);
      if currentAlloc.Err? {
        return Err(currentAlloc.error);
      }
      if currentAlloc.value > ocl.maxActiveAllocSize {
        var _ := ocl.SubtractFromActiveAllocSize(deviceID, size);
        FreeAll();
        return Err("VRAM limits exceeded in QEngineOCL::AddAlloc()");
      }
      totalOclAllocSize := Added(totalOclAllocSize, size);
      r := Ok(());
    }

    /**
     * `SubtractAlloc(size)`: release size bytes on the device (the counter
     * saturates at 0) and from `totalOclAllocSize` (a `size_t`, which wraps).
     */
    method SubtractAlloc(size: nat) returns (r: Result<()>)
      requires Valid() && size < SizeModulus
      modifies this, ocl
      ensures Valid() && waitQueue == old(waitQueue) && dispatches == old(dispatches) && freedAll == old(freedAll)
      ensures ocl.defaultDeviceId == old(ocl.defaultDeviceId)
      ensures deviceID < -1 ==>
        (r.Err? && ocl.activeAllocSizes == old(ocl.activeAllocSizes) && totalOclAllocSize == old(totalOclAllocSize))
      ensures deviceID >= -1 ==>
        (var d := old(ocl.Selected(deviceID));
         r.Ok? && ocl.activeAllocSizes == old(ocl.activeAllocSizes)[d := Subtracted(old(ocl.activeAllocSizes[d]), size)]
         && (totalOclAllocSize + size) % SizeModulus == old(totalOclAllocSize))
      ensures deviceID >= -1 && size <= old(totalOclAllocSize) ==> totalOclAllocSize == old(totalOclAllocSize) - size
    {
      var released := ocl.SubtractFromActiveAllocSize(deviceID, size);
      if released.Err? {
        return Err(released.error);
      }
      totalOclAllocSize := (totalOclAllocSize + SizeModulus - size) % SizeModulus;
      r := Ok(());
    }

    /** `isFinished()`: nothing is waiting. */
    predicate IsFinished(): (r: bool)
      reads this
      ensures r <==> waitQueue == []
    {
      |waitQueue| == 0
    }

    /**
     * `AddQueueItem(item)`: the item joins the end of the queue, and the
     * queue is started exactly when the item is the only one in it.
     */
    method AddQueueItem(item: QueueItem)
      requires Valid()
      modifies this
      ensures waitQueue == old(waitQueue) + [item] && !IsFinished()
      ensures dispatches == old(dispatches) + (if old(IsFinished()) then 1 else 0)
      ensures totalOclAllocSize == old(totalOclAllocSize) && freedAll == old(freedAll) && Valid()
    {
      var isBase := |waitQueue| == 0;
      waitQueue := waitQueue + [item];
      if isBase {
        dispatches := dispatches + 1;
      }
    }

    /** `QueueSetDoNormalize(doNorm)`. */
    method QueueSetDoNormalize(doNorm: bool)
      requires Valid()
      modifies this
      ensures waitQueue == old(waitQueue) + [SetDoNormalize(doNorm)]
      ensures dispatches == old(dispatches) + (if old(IsFinished()) then 1 else 0)
      ensures totalOclAllocSize == old(totalOclAllocSize) && freedAll == old(freedAll) && Valid()
    {
      AddQueueItem(SetDoNormalize(doNorm));
    }

    /** `QueueSetRunningNorm(runningNrm)`. */
    method QueueSetRunningNorm(runningNorm: real)
      requires Valid()
      modifies this
      ensures waitQueue == old(waitQueue) + [SetRunningNorm(runningNorm)]
      ensures dispatches == old(dispatches) + (if old(IsFinished()) then 1 else 0)
      ensures totalOclAllocSize == old(totalOclAllocSize) && freedAll == old(freedAll) && Valid()
    {
      AddQueueItem(SetRunningNorm(runningNorm));
    }

    /** `QueueCall(api_call, workItemCount, localGroupSize, args, localBuffSize, deallocSize)`, without the buffers. */
    method QueueCall(api: nat, workItemCount: nat, localGroupSize: nat, localBuffSize: nat, deallocSize: nat)
      requires Valid()
      modifies this
      ensures waitQueue == old(waitQueue) + [Call(api, workItemCount, localGroupSize, deallocSize, localBuffSize)]
      ensures dispatches == old(dispatches) + (if old(IsFinished()) then 1 else 0)
      ensures totalOclAllocSize == old(totalOclAllocSize) && freedAll == old(freedAll) && Valid()
    {
      AddQueueItem(Call(api, workItemCount, localGroupSize, deallocSize, localBuffSize));
    }
  }

  // ---------------------------------------------------------------------
  // Mask dispatch.

  /** What `XMask` or `PhaseParity` runs for a mask. */
  datatype MaskGate =
    | NoGate
    | XGate(target: nat)
    | PhaseGate(target: nat, radians: real)
    | MaskKernel(mask: nat)

  /**
   * `XMask(mask)`: nothing for an empty mask, `X` on the one qubit of a
   * single-bit mask (`!(mask & (mask - 1))`), the mask kernel otherwise.
   */
  function XMask(mask: nat): (g: MaskGate)
    ensures mask == 0 <==> g == NoGate
    ensures g.XGate? <==> IsPow2(mask)
    ensures g.XGate? ==> Pow2(g.target) == mask
    ensures g.MaskKernel? ==> g.mask == mask
    ensures !g.PhaseGate?
  {
    if mask == 0 then NoGate
    else
      SingleBitTest(mask);
      if And(mask, mask - 1) == 0 then
        Pow2OfLog2(mask);
        XGate(Log2(mask))
      else MaskKernel(mask)
  }

  /**
   * `PhaseParity(radians, mask)`: nothing for an empty mask, the one-qubit
   * `Phase(e^(-i radians/2), e^(i radians/2))` on the qubit of a single-bit
   * mask, the parity kernel otherwise.
   */
  function PhaseParity(radians: real, mask: nat): (g: MaskGate)
    ensures mask == 0 <==> g == NoGate
    ensures g.PhaseGate? <==> IsPow2(mask)
    ensures g.PhaseGate? ==> Pow2(g.target) == mask && g.radians == radians
    ensures g.MaskKernel? ==> g.mask == mask
    ensures !g.XGate?
  {
    if mask == 0 then NoGate
    else
      SingleBitTest(mask);
      if And(mask, mask - 1) == 0 then
        Pow2OfLog2(mask);
        PhaseGate(Log2(mask), radians)
      else MaskKernel(mask)
  }

  /** Whether running g flips qubit i of every basis state. */
  predicate Flips(g: MaskGate, i: nat)
  {
    match g
    case NoGate => false
    case XGate(t) => i == t
    case PhaseGate(_, _) => false
    case MaskKernel(m) => TestBit(m, i)
  }

  /** Whatever path it takes, `XMask(mask)` flips exactly the qubits whose bits are set in mask. */
  lemma XMaskFlipsMask(mask: nat, i: nat)
    ensures Flips(XMask(mask), i) <==> TestBit(mask, i)
  {
    var g := XMask(mask);
    if mask == 0 {
      ZeroHasNoBits(i);
    } else if g.XGate? {
      TestBitPow2(g.target, i);
    }
  }

  /** An odd number of bits set. */
  predicate OddBits(x: nat)
  {
    if x == 0 then false else (x % 2 == 1) != OddBits(x / 2)
  }

  /**
   * The sign of the half-angle phase g gives basis state perm: +1 for
   * `e^(i radians/2)`, -1 for `e^(-i radians/2)`, 0 for no phase.  The
   * kernel gives +1 to odd parity of the masked bits.
   */
  function PhaseSign(g: MaskGate, perm: nat): (s: int)
    ensures -1 <= s <= 1
  {
    match g
    case NoGate => 0
    case XGate(_) => 0
    case PhaseGate(t, _) => if TestBit(perm, t) then 1 else -1
    case MaskKernel(m) => if OddBits(And(perm, m)) then 1 else -1
  }

  /**
   * For a non-empty mask, the one-qubit shortcut gives every basis state
   * the phase the parity kernel would: odd parity of perm's masked bits
   * gets `e^(i radians/2)`, even parity `e^(-i radians/2)`.
   */
  lemma PhaseParityMatchesKernel(radians: real, mask: nat, perm: nat)
    requires mask != 0
    ensures PhaseSign(PhaseParity(radians, mask), perm) == PhaseSign(MaskKernel(mask), perm)
  {
    var g := PhaseParity(radians, mask);
    if g.PhaseGate? {
      AndPow2(perm, g.target);
      OddBitsPow2(g.target);
    }
  }

  lemma {:induction false} AndPow2(x: nat, t: nat)
    ensures And(x, Pow2(t)) == if TestBit(x, t) then Pow2(t) else 0
  {
    if x == 0 {
      ZeroHasNoBits(t);
    } else if t > 0 {
      assert Pow2(t) / 2 == Pow2(t - 1) && Pow2(t) % 2 == 0;
      AndPow2(x / 2, t - 1);
    }
  }

  lemma {:induction false} OddBitsPow2(t: nat)
    ensures OddBits(Pow2(t)) && !OddBits(0)
  {
    if t > 0 {
      assert Pow2(t) / 2 == Pow2(t - 1) && Pow2(t) % 2 == 0;
      OddBitsPow2(t - 1);
    }
  }
}
