# Qrack core: the QUnit shard map, QHybrid, OpenCL bookkeeping and QBdt nodes

This project models five pieces of the Qrack quantum simulator and proves
properties of them.

- **QUnit** (`src/qunit.cpp`) keeps one *shard* per logical qubit. A shard
  either names the backing simulator unit that holds the qubit and the qubit's
  slot (`mapped`) in that unit, or caches the state of a separable qubit. The
  model keeps the shard map and the qubit count of every unit. Its central
  invariant (`Shards.WellFormed`) says that the shards of a unit occupy
  exactly the slots `0 .. count-1` of that unit, once each. Every operation
  that rearranges the map is proved to keep that invariant and to do what the
  source does to the map. These operations are composing, detaching,
  decomposing, disposing, entangling in the current basis, ordering a unit
  contiguously, separating a qubit, cloning and swapping. The classical fast
  paths that read cached Z eigenstates are modelled too: INT, INCC and DECC,
  INTSCOptimize, MUL and DIV, the modular multiplication and power,
  PhaseParity and ForceMParity, GetCachedPermutation and
  GetIndexedEigenstate. So is the multi-shot histogram combination of
  MultiShotMeasureMask.
- **QHybrid** (`include/qhybrid.hpp`) holds a CPU or an OpenCL engine. It
  switches kind whenever the qubit count crosses `thresholdQubits`.
- **OCLEngine** (`include/common/oclengine.hpp`) keeps per-device
  allocation counters in `size_t`, so they wrap modulo 2^64. It also picks a
  preferred concurrency for each device.
- **QEngineOCL** (`include/qengine_opencl.hpp`) charges its allocations to
  those counters and queues kernel calls. Its `XMask` and `PhaseParity`
  choose between a one-qubit gate and a mask kernel.
- **QBdtNodeInterface** (`src/qbdt/node_interface.cpp`) covers the
  binary-decision-tree nodes. The model includes approximate node equality,
  negation, `RemoveSeparableAtDepth` and the `_par_for_qbdt` walk.

Backing engines, random draws and floating-point tests that the model cannot
compute are handed in as parameters. Each one is named under "Left out".
Amplitudes are exact reals and integers are unbounded. The `size_t`
counters of OCLEngine and QEngineOCL wrap modulo 2^64 as written out. The
`bitCapInt` arithmetic of QUnit's fast paths is exact: its wrap at the
bitCapInt width is not modelled, and each member it affects is named under
"Left out".

## Model

Paths are relative to the repository root.

| member | source | states |
|---|---|---|
| QUnitMap.QUnit.constructor | src/qunit.cpp:65-91 | a register of qBitCount qubits whose shard i caches the classical bit i of initState, with the map invariant holding |
| QUnitMap.QUnit.MakeEngine | src/qunit.cpp:92-97 | hands out a fresh unit handle of the given size, leaves the shards alone and keeps the invariant |
| QUnitMap.QUnit.SetPermutation | src/qunit.cpp:99-109 | every shard becomes the separable classical bit i of perm; unit sizes unchanged; invariant kept |
| QUnitMap.QUnit.Swap | src/qunit.cpp:1703-1711 | exchanges the two logical qubits' shards and nothing else; invariant kept |
| Shards.SwapKeeps | src/qunit.cpp:1703-1711 | exchanging two shards keeps the map well formed |
| QUnitMap.QUnit.OrderContiguous | src/qunit.cpp:826-849 | only the slots of the unit's shards change, and afterwards they rise with the logical qubit index; the map stays well formed; no unit leaves the map unchanged |
| QUnitMap.QUnit.SortUnit | src/qunit.cpp:852-889 | the sort keys of keys[low..high] end sorted and are a permutation of the old keys; every exchange is mirrored in the shard map |
| QUnitMap.QUnit.Partition | src/qunit.cpp:863-882 | the keys of low..high are permuted and end with low <= j < i <= high, partitioned around the pivot; every exchange is mirrored in the unit's slots and nothing else changes |
| QUnitMap.SortedInOrder | src/qunit.cpp:836-848 | sorted keys that mirror a unit's qubits in logical order put the unit's slots in logical order |
| QUnitMap.CloneInto | src/qunit.cpp:3689-3708 | the clone loop copies every shard onto one fresh clone per distinct unit; shards that shared a unit share its clone |
| QUnitMap.QUnit.CloneBody | src/qunit.cpp:3689-3708 | copy's shard i equals shard i except for its unit; two copied shards share a unit iff the originals did; each clone is fresh with the original's size; copy is well formed |
| QUnitMap.QUnit.Compose | src/qunit.cpp:259-275 | returns start; the count grows by toCopy's count; shards before start and after the insert are the old ones; the inserted block is toCopy's shards on fresh clones, unit sharing preserved |
| Shards.InsertKeeps | src/qunit.cpp:270 | inserting a well-formed block whose units are disjoint from the register's keeps the map well formed |
| QUnitMap.QUnit.Detach | src/qunit.cpp:277-387 | the qubits start..start+length-1 leave; the rest is Rest of the ordered map with RestCounts; with a destination, it is DestOf with rebased slots and is well formed (corrected form, see Findings A and B) |
| QUnitMap.QUnit.CountSubunits | src/qunit.cpp:285-293 | returns how many detached qubits each unit holds; with a destination, the destination starts as the detached shards awaiting their new units |
| QUnitMap.QUnit.OrderUnits | src/qunit.cpp:297-301 | each affected unit is put in order, and only slots of those units change |
| QUnitMap.QUnit.Walk | src/qunit.cpp:307-374 | the middle pass keeps the walk invariant from the first detached shard to the last |
| QUnitMap.QUnit.FindSlot | src/qunit.cpp:347-364 | the first shard of the unit at the slot, or the map's length when there is none |
| QUnitMap.QUnit.ShiftRest | src/qunit.cpp:376-383 | every shard of an affected unit above its block moves down by the block's length; others unchanged |
| Detaching.RestKeeps | src/qunit.cpp:376-386 | what is left after Detach is well formed under the reduced unit sizes |
| Detaching.DestKeeps | src/qunit.cpp:315-373 | the destination map Detach builds is well formed under the new units' sizes |
| DetachFindings.DestAsWritten | src/qunit.cpp:315-373 | the destination as written: one shard per detached qubit, each keeping its slot in the old unit unless it is released (Finding A) |
| DetachFindings.ThrAsWritten | src/qunit.cpp:328-379 | the per-unit lower end as written: it covers the detached units and differs from the recorded lower end only with a destination, where it reads 0 (Finding B) |
| DetachFindings.FreedAsWritten | src/qunit.cpp:339-364 | the kept qubit's release as written: a shard is either kept or released, and only when its unit loses all of its other qubits |
| DetachFindings.RestAsWritten | src/qunit.cpp:339-386 | the shards left as written: one fewer per detached qubit, each keeping its unit unless released |
| DetachFindings.DestAsWrittenOutOfRange | src/qunit.cpp:371-373 | Decompose(1, 2) of one three-qubit unit gives a destination slot outside the new two-qubit unit; the rebased DestOf stays in range |
| DetachFindings.RestAsWrittenCollides | src/qunit.cpp:328-380 | Decompose(2, 1) of one three-qubit unit leaves two qubits on one slot; Rest keeps them apart |
| QUnitMap.QUnit.Decompose | src/qunit.cpp:389-400 | the register loses length qubits and a well-formed destination of length shards is returned: Rest and DestOf of a slot-only reordering of the map |
| QUnitMap.QUnit.Dispose | src/qunit.cpp:402-405 | the register loses length qubits; what is left is Rest of a slot-only reordering of the map |
| QUnitMap.QUnit.EndEmulation | src/qunit.cpp:411 | a separable qubit gets a fresh one-qubit unit at slot 0; a qubit that already has a unit changes nothing |
| QUnitMap.QUnit.EntangleInCurrentBasis | src/qunit.cpp:407-474 | every listed qubit ends in unit1 and mappedBits are their slots; every shard of a listed qubit's unit moves whole into unit1 at its old slot plus that unit's shift (0 for unit1); other shards untouched; only unit and slot change |
| QUnitMap.CollectUnits | src/qunit.cpp:414-426 | the distinct units of the listed qubits, in first-seen order |
| QUnitMap.QUnit.MergeAll | src/qunit.cpp:429-466 | the collapse loop moves every shard of every listed unit into the first unit, at its old slot plus one offset per unit (0 for the first); other shards untouched; the map stays well formed |
| QUnitMap.QUnit.OddStep | src/qunit.cpp:431-442 | an odd unit count: units[1] is merged into units[0], leaving [units[0]] + units[2..]; every shard of units[1] lands in units[0] at its old slot plus one offset; shards of other units are untouched |
| QUnitMap.QUnit.PairRound | src/qunit.cpp:444-465 | one pairing round: units[2k+1] is merged into units[2k], leaving the even-indexed units; every shard of a listed unit lands in its partner at its old slot plus one offset per unit; other shards untouched |
| Shards.RelabelKeeps | src/qunit.cpp:456-463 | the relabelling pass keeps the map well formed under the merged unit sizes |
| QUnitMap.RelabelLands | src/qunit.cpp:456-463 | a relabelling pass lands each consumed unit whole in its partner at its slot plus the offset |
| QUnitMap.LandsTrans | src/qunit.cpp:429-466 | two rounds in a row compose: each unit lands in the unit the second round gave its first-round partner, the offsets adding up |
| QUnitMap.QUnit.ProbBase | src/qunit.cpp:950-981 | a qubit alone in a one-qubit unit is released as separable; any other qubit is left alone (see Left out) |
| QUnitMap.QUnit.SeparateBit | src/qunit.cpp:1313-1366 | the qubit becomes the classical value; its unit loses the slot, higher slots move down, and a last partner is released; a refusing Clifford unit changes nothing |
| QUnitMap.QUnit.TrySeparateClifford | src/qunit.cpp:594-617 | succeeds iff the qubit has a unit that agrees to separate; then the qubit is released, its unit shrinks by one with the gap closed, and a one-qubit unit is made |
| QUnitMap.QUnit.TrySeparate | src/qunit.cpp:619-663 | the one-qubit case: true for a unit-less qubit or one alone in its unit; false when blocked; otherwise the outcome is the unit's TryDecompose verdict, with the effect on the map for each case |
| QUnitMap.QUnit.DecomposeOne | src/qunit.cpp:603-612 | moves the qubit into a one-qubit unit, closes the gap in its old unit and shrinks that unit by one |
| Shards.RemoveSlotKeeps | src/qunit.cpp:1346-1351 | dropping a shard from its unit and closing the gap keeps the map well formed |
| QUnitMap.QUnit.ParallelUnitApply | src/qunit.cpp:3540-3554 | true iff fn holds for every distinct unit; on failure it stops at the first failing unit, after applying fn to the units before it |
| QUnitMap.QUnit.IsFinished | src/qunit.cpp:3584-3588 | true iff every unit in use has finished |
| QUnitMap.UnitListSpec | src/qunit.cpp:3543-3547 | the distinct units in first-seen order name every referenced unit exactly once |
| CachedBits.Read | src/qunit.cpp:39-47 | a shard reads as a known bit iff it is a cached zero or one (clean, Z basis, one norm negligible), and then as its own state; it reads as plus iff it is CACHED_PLUS (clean, no dirty phase, X basis, the |1> norm negligible); anything else is unknown |
| CachedBits.ReadAgrees | src/qunit.cpp:33-47 | for a normalised shard and a threshold below 1/2, a cached zero reads 0 and a cached one reads 1 |
| CachedBits.CheckBitsPermutation | src/qunit.cpp:893-907 | true iff every qubit of the range reads as a cached zero or one |
| CachedBits.GetCachedPermutation | src/qunit.cpp:910-919 | the integer whose bit i is the state of qubit start+i, below 2^length |
| CachedBits.GetCachedPermutationOf | src/qunit.cpp:921-930 | the same for qubits listed one by one |
| CachedBits.ValueOfKnown | src/qunit.cpp:1693-1701 | writing v into n known bits and reading them back gives v mod 2^n |
| CachedBits.KnownOfValue | src/qunit.cpp:1693-1701 | a known register is what writing its own value produces |
| QUnitInt.Int | src/qunit.cpp:2745-2916 | with no controls: the register ends holding x0 plus toMod mod 2^length; with a carry qubit it ends holding the carry out; an all-plus register with no carry is left alone |
| QUnitInt.AddPart | src/qunit.cpp:2815-2876 | the search above an unreadable qubit closes a part whose top bit is the carry out, keeping the ripple invariant |
| QUnitInt.AddRest | src/qunit.cpp:2878-2915 | after the ripple, the remaining add and its carry complete the sum |
| QUnitInt.IncCAsWritten | src/qunit.cpp:2921-2930 | as written: the register gains (toAdd + carry) mod 2^length, and the carry out is taken from that masked addend (Finding E) |
| QUnitInt.IncC | src/qunit.cpp:2921-2930 | corrected: the register gains toAdd + carry in, and the carry qubit holds the carry out of that sum |
| QUnitInt.DecCAsWritten | src/qunit.cpp:2932-2942 | as written: DECC through INT on the masked complement, which can lose the no-borrow carry (Finding E) |
| QUnitInt.DecC | src/qunit.cpp:2932-2942 | corrected: the register loses toSub and the borrow, and the carry qubit is set iff nothing was borrowed |
| QUnitInt.CarryLost | src/qunit.cpp:2749-2751 | the worked example of Finding E: as written the carry comes out clear where it must be set |
| QUnitAlu.IntscOptimize | src/qunit.cpp:2700-2743 | defined iff the register is known; the written value is (v ± k) mod 2^n with the carry folded in; the carry qubit flips iff the carry out differs from the carry in (see Left out) |
| QUnitAlu.AddThenSubtract | src/qunit.cpp:2700-2743 | adding and then subtracting the same amount with no carry gives the register back |
| QUnitAlu.Mul | src/qunit.cpp:3026-3052 | fast iff toMul <= 1 or the register is known; the low and high halves are the product mod 2^2n; 0 clears both and 1 clears only the carry |
| QUnitAlu.Div | src/qunit.cpp:3054-3079 | fast iff toDiv = 1 or both registers are known; writes the quotient's halves only when the 2n-bit value is an exact multiple |
| QUnitAlu.MulThenDiv | src/qunit.cpp:3026-3079 | MUL then DIV by the same factor restores a known register and clears the carry register |
| QUnitModN.MulModNOutAsWritten | src/qunit.cpp:3081-3143 | as written: the controlled-add path is guarded by modN being a power of two (Finding C) |
| QUnitModN.MulModNOut | src/qunit.cpp:3081-3153 | corrected: the controlled-add path needs modN to be a power of two of at least 2^length |
| QUnitModN.MulModNOutAgrees | src/qunit.cpp:3081-3143 | on every basis state each path leaves the output the engine's MULModNOut or IMULModNOut would |
| QUnitModN.ControlledAddLoop | src/qunit.cpp:3122-3137 | the controlled adds add the input's value times toMod, mod 2^n |
| QUnitModN.MulModNOutRoundTrip | src/qunit.cpp:3145-3153 | MULModNOut then IMULModNOut returns a cleared output to zero when the residues fit |
| QUnitModN.MulModNOutAsWrittenDiffers | src/qunit.cpp:3106-3128 | the counterexample of Finding C: modN = 2 on a two-qubit input holding 3 |
| QUnitModN.IsFullyEntangled | src/qunit.cpp:3092-3099 | true iff every input shard has the first shard's unit |
| QUnitModN.PowModNOutAsWritten | src/qunit.cpp:3155-3176 | as written: base 1 writes 1 whatever modN is (Finding D) |
| QUnitModN.PowModNOut | src/qunit.cpp:3155-3176 | corrected: base 1 writes 1 mod modN |
| QUnitModN.PowModNOutAgrees | src/qunit.cpp:3155-3176 | on every basis state each path leaves base^x mod modN, as the engine would |
| QUnitModN.PowModNOutAsWrittenDiffers | src/qunit.cpp:3157-3159 | the counterexample of Finding D: base 1, modN 1 writes 1 where 0 is due |
| QUnitParity.MaskIndices | src/qunit.cpp:1039-1045 | the set-bit walk lists exactly the mask's set bits, each once, in increasing order |
| QUnitParity.Classify | src/qunit.cpp:1047-1062 | the flip is toggled once per cached one; the uncached qubits are kept in order |
| QUnitParity.CachedParity | src/qunit.cpp:1047-1062 | for normalised cached qubits the flip is the parity of their states and none is left |
| QUnitParity.ForceMParity | src/qunit.cpp:1152-1211 | an empty mask reads false; a one-bit mask measures its qubit; otherwise cached zeros drop out, cached ones flip the answer and the rest is measured |
| QUnitParity.ForceMParityCached | src/qunit.cpp:1152-1211 | when every masked qubit is cached, nothing is measured and the answer is the parity of their states |
| QUnitParity.PhaseParityAsWritten | src/qunit.cpp:1025-1096 | as written: with one uncached qubit left, the phase goes to log2(mask) |
| QUnitParity.PhaseParity | src/qunit.cpp:1025-1096 | corrected: a phase lands only on a masked qubit that is the mask's only qubit or is uncached, and a lone uncached qubit takes it |
| QUnitParity.PhaseParityAsWrittenMisses | src/qunit.cpp:1073-1079 | the counterexample: mask 3, qubit 1 a cached zero, qubit 0 uncached, and the phase goes to qubit 1 |
| QUnitControls.LocalControlsAsWritten | src/qunit.cpp:2859 | as written: local control k is the slot of logical qubit k (Finding F) |
| QUnitControls.LocalControls | src/qunit.cpp:2859 | corrected: local control k is the slot of control k |
| QUnitControls.LocalControlsAvoidTarget | src/qunit.cpp:2850-2862 | in a well-formed map with no control in the target range, the corrected local controls are distinct slots outside the target's slots |
| QUnitControls.LocalControlsAsWrittenHitsTarget | src/qunit.cpp:2909 | the counterexample: as written, the one local control is a slot of the target |
| QUnitIndexed.GetIndexedEigenstate | src/qunit.cpp:3358-3369 | the table entry at the index the register holds, read little-endian |
| QUnitIndexed.ReadEntry | src/qunit.cpp:3363-3366 | the byte loop returns the little-endian value of the entry |
| QUnitIndexed.ToBytesOfLittleEndian | src/qunit.cpp:3363-3366 | writing an entry's value back as bytes gives the entry |
| QUnitIndexed.LittleEndianOfToBytes | src/qunit.cpp:3363-3366 | reading back the bytes of a number gives its low 8n bits |
| QUnitMultiShot.RemapResults | src/qunit.cpp:1542-1550 | each unit key maps to its spread key with the same count; keys stay distinct and the total is kept |
| QUnitMultiShot.SpreadInjective | src/qunit.cpp:1543-1548 | distinct unit keys spread to distinct keys |
| QUnitMultiShot.OrKeys | src/qunit.cpp:1572-1578 | ORing a key with bits elsewhere onto every entry keeps counts, totals and key distinctness |
| QUnitMultiShot.WalkAsWritten | src/qunit.cpp:1592-1597 | as written: the walk stops at the first entry whose running total reaches the draw (Walk finding) |
| QUnitMultiShot.Walk | src/qunit.cpp:1592-1597 | corrected: the entry reached is the one whose run of shots contains the draw, and it has a shot left |
| QUnitMultiShot.WalkBias | src/qunit.cpp:1594 | the counterexample: two one-shot entries, draw 1; as written the first entry is reached |
| QUnitMultiShot.Pair | src/qunit.cpp:1583-1607 | the shots take large's keys in order and draw every shot of small once; the result is the histogram of the joined keys |
| QUnitMultiShot.PairEntry | src/qunit.cpp:1585-1605 | the shots of one entry keep the pairing invariant |
| QUnitMultiShot.PairMarginals | src/qunit.cpp:1583-1607 | the pairing's two marginals are the two maps' counts |
| QUnitMultiShot.Combine | src/qunit.cpp:1554-1607 | an all-zero map leaves the other unchanged; the total is shots; keys are distinct and lie within both groups' bits |
| QUnitMultiShot.SingleBit | src/qunit.cpp:1610-1637 | probability 0 changes nothing; probability 1 sets the bit in every key; otherwise each shot keeps its key or gains the bit as its coin says |
| QUnitMultiShot.MultiShotMeasureMask | src/qunit.cpp:1500-1640 | no shots gives an empty map; otherwise the map records exactly shots shots, each key once, with bits only at listed positions |
| QUnitMultiShot.FillShots | src/qunit.cpp:1678-1689 | the array holds every shot's key, entry by entry, truncated to unsigned; cells past shots are untouched |
| QUnitMultiShot.HistOfFacts | src/qunit.cpp:1599 | counting a list of keys gives a map with each key once and one shot per listed key |
| Hybrid.QHybrid.constructor | include/qhybrid.hpp:29-51 | wraps an engine; the mode is the engine's kind |
| Hybrid.QHybrid.MakeEngine | include/qhybrid.hpp:53 | a fresh engine of the requested kind for the current qubit count |
| Hybrid.QHybrid.SwitchModes | include/qhybrid.hpp:68-83 | the mode becomes useGpu; only on a change is a fresh engine of the other kind made holding the same amplitudes; otherwise the engine is kept |
| Hybrid.QHybrid.SetQubitCount | include/qhybrid.hpp:40-44 | the mode becomes (qb >= thresholdQubits) and the count qb; amplitudes are kept |
| Hybrid.QHybrid.CopyStateVec | include/qhybrid.hpp:91-96 | switches to src's mode, then takes src's amplitudes; src unchanged |
| Hybrid.QHybrid.Compose | include/qhybrid.hpp:134-148 | the count is the sum; both sides are in the mode the new count calls for; toCopy keeps its count and amplitudes; returns start |
| Hybrid.QHybrid.ComposeAtEnd | include/qhybrid.hpp:134-138 | Compose at the old qubit count |
| Hybrid.QHybrid.Decompose | include/qhybrid.hpp:153-168 | the count drops by dest's; dest is switched to the new mode before receiving its part |
| Hybrid.QHybrid.Dispose | include/qhybrid.hpp:169-180 | the count drops by length and the mode follows the new count |
| Hybrid.QHybrid.TryDecompose | include/qhybrid.hpp:182-194 | on success the count drops by dest's; on failure count and state are intact and the mode is put back; dest keeps the mode it was switched to |
| Hybrid.QHybrid.SumSqrDiff | include/qhybrid.hpp:414-422 | switches the other object to this one's mode without changing its count or amplitudes |
| OclEngine.Added | include/common/oclengine.hpp:360-375 | the size_t sum: below 2^64, and exact when there is no wrap |
| OclEngine.Subtracted | include/common/oclengine.hpp:376-394 | the saturating difference: 0 iff size >= counter, otherwise counter - size |
| OclEngine.SubtractUndoesAdd | include/common/oclengine.hpp:360-394 | subtracting what was added restores the counter when the add did not wrap |
| OclEngine.AddWraps | include/common/oclengine.hpp:360-375 | an add past 2^64 leaves a counter smaller than before |
| OclEngine.OCLEngine.constructor | include/common/oclengine.hpp:411-412 | every device counter starts at 0 |
| OclEngine.OCLEngine.GetActiveAllocSize | include/common/oclengine.hpp:356-359 | -1 reads the default device's counter, others their own, always below 2^64 |
| OclEngine.OCLEngine.AddToActiveAllocSize | include/common/oclengine.hpp:360-375 | a device below -1 is an error; otherwise the selected counter becomes Added; size 0 is a no-op |
| OclEngine.OCLEngine.SubtractFromActiveAllocSize | include/common/oclengine.hpp:376-394 | a device below -1 is an error; otherwise the selected counter becomes Subtracted |
| OclEngine.OCLEngine.ResetActiveAllocSize | include/common/oclengine.hpp:395-401 | the selected counter becomes 0; the others are unchanged |
| OclEngine.RoundUpPow2 | include/common/oclengine.hpp:263-265 | the doubling loop returns the least power of two at or above pc |
| OclEngine.CeilLog2 | include/common/oclengine.hpp:263-265 | pc <= 2^k, with 2^(k-1) < pc when k > 0 |
| OclEngine.ShiftAsWritten | include/common/oclengine.hpp:266-267 | as written: defined only for shift counts 0..63 (Finding H) |
| OclEngine.Shift | include/common/oclengine.hpp:266-267 | corrected: agrees with the as-written shift where that is defined; a negative offset shifts right |
| OclEngine.ShiftRight | include/common/oclengine.hpp:266-267 | a negative offset divides by 2^-offset |
| OclEngine.ShiftAsWrittenNegative | include/common/oclengine.hpp:266-267 | the counterexample: offset -1 on 8 is undefined as written and gives 4 corrected |
| OclEngine.Concurrency | include/common/oclengine.hpp:266-270 | the preferred concurrency is at least 1 |
| OclEngine.DefaultConcurrency | include/common/oclengine.hpp:263-270 | with offset 2 it is four times the rounded-up power of two, so at least 4 * pc |
| OclEngine.DeviceContext.GetPreferredSizeMultiple | include/common/oclengine.hpp:239-246 | the first query is cached and later calls return the cached value |
| OclEngine.DeviceContext.GetPreferredConcurrency | include/common/oclengine.hpp:248-273 | a cached value is returned and nothing changes; otherwise Concurrency of procElemCount times the size multiple (a size_t product) is computed and cached, along with the multiple; the result is at least 1 |
| QEngineOcl.QEngineOCL.constructor | include/qengine_opencl.hpp:176-203 | nothing allocated, empty queue, nothing dispatched |
| QEngineOcl.QEngineOCL.FreeAll | include/qengine_opencl.hpp:259 | the buffers are freed, the engine total drops to 0 and is handed back to the device counter, saturating at 0 |
| QEngineOcl.QEngineOCL.AddAlloc | include/qengine_opencl.hpp:430-439 | an invalid device is an error and changes nothing; past the device limit the reservation is subtracted back, FreeAll then hands back the engine total (which becomes 0) and an error is returned; otherwise the device counter and the engine total both grow by size, modulo 2^64 |
| QEngineOcl.QEngineOCL.SubtractAlloc | include/qengine_opencl.hpp:440-444 | the device counter saturates at 0, and the engine total falls by size mod 2^64 (exactly when it does not wrap) |
| QEngineOcl.QEngineOCL.AddQueueItem | include/qengine_opencl.hpp:273-286 | appends the item; the engine is then unfinished; a dispatch starts iff the queue was empty |
| QEngineOcl.QEngineOCL.IsFinished | include/qengine_opencl.hpp:422 | true iff no queue item is waiting; AddQueueItem leaves it false |
| QEngineOcl.QEngineOCL.QueueSetDoNormalize | include/qengine_opencl.hpp:271 | queues a normalisation flag as AddQueueItem does |
| QEngineOcl.QEngineOCL.QueueSetRunningNorm | include/qengine_opencl.hpp:272 | queues a running norm as AddQueueItem does |
| QEngineOcl.QEngineOCL.QueueCall | include/qengine_opencl.hpp:287-291 | queues a kernel call with its sizes as AddQueueItem does |
| QEngineOcl.XMask | include/qengine_opencl.hpp:312-324 | no gate iff mask = 0; an X gate on qubit t iff mask = 2^t; otherwise the mask kernel |
| QEngineOcl.XMaskFlipsMask | include/qengine_opencl.hpp:312-324 | XMask flips qubit i iff bit i of the mask is set |
| QEngineOcl.PhaseParity | include/qengine_opencl.hpp:325-338 | no gate iff mask = 0; a phase gate on qubit t iff mask = 2^t; otherwise the mask kernel |
| QEngineOcl.PhaseParityMatchesKernel | include/qengine_opencl.hpp:325-338 | the one-qubit shortcut applies the same sign to every basis state as the mask kernel |
| QBdtNodes.PtrEqual | src/qbdt/node_interface.cpp:23-34 | == never changes lhs's nullness or scale, and answers true only when lhs and rhs are both null or both non-null |
| QBdtNodes.IsEqual | src/qbdt/node_interface.cpp:46-73 | isEqual never changes the node's scale; a true answer needs a non-null r with the same amplitude, and leaves the node with r's branches |
| QBdtNodes.IsEqualUnder | src/qbdt/node_interface.cpp:75-98 | isEqualUnder never changes the node's scale; a true answer needs a non-null r and leaves the node with r's branches |
| QBdtNodes.PtrNotEqual | src/qbdt/node_interface.cpp:36 | != is the negation of approximate equality |
| QBdtNodes.PtrEqualMeansApprox | src/qbdt/node_interface.cpp:23-34 | == is true iff the trees are approximately equal; when true, lhs's node takes rhs's branches under lhs's own scale |
| QBdtNodes.IsEqualMeansApprox | src/qbdt/node_interface.cpp:46-73 | isEqual is true iff node and r are approximately equal |
| QBdtNodes.IsEqualReflexive | src/qbdt/node_interface.cpp:52-53 | a node compared with itself is equal and unchanged |
| QBdtNodes.PtrEqualKeepsVerdict | src/qbdt/node_interface.cpp:60-70 | the branch sharing a comparison does leaves a tree approximately equal to what it was |
| QBdtNodes.IsEqualImpliesUnder | src/qbdt/node_interface.cpp:75-98 | isEqual implies isEqualUnder |
| QBdtNodes.IsEqualUnderMeansBranchesApprox | src/qbdt/node_interface.cpp:75-98 | isEqualUnder is true iff both branches are approximately equal, whatever the scales |
| QBdtNodes.Negate | src/qbdt/node_interface.cpp:38-44 | a node with the same branches and the negated scale |
| QBdtNodes.NegateTwice | src/qbdt/node_interface.cpp:38-44 | negating twice gives the node back |
| QBdtNodes.Remove | src/qbdt/node_interface.cpp:109-151 | a negligible scale gives null and leaves the node alone; the node's scale is never changed; any pointer returned is a clone of magnitude 1; at the target depth a defined call returns a clone |
| QBdtNodes.UnitClone | src/qbdt/node_interface.cpp:135-136 | dividing a non-negligible scale by its magnitude gives magnitude 1 |
| QBdtNodes.RemoveLeaf | src/qbdt/node_interface.cpp:135-142 | at the target depth with size 0, the clone keeps the branches with its scale divided by its magnitude, and the node becomes a leaf |
| QBdtNodes.RemoveDefinedWhenComplete | src/qbdt/node_interface.cpp:117-133 | with size 0, no null is dereferenced when every path reaches the target depth |
| QBdtNodes.RemoveNullSecondBranch | src/qbdt/node_interface.cpp:124-129 | a non-null first branch that returns null over a null second branch is a null dereference |
| QBdtNodes.ParForQbdt | src/qbdt/node_interface.cpp:100-107 | the visited indices start at begin, each next one is (j OR fn(j)) + 1 after j, all lie below end, and the walk stops at the first step reaching end; nothing is visited when begin >= end |
| QBdtNodes.ParForVisitsAll | src/qbdt/node_interface.cpp:100-107 | when fn never skips, every index from begin to end is visited once, in order |
| QBdtNodes.WalkUnique | src/qbdt/node_interface.cpp:100-107 | the visited sequence is determined by begin, end and fn |

## Left out

- Shards.Released: the amplitudes read back from a released unit (qunit.cpp:328-338, 352-361, 951-978) are not modelled. The shard keeps its old cached norms and basis, and its dirty flags are cleared.
- QUnitMap.QUnit.ProbBase: only the one-qubit-unit branch is modelled. The switch to the X or Y basis at 955-971 is left out. So is the dirty-probability branch (984-1001), which needs the unit's probability.
- CachedBits.Read: trusts a clean `isProbDirty` flag. QUEUED_PHASE (qunit.cpp:36-39), part of CACHED_PLUS at 44, is dropped because buffered two-qubit phase gates are not modelled.
- CachedBits.CheckBitsPermutation: the ToPermBasisProb flush at 898 is left out. A shard in the X or Y basis reads as unknown instead of being converted first.
- QUnitParity.PhaseParity: the ToPermBasisProb flush at 1044 is left out, as in CheckBitsPermutation.
- QUnitParity.ForceMParity: the same ToPermBasisProb flush (1168) is left out.
- QUnitMap.QUnit.Detach: the RevertBasis2Qb calls at 279-281 are left out, as the model has no buffered gates.
- QUnitMap.QUnit.CloneBody: the RevertBasis2Qb and Finish calls of Clone (3674-3683) are left out; only the shard copy of CloneBody is modelled.
- QUnitInt.Int: only controlLen == 0 is modelled. The controlVec path (MCInvert on controls, CINC with lControls) is covered only by QUnitControls, and the controlled-with-carry throw at 2887-2892 is left out.
- QUnitAlu.IntscOptimize: `overflows` is a parameter. The signed-overflow helpers (isOverflowAdd / isOverflowSub) are in a file that is not part of this model.
- QUnitAlu.Mul: bitCapInt is unbounded here. The 2n-bit product is exact, which matches the source only while 2n bits fit in bitCapInt.
- QUnitAlu.Div: `origRes = inOut | (carry << length)` is unbounded, with the same width assumption as Mul.
- QUnitModN.MulModNOutAsWritten: the cached product `GetCachedPermutation(inStart, length) * toMod` at 3092 is taken on unbounded integers. The source computes it in bitCapInt, which wraps once length plus the bit length of toMod exceeds the bitCapInt width, before `% modN`. It also requires modN != 0 when toMod != 0 and the input is cached, because `% modN` at 3092 would divide by zero, which C++ leaves undefined.
- QUnitModN.MulModNOut: the same unbounded product at 3092, and the same modN != 0 requirement.
- QUnitModN.MulModNOutAgrees: the agreement is with the exact product. On inputs where the source's bitCapInt product at 3092 wraps, the source's cached path does not agree, and that case is not modelled.
- QUnitModN.PowModNOutAsWritten: `intPow(toMod, x)` at 3164 is the exact power. The source computes it in bitCapInt, which wraps before `% modN`: with a 64-bit bitCapInt, base 2, modN 15 and a cached input holding 64, the source writes 0 where the model writes 1. It also requires modN != 0 when toMod != 1 and the input is cached, because `% modN` at 3164 would divide by zero.
- QUnitModN.PowModNOut: the same exact power at 3164, and the same modN != 0 requirement.
- QUnitModN.PowModNOutAgrees: the agreement is with the exact power. On inputs where the source's bitCapInt power at 3164 wraps, the source's cached path does not agree, and that case is not modelled.
- QUnitAlu.Div: requires toDiv != 0. With a zero divisor and both registers cached, `origRes / toDiv` at 3064 divides by zero, which C++ leaves undefined; the engine's own DIV is not part of this model.
- QUnitInt.IncCAsWritten: `toAdd++` is unbounded. The source's bitCapInt could wrap at its own width before the mask.
- QUnitInt.DecCAsWritten: `pow2(length) - toSub` is taken on unbounded integers and then reduced mod 2^length. The source's bitCapInt subtraction wraps at its own width instead, which gives the same residue.
- QUnitMap.QUnit.TrySeparateClifford: the Clifford unit's TrySeparate verdict is the parameter `separates`.
- QUnitMap.QUnit.TrySeparate: BLOCKED_SEPARATE and the unit's TryDecompose verdict are the parameters `blocked` and `decomposes`. The multi-qubit case (665-689) and the one- and two-qubit overloads at 692 and 770 are left out. The final partner loop (652-657) tests `shard.unit == oUnit`, which cannot hold after the qubit moved, so no partner is released; the model does the same.
- QUnitMap.QUnit.SeparateBit: `refused` stands for a Clifford unit refusing at 1319. The unit's Prob, Dispose and normalisation are engine calls and are left out.
- QUnitMultiShot.Pair: `Rand()` draws are the parameter `draws`.
- QUnitMultiShot.SingleBit: `Rand() > prob` outcomes are the parameter `coins`.
- QUnitMultiShot.MultiShotMeasureMask: what each unit reports is a parameter, and the ToPermBasisProb at 1506 is left out. Keys are modelled on an association list in insertion order, not in std::map key order, so entry order is not captured.
- Hybrid.QHybrid.Compose, Decompose, Dispose and TryDecompose: the engine's resulting amplitudes and TryDecompose's verdict are parameters.
- Hybrid.QHybrid.SumSqrDiff: the engines' own difference is the parameter `engineDiff`; only the mode switch of the other object is modelled.
- Hybrid.QHybrid: SetAmplitudePage and ShuffleBuffers (qhybrid.hpp:106-122) and every forwarding-only gate are left out. They only forward to the engine.
- OclEngine.DeviceContext.GetPreferredConcurrency: requires procElemCount times the size multiple to be at most 2^63, so the doubling loop's size_t cannot wrap.
- OclEngine.RoundUpPow2: requires pc <= 2^63 for the same reason. Above that the source's loop would wrap to 0 and never end.
- OclEngine.Shift: a left shift by 64 or more is undefined in C++. The corrected form takes it as the product mod 2^64. A negative offset shifts right (Finding H).
- OclEngine, QEngineOcl: OpenCL contexts, buffers, kernels, events, the DispatchQueue thread and locking are left out. The queue is modelled as a sequence and a dispatch counter.
- QEngineOcl.QEngineOCL.AddAlloc and SubtractAlloc: require size below 2^64, as size_t guarantees.
- QEngineOcl.QEngineOCL.FreeAll: only its declaration (qengine_opencl.hpp:259) is part of this model; its body is taken to be the release of the buffers plus `SubtractAlloc(totalOclAllocSize)`, which is what the destructor at 242-246 relies on. AddAlloc's over-budget result rests on the same assumption.
- QBdtNodes: nodes are values, so pointer sharing between subtrees, the `this == r.get()` identity shortcut beyond reflexivity, and Branch() (which unshares) are not captured. In particular, the in-place rewriting of a subtree shared by several parents is not captured.
- QBdtNodes.Remove: `std::abs` is the parameter `abs`, required to be the non-negative square root of the squared magnitude.
- QBdtNodes: IS_SAME_AMP is a parameter (an approximate-equality test on amplitudes). The lemmas hold for any reflexive test, including norm(a - b) <= tolerance.
- QBdtNodes.ParForQbdt: bitCapInt is unbounded, so the `j |= fn(j, 0)` step cannot wrap the index.
- Floating point: amplitudes and probabilities are exact reals, and clamping (ClampAmps, clampProb) is not modelled.
- Gates, measurement sampling, GetQuantumState and SetQuantumState, and the phase-buffer machinery (ApplyBuffer, RevertBasis2Qb, CommuteH) are left out. They act on amplitudes rather than on the shard map.

## Findings

| source | as written | input that shows it | evidently intended | confidence | as-written member | corrected member |
|---|---|---|---|---|---|---|
| src/qunit.cpp:371-373 | the destination shard is copied with its slot in the old unit | one unit holding qubits 0,1,2 at slots 0,1,2; Decompose(1, 2) | slots rebased to 0 .. subLen-1 in the new unit | not executed | DetachFindings.DestAsWrittenOutOfRange | Detaching.DestKeeps |
| src/qunit.cpp:328-336, 380 | with a destination, a unit's lone detached shard is released first, so the rest threshold at 380 reads its slot as 0 | one unit holding qubits 0,1,2 at slots 0,1,2; Decompose(2, 1) | the lower end recorded before the release | not executed | DetachFindings.RestAsWrittenCollides | Detaching.RestKeeps |
| src/qunit.cpp:3106-3128 | the controlled-add path is taken for any power-of-two modN | modN = 2, a two-qubit input of uncached qubits holding 3 | the path only when modN >= 2^length | not executed | QUnitModN.MulModNOutAsWrittenDiffers | QUnitModN.MulModNOutAgrees |
| src/qunit.cpp:3157-3159 | base 1 sets the output to 1 | base 1, modN = 1, one input qubit holding any value | 1 mod modN, which is 0 | not executed | QUnitModN.PowModNOutAsWrittenDiffers | QUnitModN.PowModNOutAgrees |
| src/qunit.cpp:2925, 2940, 2749-2751 | INCC/DECC fold the carry into the addend, and INT's mask then zeroes it and returns | one qubit holding 0, toAdd = 1, carry set | the carry out of x + toAdd + carry kept | not executed | QUnitInt.CarryLost | QUnitInt.IncC |
| src/qunit.cpp:2859, 2909 | `lControls[cIndex] = shards[cIndex].mapped` | three qubits in one unit, target range 0..1, control 2 | `shards[controls[cIndex]].mapped` | not executed | QUnitControls.LocalControlsAsWrittenHitsTarget | QUnitControls.LocalControlsAvoidTarget |
| src/qunit.cpp:1073-1079 | with one uncached qubit left, the phase goes to log2(mask) | mask 3, qubit 1 cached zero, qubit 0 uncached | the phase on eIndices[0] | not executed | QUnitParity.PhaseParityAsWrittenMisses | QUnitParity.PhaseParity |
| src/qunit.cpp:1594 | `while (pick > count)` | two entries of one shot each, two shots left, draw 1 | `while (pick >= count)` | not executed | QUnitMultiShot.WalkBias | QUnitMultiShot.Walk |
| include/common/oclengine.hpp:266-267 | a non-positive hybridOffset is used as the count of `>> hybridOffset`, a shift by a negative amount when it is negative | hybridOffset = -1 | a right shift by -hybridOffset | not executed | OclEngine.ShiftAsWrittenNegative | OclEngine.ShiftRight |
