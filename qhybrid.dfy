// QHybrid: a state-vector simulator that holds one backing engine, either a
// CPU engine or an OpenCL (GPU) engine, and moves its state to the other kind
// whenever the qubit count crosses `thresholdQubits`.  The backing engines
// are modelled as objects with a kind, a qubit count and an amplitude vector;
// what the engine computes for a composition or decomposition is handed in.
module Hybrid {
  import opened Amplitudes

  /** A backing engine (`QEngineCPU` or `QEngineOCL`). */
  class Engine {
    const gpu: bool
    var qubits: nat
    var amps: seq<Complex>

    constructor (gpu: bool, qubits: nat, amps: seq<Complex>)
      ensures this.gpu == gpu && this.qubits == qubits && this.amps == amps
    {
      this.gpu := gpu;
      this.qubits := qubits;
      this.amps := amps;
    }

    /** `CopyStateVec(src)`: take over the other engine's amplitudes. */
    method CopyStateVec(src: Engine)
      modifies this
      ensures amps == old(src.amps) && qubits == old(qubits)
    {
      amps := src.amps;
    }

    /** `Compose(toCopy, start)`: the other engine's qubits join at `start`. */
    method Compose(other: Engine, start: nat, composed: seq<Complex>) returns (r: nat)
      requires other != this
      modifies this
      ensures qubits == old(qubits) + other.qubits && amps == composed && r == start
    {
      qubits := qubits + other.qubits;
      amps := composed;
      r := start;
    }

    /** `Decompose(start, dest)`: dest's qubit count is split off into dest. */
    method Decompose(dest: Engine, rest: seq<Complex>, split: seq<Complex>)
      requires dest != this && dest.qubits <= qubits
      modifies this, dest
      ensures qubits == old(qubits) - old(dest.qubits) && amps == rest
      ensures dest.qubits == old(dest.qubits) && dest.amps == split
    {
      qubits := qubits - dest.qubits;
      amps := rest;
      dest.amps := split;
    }

    /** `Dispose(start, length)`: length qubits are dropped. */
    method Dispose(length: nat, rest: seq<Complex>)
      requires length <= qubits
      modifies this
      ensures qubits == old(qubits) - length && amps == rest
    {
      qubits := qubits - length;
      amps := rest;
    }
  }

  class QHybrid {
    var engine: Engine
    var isGpu: bool
    var qubitCount: nat
    const thresholdQubits: nat

    /** The engine is of the kind the mode flag names and holds the object's qubits. */
    ghost predicate Valid()
      reads this, engine
    {
      engine.gpu == isGpu && engine.qubits == qubitCount
    }

    /** Wraps an existing engine; the mode is the engine's kind. */
    constructor (e: Engine, thresholdQubits: nat)
      ensures engine == e && isGpu == e.gpu && qubitCount == e.qubits
      ensures this.thresholdQubits == thresholdQubits && Valid()
    {
      engine := e;
      isGpu := e.gpu;
      qubitCount := e.qubits;
      this.thresholdQubits := thresholdQubits;
    }

    /** `MakeEngine(isOpenCL)`: a new engine of the given kind for the current qubit count. */
    method MakeEngine(isOpenCL: bool) returns (e: Engine)
      ensures fresh(e) && e.gpu == isOpenCL && e.qubits == qubitCount
    {
      e := new Engine(isOpenCL, qubitCount, []);
    }

    /**
     * `SwitchModes(useGpu)`: the mode becomes `useGpu`.  Only when it
     * changes is a new engine of the other kind built and the state copied
     * into it; otherwise the engine is left alone.
     */
    method SwitchModes(useGpu: bool)
      requires engine.gpu == isGpu
      modifies this
      ensures isGpu == useGpu && qubitCount == old(qubitCount) && engine.gpu == isGpu
      ensures old(isGpu) != useGpu ==>
        (fresh(engine) && engine.qubits == qubitCount && engine.amps == old(engine.amps))
      ensures old(isGpu) == useGpu ==> engine == old(engine)
    {
      var nEngine: Engine? := null;
      if !isGpu && useGpu {
        nEngine := MakeEngine(true);
      } else if isGpu && !useGpu {
        nEngine := MakeEngine(false);
      }
      if nEngine != null {
        nEngine.CopyStateVec(engine);
        engine := nEngine;
      }
      isGpu := useGpu;
    }

    /**
     * `SetQubitCount(qb)`: switch to the mode the new count calls for, then
     * record the count.  The engine still holds the old count; the caller
     * resizes it next.
     */
    method SetQubitCount(qb: nat)
      requires engine.gpu == isGpu
      modifies this
      ensures isGpu == (qb >= thresholdQubits) && qubitCount == qb
      ensures engine.gpu == isGpu && engine.amps == old(engine.amps)
      ensures old(isGpu) == isGpu ==> engine == old(engine)
      ensures old(isGpu) != isGpu ==> (fresh(engine) && engine.qubits == old(qubitCount))
    {
      SwitchModes(qb >= thresholdQubits);
      qubitCount := qb;
    }

    /**
     * `Compose(toCopy, start)`: the count becomes the sum of both counts,
     * toCopy is first switched to this object's (new) mode, and the engine
     * composes the other engine in at `start`.
     */
    method Compose(toCopy: QHybrid, start: nat, composed: seq<Complex>) returns (r: nat)
      requires toCopy != this && toCopy.engine != engine
      requires Valid() && toCopy.Valid()
      modifies this, engine, toCopy
      ensures qubitCount == old(qubitCount) + old(toCopy.qubitCount)
      ensures isGpu == (qubitCount >= thresholdQubits) && toCopy.isGpu == isGpu
      ensures toCopy.qubitCount == old(toCopy.qubitCount) && toCopy.engine.amps == old(toCopy.engine.amps)
      ensures engine.amps == composed && r == start
      ensures Valid() && toCopy.Valid()
    {
      var n := qubitCount + toCopy.qubitCount;
      SetQubitCount(n);
      toCopy.SwitchModes(isGpu);
      r := engine.Compose(toCopy.engine, start, composed);
    }

    /** `Compose(toCopy)`: append toCopy's qubits after this object's own. */
    method ComposeAtEnd(toCopy: QHybrid, composed: seq<Complex>) returns (r: nat)
      requires toCopy != this && toCopy.engine != engine
      requires Valid() && toCopy.Valid()
      modifies this, engine, toCopy
      ensures qubitCount == old(qubitCount) + old(toCopy.qubitCount)
      ensures isGpu == (qubitCount >= thresholdQubits) && toCopy.isGpu == isGpu
      ensures toCopy.qubitCount == old(toCopy.qubitCount) && toCopy.engine.amps == old(toCopy.engine.amps)
      ensures engine.amps == composed && r == old(qubitCount)
      ensures Valid() && toCopy.Valid()
    {
      r := Compose(toCopy, qubitCount, composed);
    }

    /**
     * `Decompose(start, dest)`: the count drops by dest's count, and dest is
     * switched to this object's new mode before it receives its part.
     */
    method Decompose(dest: QHybrid, rest: seq<Complex>, split: seq<Complex>)
      requires dest != this && dest.engine != engine
      requires Valid() && dest.Valid() && dest.qubitCount <= qubitCount
      modifies this, engine, dest, dest.engine
      ensures qubitCount == old(qubitCount) - old(dest.qubitCount)
      ensures isGpu == (qubitCount >= thresholdQubits) && dest.isGpu == isGpu
      ensures dest.qubitCount == old(dest.qubitCount) && dest.engine.amps == split && engine.amps == rest
      ensures Valid() && dest.Valid()
    {
      var n := qubitCount - dest.qubitCount;
      SetQubitCount(n);
      dest.SwitchModes(isGpu);
      engine.Decompose(dest.engine, rest, split);
    }

    /** `Dispose(start, length)` and `Dispose(start, length, disposedPerm)`: the count drops by length. */
    method Dispose(length: nat, rest: seq<Complex>)
      requires Valid() && length <= qubitCount
      modifies this, engine
      ensures qubitCount == old(qubitCount) - length && isGpu == (qubitCount >= thresholdQubits)
      ensures engine.amps == rest && Valid()
    {
      var n := qubitCount - length;
      SetQubitCount(n);
      engine.Dispose(length, rest);
    }

    /**
     * `TryDecompose(start, dest)`: switch to the mode the smaller count would
     * call for and switch dest to match, then let the engine try.  On success
     * the count drops by dest's count; on failure the count is unchanged, the
     * mode is put back to what the count calls for and the state is intact.
     * dest keeps the mode it was switched to either way.
     */
    method TryDecompose(dest: QHybrid, success: bool, rest: seq<Complex>, split: seq<Complex>)
      returns (result: bool)
      requires dest != this && dest.engine != engine
      requires Valid() && dest.Valid() && dest.qubitCount <= qubitCount
      modifies this, engine, dest, dest.engine
      ensures result == success
      ensures dest.isGpu == (old(qubitCount) - old(dest.qubitCount) >= thresholdQubits)
      ensures dest.qubitCount == old(dest.qubitCount) && dest.Valid()
      ensures success ==>
        (qubitCount == old(qubitCount) - old(dest.qubitCount) && isGpu == (qubitCount >= thresholdQubits)
         && engine.amps == rest && dest.engine.amps == split)
      ensures !success ==>
        (qubitCount == old(qubitCount) && isGpu == (qubitCount >= thresholdQubits)
         && engine.amps == old(engine.amps) && dest.engine.amps == old(dest.engine.amps))
      ensures Valid()
    {
      var n := qubitCount - dest.qubitCount;
      SwitchModes(n >= thresholdQubits);
      dest.SwitchModes(isGpu);
      result := success;
      if result {
        engine.Decompose(dest.engine, rest, split);
        SetQubitCount(n);
      } else {
        SwitchModes(qubitCount >= thresholdQubits);
      }
    }

    /** `CopyStateVec(src)`: switch to src's mode, then copy its amplitudes. */
    method CopyStateVec(src: QHybrid)
      requires src != this && src.engine != engine && Valid() && src.Valid()
      modifies this, engine
      ensures isGpu == src.isGpu && qubitCount == old(qubitCount)
      ensures engine.amps == src.engine.amps && engine.gpu == isGpu && engine.qubits == qubitCount
      ensures src.engine.amps == old(src.engine.amps)
    {
      SwitchModes(src.isGpu);
      engine.CopyStateVec(src.engine);
    }

    /**
     * `SumSqrDiff(toCompare)`: switch the other object to this one's mode,
     * then return what the engine reports.
     */
    method SumSqrDiff(toCompare: QHybrid, engineDiff: real) returns (r: real)
      requires toCompare != this && Valid() && toCompare.Valid()
      modifies toCompare
      ensures toCompare.isGpu == isGpu && toCompare.qubitCount == old(toCompare.qubitCount)
      ensures toCompare.engine.amps == old(toCompare.engine.amps) && toCompare.Valid()
      ensures r == engineDiff
    {
      toCompare.SwitchModes(isGpu);
      r := engineDiff;
    }
  }
}
