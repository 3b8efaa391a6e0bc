// Nodes of the binary decision tree (QBdt): each node has a complex scale
// and two branches, either of which may be null.  Nodes are modelled as
// values: a method of the source that rewrites this node's branches
// returns the rewritten node alongside its answer.  Two branches of a node
// that share a pointer are modelled as equal values.
module QBdtNodes {
  import opened Wrappers
  import opened Amplitudes
  import opened Bits

  /** A `QBdtNodeInterfacePtr`. */
  datatype Ptr = Null | Ref(node: Node)

  datatype Node = Node(scale: Complex, b0: Ptr, b1: Ptr)

  /** A test of whether two scales are the same amplitude. */
  type AmpTest = (Complex, Complex) -> bool

  /** `IS_SAME_AMP`: tol is the squared tolerance (`REAL1_EPSILON * REAL1_EPSILON`). */
  function SameAmp(tol: real): AmpTest
  {
    (a: Complex, b: Complex) => Norm(Sub(a, b)) <= tol
  }

  /** Every scale is the same amplitude as itself. */
  ghost predicate Reflexive(same: AmpTest)
  {
    forall c :: same(c, c)
  }

  /** `IS_SAME_AMP` is reflexive for a non-negative tolerance. */
  lemma SameAmpReflexive(tol: real)
    requires tol >= 0.0
    ensures Reflexive(SameAmp(tol))
  {
    forall c: Complex
      ensures SameAmp(tol)(c, c)
    {
      assert Sub(c, c) == Complex(0.0, 0.0);
    }
  }

  /** Independent reference: two trees agree when their shapes match and every pair of scales is the same amplitude. */
  predicate Approx(p: Ptr, q: Ptr, same: AmpTest)
  {
    match p
    case Null => q.Null?
    case Ref(n) =>
      q.Ref? && same(n.scale, q.node.scale)
      && Approx(n.b0, q.node.b0, same) && Approx(n.b1, q.node.b1, same)
  }

  /**
   * `lhs == rhs` on node pointers: null equals only null, a non-null lhs
   * defers to `isEqual`.  Returns the answer and lhs as `isEqual` left it.
   */
  function PtrEqual(lhs: Ptr, rhs: Ptr, same: AmpTest): (res: (bool, Ptr))
    ensures res.1.Null? <==> lhs.Null?
    ensures lhs.Ref? ==> res.1.node.scale == lhs.node.scale
    ensures res.0 ==> (lhs.Null? <==> rhs.Null?)
    decreases lhs
  {
    match lhs
    case Null => (rhs.Null?, lhs)
    case Ref(n) =>
      var (e, n') := IsEqual(n, rhs, same);
      (e, Ref(n'))
  }

  /**
   * `isEqual(r)`: false for a null r or a different scale; otherwise each
   * branch is compared in turn, and a branch that compares equal is
   * replaced by r's (so the trees share it).  Returns the answer and this
   * node as the comparison left it.  The same-pointer shortcut is not
   * modelled; `IsEqualReflexive` shows the full comparison gives the same.
   */
  function IsEqual(n: Node, r: Ptr, same: AmpTest): (res: (bool, Node))
    ensures res.1.scale == n.scale
    ensures res.0 ==> r.Ref? && same(n.scale, r.node.scale)
    ensures res.0 ==> res.1.b0 == r.node.b0 && res.1.b1 == r.node.b1
    decreases n
  {
    if r.Null? then (false, n)
    else if !same(n.scale, r.node.scale) then (false, n)
    else BranchesEqual(n, r.node, same)
  }

  /** `isEqualUnder(r)`: `isEqual` without the scale comparison. */
  function IsEqualUnder(n: Node, r: Ptr, same: AmpTest): (res: (bool, Node))
    ensures res.1.scale == n.scale
    ensures res.0 ==> r.Ref? && res.1.b0 == r.node.b0 && res.1.b1 == r.node.b1
  {
    if r.Null? then (false, n)
    else BranchesEqual(n, r.node, same)
  }

  /** The branch comparisons `isEqual` and `isEqualUnder` share. */
  function BranchesEqual(n: Node, r: Node, same: AmpTest): (res: (bool, Node))
    ensures res.1.scale == n.scale
    ensures res.0 ==> res.1.b0 == r.b0 && res.1.b1 == r.b1
    decreases n, 0
  {
    var (e0, b0) := PtrEqual(n.b0, r.b0, same);
    if !e0 then (false, n.(b0 := b0))
    else
      var (e1, b1) := PtrEqual(n.b1, r.b1, same);
      if !e1 then (false, n.(b0 := r.b0, b1 := b1))
      else (true, n.(b0 := r.b0, b1 := r.b1))
  }

  /** `lhs != rhs`. */
  function PtrNotEqual(lhs: Ptr, rhs: Ptr, same: AmpTest): (r: bool)
    ensures r <==> !Approx(lhs, rhs, same)
  {
    PtrEqualMeansApprox(lhs, rhs, same);
    !PtrEqual(lhs, rhs, same).0
  }

  /**
   * `==` on node pointers answers exactly whether the trees agree, and on
   * a true answer lhs now carries rhs's branches under its own scale.
   */
  lemma {:induction false} PtrEqualMeansApprox(lhs: Ptr, rhs: Ptr, same: AmpTest)
    ensures PtrEqual(lhs, rhs, same).0 <==> Approx(lhs, rhs, same)
    ensures PtrEqual(lhs, rhs, same).0 && lhs.Ref? ==>
      PtrEqual(lhs, rhs, same).1 == Ref(rhs.node.(scale := lhs.node.scale))
    decreases lhs
  {
    if lhs.Ref? && rhs.Ref? {
      IsEqualMeansApprox(lhs.node, rhs.node, same);
    }
  }

  lemma {:induction false} IsEqualMeansApprox(n: Node, r: Node, same: AmpTest)
    ensures IsEqual(n, Ref(r), same).0 <==> Approx(Ref(n), Ref(r), same)
    ensures IsEqual(n, Ref(r), same).0 ==> IsEqual(n, Ref(r), same).1 == r.(scale := n.scale)
    decreases n
  {
    PtrEqualMeansApprox(n.b0, r.b0, same);
    PtrEqualMeansApprox(n.b1, r.b1, same);
  }

  /** Every tree agrees with itself under a reflexive amplitude test. */
  lemma {:induction false} ApproxReflexive(p: Ptr, same: AmpTest)
    requires Reflexive(same)
    ensures Approx(p, p, same)
  {
    if p.Ref? {
      ApproxReflexive(p.node.b0, same);
      ApproxReflexive(p.node.b1, same);
    }
  }

  /**
   * Comparing a node with itself answers true and leaves it as it was, so
   * the source's same-pointer shortcut changes nothing.
   */
  lemma IsEqualReflexive(n: Node, tol: real)
    requires tol >= 0.0
    ensures IsEqual(n, Ref(n), SameAmp(tol)) == (true, n)
  {
    SameAmpReflexive(tol);
    ApproxReflexive(Ref(n), SameAmp(tol));
    IsEqualMeansApprox(n, n, SameAmp(tol));
  }

  /**
   * A comparison never changes its own verdict: whatever it answered, lhs
   * as it leaves it agrees with rhs exactly when lhs did before.
   */
  lemma {:induction false} PtrEqualKeepsVerdict(lhs: Ptr, rhs: Ptr, same: AmpTest)
    requires Reflexive(same)
    ensures Approx(PtrEqual(lhs, rhs, same).1, rhs, same) <==> Approx(lhs, rhs, same)
    decreases lhs
  {
    if lhs.Ref? && rhs.Ref? && same(lhs.node.scale, rhs.node.scale) {
      BranchesKeepVerdict(lhs.node, rhs.node, same);
    }
  }

  /** The branch comparisons keep the scale and the verdict on the branches. */
  lemma {:induction false} BranchesKeepVerdict(n: Node, r: Node, same: AmpTest)
    requires Reflexive(same)
    ensures var m := BranchesEqual(n, r, same).1;
      m.scale == n.scale
      && (Approx(m.b0, r.b0, same) && Approx(m.b1, r.b1, same) <==> Approx(n.b0, r.b0, same) && Approx(n.b1, r.b1, same))
    decreases n, 1
  {
    if PtrEqual(n.b0, r.b0, same).0 {
      SecondBranchKeepsVerdict(n, r, same);
      ApproxReflexive(r.b0, same);
    } else {
      PtrEqualKeepsVerdict(n.b0, r.b0, same);
      PtrEqualMeansApprox(n.b0, r.b0, same);
    }
  }

  /** Once the first branches agree, the first branch is r's and the second keeps its verdict. */
  lemma {:induction false} SecondBranchKeepsVerdict(n: Node, r: Node, same: AmpTest)
    requires Reflexive(same) && PtrEqual(n.b0, r.b0, same).0
    ensures var m := BranchesEqual(n, r, same).1;
      m.scale == n.scale && m.b0 == r.b0 && Approx(n.b0, r.b0, same)
      && (Approx(m.b1, r.b1, same) <==> Approx(n.b1, r.b1, same))
    decreases n, 0
  {
    PtrEqualMeansApprox(n.b0, r.b0, same);
    PtrEqualKeepsVerdict(n.b1, r.b1, same);
    PtrEqualMeansApprox(n.b1, r.b1, same);
    if PtrEqual(n.b1, r.b1, same).0 {
      ApproxReflexive(r.b1, same);
    }
  }

  /** `isEqual(r)` answering true implies `isEqualUnder(r)` does. */
  lemma IsEqualImpliesUnder(n: Node, r: Ptr, same: AmpTest)
    ensures IsEqual(n, r, same).0 ==> IsEqualUnder(n, r, same).0
  {
  }

  /** With matching scales the two comparisons are the same, answer and side effect. */
  lemma IsEqualUnderSameScale(n: Node, r: Node, same: AmpTest)
    requires same(n.scale, r.scale)
    ensures IsEqualUnder(n, Ref(r), same) == IsEqual(n, Ref(r), same)
  {
  }

  /** `isEqualUnder` answers whether the branches agree, whatever the scales. */
  lemma IsEqualUnderMeansBranchesApprox(n: Node, r: Node, same: AmpTest)
    ensures IsEqualUnder(n, Ref(r), same).0 <==> Approx(n.b0, r.b0, same) && Approx(n.b1, r.b1, same)
  {
    PtrEqualMeansApprox(n.b0, r.b0, same);
    PtrEqualMeansApprox(n.b1, r.b1, same);
  }

  /** Unary `-` on a node pointer: a shallow clone with the scale negated; the original is untouched. */
  function Negate(t: Ptr): (m: Ptr)
    requires t.Ref?
    ensures m.Ref? && m.node.b0 == t.node.b0 && m.node.b1 == t.node.b1
    ensures m.node.scale.re + t.node.scale.re == 0.0 && m.node.scale.im + t.node.scale.im == 0.0
  {
    Ref(t.node.(scale := Neg(t.node.scale)))
  }

  /** Negating twice gives the node back. */
  lemma NegateTwice(t: Ptr)
    requires t.Ref?
    ensures Negate(Negate(t)) == t
  {
  }

  // ---------------------------------------------------------------------
  // RemoveSeparableAtDepth.

  /** What `RemoveSeparableAtDepth` leaves: this node, rewritten, and the pointer it returns. */
  datatype Removal = Removal(node: Node, ret: Ptr)

  /** abs is `std::abs`: the non-negative square root of the squared magnitude. */
  ghost predicate IsMagnitude(abs: Complex -> real)
  {
    forall c :: abs(c) >= 0.0 && abs(c) * abs(c) == Norm(c)
  }

  /** Dividing an amplitude by its magnitude leaves an amplitude of magnitude 1. */
  lemma ScaleToUnit(a: Complex, m: real)
    requires m > 0.0 && m * m == Norm(a)
    ensures Norm(Scale(a, m)) == 1.0
  {
    var x, y := a.re / m, a.im / m;
    assert a.re == x * m && a.im == y * m;
    calc {
      (x * x + y * y) * (m * m);
      (x * m) * (x * m) + (y * m) * (y * m);
      Norm(a);
      1.0 * (m * m);
    }
    assert m * m > 0.0;
  }

  /** The clone `RemoveSeparableAtDepth` makes at the target depth has magnitude 1. */
  lemma UnitClone(n: Node, tol: real, abs: Complex -> real)
    requires IsMagnitude(abs) && tol >= 0.0 && Norm(n.scale) > tol
    ensures abs(n.scale) > 0.0 && Norm(Scale(n.scale, abs(n.scale))) == 1.0
  {
    ScaleToUnit(n.scale, abs(n.scale));
  }

  /**
   * `RemoveSeparableAtDepth(depth, size)`, with abs for `std::abs`.  None
   * stands for a dereference of a null pointer.  A negligible scale gives
   * null.  Above the target depth both branches are descended (once when
   * they are the same), and the first non-null answer is returned.  At the
   * target depth a clone with its scale divided by its magnitude is
   * returned; with size 0 this node loses its branches, otherwise the
   * clone's subtree is cut `size` levels down and this node takes the
   * branches found there.
   */
  function Remove(n: Node, depth: nat, size: nat, tol: real, abs: Complex -> real): (r: Option<Removal>)
    requires IsMagnitude(abs) && tol >= 0.0
    ensures Norm(n.scale) <= tol ==> r == Some(Removal(n, Null))
    ensures r.Some? ==> r.value.node.scale == n.scale
    ensures r.Some? && r.value.ret.Ref? ==> Norm(r.value.ret.node.scale) == 1.0
    ensures depth == 0 && Norm(n.scale) > tol ==> r.None? || r.value.ret.Ref?
    decreases if size == 0 then 0 else 1, n
  {
    if Norm(n.scale) <= tol then Some(Removal(n, Null))
    else if depth > 0 then
      if n.b0.Null? then Some(Removal(n, Null))
      else
        match Remove(n.b0.node, depth - 1, size, tol, abs)
        case None => None
        case Some(r0) =>
          if n.b1 == n.b0 then
            Some(Removal(n.(b0 := Ref(r0.node), b1 := Ref(r0.node)), r0.ret))
          else if n.b1.Null? then None
          else
            match Remove(n.b1.node, depth - 1, size, tol, abs)
            case None => None
            case Some(r1) =>
              Some(Removal(n.(b0 := Ref(r0.node), b1 := Ref(r1.node)),
                           if r0.ret.Ref? then r0.ret else r1.ret))
    else
      UnitClone(n, tol, abs);
      var clone := n.(scale := Scale(n.scale, abs(n.scale)));
      if size == 0 then Some(Removal(n.(b0 := Null, b1 := Null), Ref(clone)))
      else
        match Remove(clone, size, 0, tol, abs)
        case None => None
        case Some(t) =>
          if t.ret.Null? then None
          else Some(Removal(n.(b0 := t.ret.node.b0, b1 := t.ret.node.b1), Ref(t.node)))
  }

  /** At the target depth with size 0, the clone keeps this node's branches and this node becomes a leaf. */
  lemma RemoveLeaf(n: Node, tol: real, abs: Complex -> real)
    requires IsMagnitude(abs) && tol >= 0.0 && Norm(n.scale) > tol
    ensures Remove(n, 0, 0, tol, abs).Some?
    ensures var r := Remove(n, 0, 0, tol, abs).value;
      r.node == Node(n.scale, Null, Null) && r.ret.Ref?
      && r.ret.node.b0 == n.b0 && r.ret.node.b1 == n.b1
      && r.ret.node.scale == Scale(n.scale, abs(n.scale))
  {
  }

  /** Every path from the node is at least k levels deep. */
  predicate Complete(n: Node, k: nat)
  {
    k == 0 || (n.b0.Ref? && n.b1.Ref? && Complete(n.b0.node, k - 1) && Complete(n.b1.node, k - 1))
  }

  /**
   * With size 0 no null pointer is dereferenced when every path reaches the
   * target depth; a null second branch below a non-null first one is what
   * the source would dereference.
   */
  lemma {:induction false} RemoveDefinedWhenComplete(n: Node, depth: nat, tol: real, abs: Complex -> real)
    requires IsMagnitude(abs) && tol >= 0.0 && Complete(n, depth)
    ensures Remove(n, depth, 0, tol, abs).Some?
  {
    if Norm(n.scale) > tol && depth > 0 {
      RemoveDefinedWhenComplete(n.b0.node, depth - 1, tol, abs);
      RemoveDefinedWhenComplete(n.b1.node, depth - 1, tol, abs);
    }
  }

  /** A node whose first branch is non-null and whose second is null makes the source dereference null. */
  lemma RemoveNullSecondBranch(c: Complex, child: Node, tol: real, abs: Complex -> real)
    requires IsMagnitude(abs) && tol >= 0.0 && Norm(c) > tol && Norm(child.scale) <= tol
    ensures Remove(Node(c, Ref(child), Null), 1, 0, tol, abs) == None
  {
  }

  // ---------------------------------------------------------------------
  // _par_for_qbdt.

  lemma {:induction false} OrAtLeast(a: nat, b: nat)
    ensures Or(a, b) >= a
    decreases a + b
  {
    if a != 0 && b != 0 {
      OrAtLeast(a / 2, b / 2);
    }
  }

  /** The index the loop moves to after visiting j. */
  function Next(j: nat, fn: nat -> nat): (k: nat)
    ensures k > j
  {
    OrAtLeast(j, fn(j));
    Or(j, fn(j)) + 1
  }

  /**
   * The indices `_par_for_qbdt(begin, end, fn)` visits, in order: begin
   * first unless it is already past the end, each next one `Next` of the
   * one before, all below end, and the last one leading to end or past it.
   */
  ghost predicate Walk(begin: nat, end: nat, fn: nat -> nat, visited: seq<nat>)
  {
    (forall k :: 0 <= k < |visited| ==> begin <= visited[k] < end)
    && (|visited| > 0 ==> visited[0] == begin && Next(visited[|visited| - 1], fn) >= end)
    && (forall k :: 0 <= k < |visited| - 1 ==> visited[k + 1] == Next(visited[k], fn))
    && (begin >= end <==> visited == [])
  }

  /**
   * `_par_for_qbdt(begin, end, fn)`: visit j from begin while j < end,
   * then skip past every index `fn(j)` marks (`j |= fn(j); j++`).  The
   * unsigned `end - begin` cancels out, so the bound is end itself.
   * Returns the indices visited, in order.
   */
  method ParForQbdt(begin: nat, end: nat, fn: nat -> nat) returns (visited: seq<nat>)
    ensures Walk(begin, end, fn, visited)
  {
    visited := [];
    var j := begin;
    while j < end
      invariant forall k :: 0 <= k < |visited| ==> begin <= visited[k] < end
      invariant |visited| > 0 ==> visited[0] == begin && j == Next(visited[|visited| - 1], fn)
      invariant |visited| == 0 ==> j == begin
      invariant forall k :: 0 <= k < |visited| - 1 ==> visited[k + 1] == Next(visited[k], fn)
      decreases end - j
    {
      visited := visited + [j];
      j := Next(j, fn);
    }
  }

  /** `Walk` pins the visited indices down: there is only one such sequence. */
  lemma WalkUnique(begin: nat, end: nat, fn: nat -> nat, v: seq<nat>, w: seq<nat>)
    requires Walk(begin, end, fn, v) && Walk(begin, end, fn, w)
    ensures v == w
  {
    if |v| > 0 && |w| > 0 {
      var k := 0;
      while k < |v| && k < |w|
        invariant 0 <= k <= |v| && k <= |w|
        invariant forall i :: 0 <= i < k ==> v[i] == w[i]
      {
        if k > 0 {
          assert v[k] == Next(v[k - 1], fn) && w[k] == Next(w[k - 1], fn);
        }
        k := k + 1;
      }
      WalkGoesOn(begin, end, fn, w, |v|);
      WalkGoesOn(begin, end, fn, v, |w|);
    }
  }

  /** A walk that visits more than m indices found its m-th one below end. */
  lemma WalkGoesOn(begin: nat, end: nat, fn: nat -> nat, w: seq<nat>, m: nat)
    requires Walk(begin, end, fn, w) && 0 < m
    ensures m < |w| ==> Next(w[m - 1], fn) < end
  {
    if m < |w| {
      assert w[m] == Next(w[m - 1], fn);
    }
  }

  /** When fn marks nothing, every index from begin up to end is visited once, in order. */
  lemma ParForVisitsAll(begin: nat, end: nat, visited: seq<nat>, fn: nat -> nat)
    requires forall j :: fn(j) == 0
    requires Walk(begin, end, fn, visited)
    ensures forall k :: 0 <= k < |visited| ==> visited[k] == begin + k
    ensures |visited| == if begin < end then end - begin else 0
  {
    var k := 0;
    while k < |visited|
      invariant 0 <= k <= |visited|
      invariant forall i :: 0 <= i < k ==> visited[i] == begin + i
    {
      if k > 0 {
        assert Or(visited[k - 1], 0) == visited[k - 1];
      }
      k := k + 1;
    }
    if |visited| > 0 {
      assert Or(visited[|visited| - 1], 0) == visited[|visited| - 1];
      assert visited[|visited| - 1] == begin + |visited| - 1;
    }
  }
}
