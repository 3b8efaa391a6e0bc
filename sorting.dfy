// Facts about the array of sort keys that QUnit::SortUnit rearranges: a swap of
// two keys inside a range, permutations confined to a range, and sortedness.

module SortKeys {

  /** keys[lo..hi] (both ends included) is in non-decreasing order. */
  ghost predicate SortedRange(keys: seq<nat>, lo: int, hi: int)
  {
    forall a, b | 0 <= lo <= a <= b <= hi < |keys| :: keys[a] <= keys[b]
  }

  /**
   * The outcome of one partition of keys[lo..hi] around p: the keys left of
   * i are at most p, the keys right of j at least p.
   */
  ghost predicate Partitioned(keys: seq<nat>, lo: int, j: int, i: int, hi: int, p: nat)
  {
    && 0 <= lo <= j < i <= hi < |keys|
    && (forall k | lo <= k < i :: keys[k] <= p)
    && (forall k | j < k <= hi :: p <= keys[k])
  }

  /**
   * The state of the partition loop at its head: keys left of i are at most
   * p, keys right of j at least p, and while i <= j there is a key of at
   * least p at wi (i <= wi) and one of at most p at wj (wj <= j), which stop
   * the two scans.  Before the first exchange both are the pivot's slot mid.
   */
  ghost predicate Scan(keys: seq<nat>, lo: int, hi: int, mid: int, i: int, j: int, wi: int, wj: int, p: nat, stepped: bool)
  {
    && 0 <= lo < mid < hi < |keys|
    && lo <= i <= hi && lo <= j <= hi
    && (!stepped ==> wi == mid && wj == mid && keys[mid] == p)
    && (stepped ==> lo < i && j < hi)
    && (i > j ==> stepped)
    && (i <= j ==> i <= wi <= hi && p <= keys[wi] && lo <= wj <= j && keys[wj] <= p)
    && (forall k | lo <= k < i :: keys[k] <= p)
    && (forall k | j < k <= hi :: p <= keys[k])
  }

  /** The scans of one pass of the partition loop stopped at i and j. */
  ghost predicate Scanned(ks: seq<nat>, lo: int, hi: int, mid: int, i0: int, j0: int, wi: int, wj: int, p: nat, stepped: bool,
                          i: int, j: int)
  {
    && Scan(ks, lo, hi, mid, i0, j0, wi, wj, p, stepped) && i0 <= j0
    && i0 <= i <= wi && p <= ks[i] && (forall k | i0 <= k < i :: ks[k] < p)
    && wj <= j <= j0 && ks[j] <= p && (forall k | j < k <= j0 :: p < ks[k])
  }

  /** i < j: the two keys are exchanged and both scans move on. */
  lemma ScanSwap(ks: seq<nat>, ks': seq<nat>, lo: int, hi: int, mid: int, i0: int, j0: int, wi: int, wj: int, p: nat,
                 stepped: bool, i: int, j: int)
    requires Scanned(ks, lo, hi, mid, i0, j0, wi, wj, p, stepped, i, j) && i < j
    requires ks' == ks[i := ks[j]][j := ks[i]]
    ensures Scan(ks', lo, hi, mid, i + 1, j - 1, j, i, p, true)
  {
  }

  /** i == j: the scans met on a key equal to the pivot; the loop ends. */
  lemma ScanMeet(ks: seq<nat>, lo: int, hi: int, mid: int, i0: int, j0: int, wi: int, wj: int, p: nat,
                 stepped: bool, i: int, j: int)
    requires Scanned(ks, lo, hi, mid, i0, j0, wi, wj, p, stepped, i, j) && i == j
    ensures Scan(ks, lo, hi, mid, i + 1, j - 1, wi, wj, p, true)
  {
  }

  /** i > j: the scans crossed; the loop ends with the state unchanged. */
  lemma ScanCross(ks: seq<nat>, lo: int, hi: int, mid: int, i0: int, j0: int, wi: int, wj: int, p: nat,
                  stepped: bool, i: int, j: int)
    requires Scanned(ks, lo, hi, mid, i0, j0, wi, wj, p, stepped, i, j) && i > j
    ensures Scan(ks, lo, hi, mid, i, j, wi, wj, p, stepped)
  {
  }

  /** When the loop ends the range is partitioned. */
  lemma ScanDone(ks: seq<nat>, lo: int, hi: int, mid: int, i: int, j: int, wi: int, wj: int, p: nat, stepped: bool)
    requires Scan(ks, lo, hi, mid, i, j, wi, wj, p, stepped) && i > j
    ensures Partitioned(ks, lo, j, i, hi, p)
  {
  }

  /** r is s with the part outside [lo, hi] untouched and the same multiset of keys. */
  ghost predicate PermutedWithin(s: seq<nat>, r: seq<nat>, lo: int, hi: int)
  {
    && |r| == |s| && 0 <= lo && hi < |s|
    && multiset(r) == multiset(s)
    && lo <= hi + 1
    && r[..lo] == s[..lo] && r[hi + 1..] == s[hi + 1..]
  }

  /** Exchanging two keys inside the range is a permutation within it. */
  lemma SwapWithin(s: seq<nat>, i: nat, j: nat, lo: int, hi: int)
    requires 0 <= lo <= i <= hi < |s| && lo <= j <= hi
    ensures PermutedWithin(s, s[i := s[j]][j := s[i]], lo, hi)
  {
    SwapMultiset(s, i, j);
  }

  lemma SwapMultiset(s: seq<nat>, i: nat, j: nat)
    requires i < |s| && j < |s|
    ensures multiset(s[i := s[j]][j := s[i]]) == multiset(s)
  {
    var t := s[i := s[j]];
    assert multiset(t) == multiset(s) - multiset{s[i]} + multiset{s[j]};
    if i != j {
      assert t[j] == s[j];
      assert multiset(t[j := s[i]]) == multiset(t) - multiset{s[j]} + multiset{s[i]};
    }
  }

  lemma PermutedRefl(s: seq<nat>, lo: int, hi: int)
    requires 0 <= lo <= hi + 1 && hi < |s|
    ensures PermutedWithin(s, s, lo, hi)
  {
  }

  lemma PermutedTrans(a: seq<nat>, b: seq<nat>, c: seq<nat>, lo: int, hi: int)
    requires PermutedWithin(a, b, lo, hi) && PermutedWithin(b, c, lo, hi)
    ensures PermutedWithin(a, c, lo, hi)
  {
  }

  /** A permutation within a smaller range is one within a larger range. */
  lemma PermutedWiden(a: seq<nat>, b: seq<nat>, lo: int, hi: int, lo': int, hi': int)
    requires PermutedWithin(a, b, lo, hi) && 0 <= lo' <= lo && hi <= hi' < |a|
    ensures PermutedWithin(a, b, lo', hi')
  {
  }

  /** The keys of the range itself are a permutation of the old ones. */
  lemma {:induction false} RangeMultiset(a: seq<nat>, b: seq<nat>, lo: int, hi: int)
    requires PermutedWithin(a, b, lo, hi) && lo <= hi + 1
    ensures multiset(b[lo..hi + 1]) == multiset(a[lo..hi + 1])
  {
    assert a[..lo] == b[..lo];
    assert a[hi + 1..] == b[hi + 1..];
    assert a == a[..lo] + a[lo..hi + 1] + a[hi + 1..];
    assert b == b[..lo] + b[lo..hi + 1] + b[hi + 1..];
    var P, Q := multiset(a[..lo]), multiset(a[hi + 1..]);
    var X, Y := multiset(a[lo..hi + 1]), multiset(b[lo..hi + 1]);
    assert P + X + Q == multiset(a) == multiset(b) == P + Y + Q;
    forall x ensures X[x] == Y[x] {
      assert (P + X + Q)[x] == (P + Y + Q)[x];
    }
    assert X == Y;
  }

  /** A bound that holds for every key of the range survives a permutation within it. */
  lemma {:induction false} UpperBoundKept(a: seq<nat>, b: seq<nat>, lo: int, hi: int, p: nat)
    requires PermutedWithin(a, b, lo, hi) && lo <= hi + 1
    requires forall k | lo <= k <= hi :: a[k] <= p
    ensures forall k | lo <= k <= hi :: b[k] <= p
  {
    RangeMultiset(a, b, lo, hi);
    forall k | lo <= k <= hi ensures b[k] <= p {
      assert b[k] == b[lo..hi + 1][k - lo];
      assert b[k] in multiset(a[lo..hi + 1]);
      var m :| 0 <= m < |a[lo..hi + 1]| && a[lo..hi + 1][m] == b[k];
      assert a[lo + m] == b[k];
    }
  }

  lemma {:induction false} LowerBoundKept(a: seq<nat>, b: seq<nat>, lo: int, hi: int, p: nat)
    requires PermutedWithin(a, b, lo, hi) && lo <= hi + 1
    requires forall k | lo <= k <= hi :: p <= a[k]
    ensures forall k | lo <= k <= hi :: p <= b[k]
  {
    RangeMultiset(a, b, lo, hi);
    forall k | lo <= k <= hi ensures p <= b[k] {
      assert b[k] == b[lo..hi + 1][k - lo];
      assert b[k] in multiset(a[lo..hi + 1]);
      var m :| 0 <= m < |a[lo..hi + 1]| && a[lo..hi + 1][m] == b[k];
      assert a[lo + m] == b[k];
    }
  }

  /**
   * The two sorted sides of a finished partition, with everything strictly
   * between them equal to the pivot, make the whole range sorted.
   */
  lemma JoinSorted(keys: seq<nat>, lo: int, j: int, i: int, hi: int, p: nat)
    requires 0 <= lo <= j < i <= hi < |keys|
    requires SortedRange(keys, lo, j) && SortedRange(keys, i, hi)
    requires forall k | lo <= k < i :: keys[k] <= p
    requires forall k | j < k <= hi :: p <= keys[k]
    ensures SortedRange(keys, lo, hi)
  {
  }

  /**
   * The recursion of the quicksort: a partition of k0 into k1, then the left
   * part sorted (k2), then the right part sorted (k3), give a sorted
   * permutation of k0 on the whole range.
   */
  lemma PartitionSorted(k0: seq<nat>, k1: seq<nat>, k2: seq<nat>, k3: seq<nat>,
                        lo: int, j: int, i: int, hi: int, p: nat)
    requires PermutedWithin(k0, k1, lo, hi) && Partitioned(k1, lo, j, i, hi, p)
    requires PermutedWithin(k1, k2, lo, j) && SortedRange(k2, lo, j)
    requires PermutedWithin(k2, k3, i, hi) && SortedRange(k3, i, hi)
    ensures PermutedWithin(k0, k3, lo, hi) && SortedRange(k3, lo, hi)
  {
    UpperBoundKept(k1, k2, lo, j, p);
    forall k | j < k < i ensures k2[k] <= p {
      assert k2[k] == k2[j + 1..][k - j - 1] == k1[j + 1..][k - j - 1];
    }
    forall k | j < k <= hi ensures p <= k2[k] {
      assert k2[k] == k2[j + 1..][k - j - 1] == k1[j + 1..][k - j - 1];
    }
    LowerBoundKept(k2, k3, i, hi, p);
    forall k | lo <= k < i ensures k3[k] <= p {
      assert k3[k] == k3[..i][k] == k2[..i][k];
    }
    forall k | j < k < i ensures p <= k3[k] {
      assert k3[k] == k3[..i][k] == k2[..i][k];
    }
    forall a, b | lo <= a <= b <= j ensures k3[a] <= k3[b] {
      assert k3[a] == k3[..i][a] == k2[..i][a];
      assert k3[b] == k3[..i][b] == k2[..i][b];
    }
    JoinSorted(k3, lo, j, i, hi, p);
    PermutedWiden(k1, k2, lo, j, lo, hi);
    PermutedWiden(k2, k3, i, hi, lo, hi);
    PermutedTrans(k0, k1, k2, lo, hi);
    PermutedTrans(k0, k2, k3, lo, hi);
  }
}
