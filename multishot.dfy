// The count bookkeeping of QUnit's `MultiShotMeasureMask`: every unit
// samples its own qubits, the unit's result keys are spread to the
// positions its qubits have in the caller's mask list, and the per-unit
// histograms are combined into one whose counts still add up to the number
// of shots.  The random draws are parameters.
module QUnitMultiShot {
  import opened Bits

  // ---------------------------------------------------------------------
  // Bits of a key.

  lemma {:induction false} TestBitOr(a: nat, b: nat, j: nat)
    ensures TestBit(Or(a, b), j) <==> TestBit(a, j) || TestBit(b, j)
    decreases a + b
  {
    if a == 0 {
      ZeroHasNoBits(j);
    } else if b == 0 {
      ZeroHasNoBits(j);
    } else if j > 0 {
      var bit := if a % 2 == 1 || b % 2 == 1 then 1 else 0;
      assert Or(a, b) == 2 * Or(a / 2, b / 2) + bit;
      assert Or(a, b) / 2 == Or(a / 2, b / 2);
      TestBitOr(a / 2, b / 2, j - 1);
    }
  }

  /** Two numbers with the same bits are equal. */
  lemma {:induction false} BitsEqual(x: nat, y: nat)
    requires forall j: nat :: TestBit(x, j) == TestBit(y, j)
    ensures x == y
    decreases x + y
  {
    if x != 0 || y != 0 {
      assert TestBit(x, 0) == TestBit(y, 0);
      forall j: nat
        ensures TestBit(x / 2, j) == TestBit(y / 2, j)
      {
        assert TestBit(x, j + 1) == TestBit(y, j + 1);
      }
      BitsEqual(x / 2, y / 2);
    }
  }

  /** A number below 2^n has no bit at n or above. */
  lemma {:induction false} TestBitAbove(x: nat, n: nat, j: nat)
    requires x < Pow2(n) && n <= j
    ensures !TestBit(x, j)
  {
    if n == 0 {
      assert x == 0;
      ZeroHasNoBits(j);
    } else {
      TestBitAbove(x / 2, n - 1, j - 1);
    }
  }

  /** Every set bit of k is at a position in P. */
  ghost predicate Within(k: nat, P: set<nat>)
  {
    forall j: nat :: TestBit(k, j) ==> j in P
  }

  /** OR-ing on a key whose bits lie elsewhere loses nothing: it can be undone. */
  lemma OrCancel(k1: nat, k2: nat, p: nat, A: set<nat>, B: set<nat>)
    requires Within(k1, A) && Within(k2, A) && Within(p, B) && A !! B
    requires Or(k1, p) == Or(k2, p)
    ensures k1 == k2
  {
    forall j: nat
      ensures TestBit(k1, j) == TestBit(k2, j)
    {
      TestBitOr(k1, p, j);
      TestBitOr(k2, p, j);
    }
    BitsEqual(k1, k2);
  }

  /** The bits of an OR lie where those of its operands do. */
  lemma OrWithin(a: nat, b: nat, A: set<nat>, B: set<nat>)
    requires Within(a, A) && Within(b, B)
    ensures Within(Or(a, b), A + B)
  {
    forall j: nat | TestBit(Or(a, b), j)
      ensures j in A + B
    {
      TestBitOr(a, b, j);
    }
  }

  // ---------------------------------------------------------------------
  // The key remap: bit i of a unit's key is the qubit the caller listed at
  // position pos[i], so it moves to bit pos[i] (`mask |= subIQPowers[i]`).

  /** The key of the caller's mask list for unit key `key`. */
  function Spread(key: nat, pos: seq<nat>): nat
  {
    if pos == [] then 0
    else Or(Spread(key, pos[..|pos| - 1]), if TestBit(key, |pos| - 1) then Pow2(pos[|pos| - 1]) else 0)
  }

  predicate DistinctPositions(pos: seq<nat>)
  {
    forall i, j :: 0 <= i < j < |pos| ==> pos[i] != pos[j]
  }

  /** Bit j of the spread key is set exactly when j is the position of a set bit of the unit key. */
  lemma {:induction false} SpreadBit(key: nat, pos: seq<nat>, j: nat)
    ensures TestBit(Spread(key, pos), j) <==> exists i :: 0 <= i < |pos| && pos[i] == j && TestBit(key, i)
  {
    if pos == [] {
      ZeroHasNoBits(j);
    } else {
      var n := |pos| - 1;
      var last := if TestBit(key, n) then Pow2(pos[n]) else 0;
      TestBitOr(Spread(key, pos[..n]), last, j);
      SpreadBit(key, pos[..n], j);
      if TestBit(key, n) {
        TestBitPow2(pos[n], j);
      } else {
        ZeroHasNoBits(j);
      }
      if exists i :: 0 <= i < |pos| && pos[i] == j && TestBit(key, i) {
        var i :| 0 <= i < |pos| && pos[i] == j && TestBit(key, i);
        if i < n {
          assert pos[..n][i] == j;
        }
      }
    }
  }

  /** The positions a list names. */
  ghost function PosSet(pos: seq<nat>): set<nat>
  {
    set i | 0 <= i < |pos| :: pos[i]
  }

  /** The spread key's bits lie at the listed positions. */
  lemma SpreadWithin(key: nat, pos: seq<nat>)
    ensures Within(Spread(key, pos), PosSet(pos))
  {
    forall j: nat | TestBit(Spread(key, pos), j)
      ensures j in PosSet(pos)
    {
      SpreadBit(key, pos, j);
    }
  }

  /** Distinct unit keys (of the unit's width) spread to distinct keys. */
  lemma SpreadInjective(k1: nat, k2: nat, pos: seq<nat>)
    requires DistinctPositions(pos) && k1 < Pow2(|pos|) && k2 < Pow2(|pos|)
    requires Spread(k1, pos) == Spread(k2, pos)
    ensures k1 == k2
  {
    forall j: nat
      ensures TestBit(k1, j) == TestBit(k2, j)
    {
      if j < |pos| {
        SpreadBit(k1, pos, pos[j]);
        SpreadBit(k2, pos, pos[j]);
      } else {
        TestBitAbove(k1, |pos|, j);
        TestBitAbove(k2, |pos|, j);
      }
    }
    BitsEqual(k1, k2);
  }

  /** The inner loop of the remap: `if ((key >> i) & 1) mask |= subIQPowers[i]`. */
  method RemapKey(key: nat, pos: seq<nat>) returns (mask: nat)
    ensures mask == Spread(key, pos)
  {
    mask := 0;
    var i := 0;
    while i < |pos|
      invariant i <= |pos| && mask == Spread(key, pos[..i])
    {
      assert pos[..i + 1][..i] == pos[..i];
      if TestBit(key, i) {
        mask := Or(mask, Pow2(pos[i]));
      } else {
        assert Or(mask, 0) == mask;
      }
      i := i + 1;
    }
    assert pos[..i] == pos;
  }

  // ---------------------------------------------------------------------
  // Histograms: a `std::map<bitCapInt, int>` from result key to count, as
  // its entries.

  datatype Entry = Entry(key: nat, count: nat)

  type Hist = seq<Entry>

  /** The number of shots a histogram records. */
  function Total(h: Hist): nat
  {
    if h == [] then 0 else h[0].count + Total(h[1..])
  }

  /** `h[k]` read: the count of key k, zero when k is absent. */
  function Lookup(h: Hist, k: nat): nat
  {
    if h == [] then 0 else if h[0].key == k then h[0].count else Lookup(h[1..], k)
  }

  function KeySet(h: Hist): set<nat>
  {
    set i | 0 <= i < |h| :: h[i].key
  }

  /** A map holds each key once. */
  predicate DistinctKeys(h: Hist)
  {
    forall i, j :: 0 <= i < j < |h| ==> h[i].key != h[j].key
  }

  /** Every key's bits lie at positions in P. */
  ghost predicate KeysWithin(h: Hist, P: set<nat>)
  {
    forall i :: 0 <= i < |h| ==> Within(h[i].key, P)
  }

  /** `h[k] = c`: overwrite the entry of k, or add one at the end. */
  function Put(h: Hist, k: nat, c: nat): Hist
  {
    if h == [] then [Entry(k, c)]
    else if h[0].key == k then [Entry(k, c)] + h[1..]
    else [h[0]] + Put(h[1..], k, c)
  }

  /** `h[k]++`. */
  function Increment(h: Hist, k: nat): Hist
  {
    Put(h, k, Lookup(h, k) + 1)
  }

  /** Assignment reads back as a map does. */
  lemma {:induction false} LookupPut(h: Hist, k: nat, c: nat, k': nat)
    ensures Lookup(Put(h, k, c), k') == if k' == k then c else Lookup(h, k')
  {
    if h != [] && h[0].key != k {
      LookupPut(h[1..], k, c, k');
      assert Put(h, k, c)[1..] == Put(h[1..], k, c);
    }
  }

  /** Assignment keeps the keys and adds k. */
  lemma {:induction false} KeySetPut(h: Hist, k: nat, c: nat)
    ensures KeySet(Put(h, k, c)) == KeySet(h) + {k}
  {
    if h != [] {
      assert h == [h[0]] + h[1..];
      KeySetCons(h[0], h[1..]);
      if h[0].key == k {
        assert Put(h, k, c) == [Entry(k, c)] + h[1..];
        KeySetCons(Entry(k, c), h[1..]);
      } else {
        assert Put(h, k, c) == [h[0]] + Put(h[1..], k, c);
        KeySetPut(h[1..], k, c);
        KeySetCons(h[0], Put(h[1..], k, c));
      }
    } else {
      assert KeySet(h) == {};
      assert Put(h, k, c) == [Entry(k, c)] + h;
      KeySetCons(Entry(k, c), h);
    }
  }

  lemma KeySetCons(e: Entry, h: Hist)
    ensures KeySet([e] + h) == KeySet(h) + {e.key}
  {
    var r := [e] + h;
    forall k | k in KeySet(r)
      ensures k in KeySet(h) + {e.key}
    {
      var i :| 0 <= i < |r| && r[i].key == k;
      if i > 0 {
        assert h[i - 1].key == k;
      }
    }
    forall k | k in KeySet(h)
      ensures k in KeySet(r)
    {
      var i :| 0 <= i < |h| && h[i].key == k;
      assert r[i + 1].key == k;
    }
    assert r[0].key == e.key;
  }

  /** Assigning to a fresh key appends its entry. */
  lemma {:induction false} PutFresh(h: Hist, k: nat, c: nat)
    requires k !in KeySet(h)
    ensures Put(h, k, c) == h + [Entry(k, c)]
  {
    if h != [] {
      assert h[0].key in KeySet(h);
      KeySetCons(h[0], h[1..]);
      assert h == [h[0]] + h[1..];
      PutFresh(h[1..], k, c);
    }
  }

  lemma {:induction false} TotalAppend(a: Hist, b: Hist)
    ensures Total(a + b) == Total(a) + Total(b)
  {
    if a == [] {
      assert a + b == b;
    } else {
      assert (a + b)[1..] == a[1..] + b;
      TotalAppend(a[1..], b);
    }
  }

  /** With each key held once, assignment replaces that key's count in the total. */
  lemma {:induction false} TotalPut(h: Hist, k: nat, c: nat)
    requires DistinctKeys(h)
    ensures Total(Put(h, k, c)) + Lookup(h, k) == Total(h) + c
  {
    if h != [] {
      if h[0].key == k {
        AbsentLookup(h[1..], k);
      } else {
        TotalPut(h[1..], k, c);
      }
    }
  }

  /** In a map that holds k once, at its head, the rest holds no k. */
  lemma AbsentLookup(t: Hist, k: nat)
    requires forall i :: 0 <= i < |t| ==> t[i].key != k
    ensures Lookup(t, k) == 0
  {
    if t != [] {
      AbsentLookup(t[1..], k);
    }
  }

  /** Assignment keeps each key held once. */
  lemma {:induction false} PutDistinct(h: Hist, k: nat, c: nat)
    requires DistinctKeys(h)
    ensures DistinctKeys(Put(h, k, c))
  {
    if h != [] {
      if h[0].key != k {
        PutDistinct(h[1..], k, c);
        KeySetPut(h[1..], k, c);
        var r := Put(h, k, c);
        assert r == [h[0]] + Put(h[1..], k, c);
        forall i | 0 < i < |r|
          ensures r[i].key != h[0].key
        {
          assert r[i].key in KeySet(Put(h[1..], k, c));
          if r[i].key in KeySet(h[1..]) {
            var j :| 0 <= j < |h[1..]| && h[1..][j].key == r[i].key;
            assert h[j + 1].key == r[i].key;
          }
        }
      }
    }
  }

  /** `h[k]++` records one more shot. */
  lemma IncrementFacts(h: Hist, k: nat)
    requires DistinctKeys(h)
    ensures Total(Increment(h, k)) == Total(h) + 1 && DistinctKeys(Increment(h, k))
    ensures KeySet(Increment(h, k)) == KeySet(h) + {k}
  {
    TotalPut(h, k, Lookup(h, k) + 1);
    PutDistinct(h, k, Lookup(h, k) + 1);
    KeySetPut(h, k, Lookup(h, k) + 1);
  }

  lemma TotalSingle(e: Entry)
    ensures Total([e]) == e.count
  {
    assert [e][1..] == [];
  }

  /** The shots recorded by the first i + 1 entries. */
  lemma PrefixStep(h: Hist, i: nat)
    requires i < |h|
    ensures Total(h[..i + 1]) == Total(h[..i]) + h[i].count
  {
    assert h[..i + 1] == h[..i] + [h[i]];
    TotalAppend(h[..i], [h[i]]);
    TotalSingle(h[i]);
  }

  lemma PrefixLe(h: Hist, i: nat)
    requires i <= |h|
    ensures Total(h[..i]) <= Total(h)
  {
    assert h == h[..i] + h[i..];
    TotalAppend(h[..i], h[i..]);
  }

  /** Entry w split off: what comes before, its count and what comes after. */
  lemma {:induction false} TotalAround(h: Hist, w: nat)
    requires w < |h|
    ensures Total(h) == Total(h[..w]) + h[w].count + Total(h[w + 1..])
  {
    var rest := [h[w]] + h[w + 1..];
    assert h == h[..w] + rest;
    TotalAppend(h[..w], rest);
    assert rest[0] == h[w] && rest[1..] == h[w + 1..];
  }

  // ---------------------------------------------------------------------
  // Rewriting every key: the remap of a unit's results, and OR-ing one key
  // onto every key.  Each writes `n[f(key)] = count` into a fresh map; when
  // f does not merge keys nothing is overwritten and the counts carry over.

  /**
   * The remap of a unit's results (`topLevelResults[mask] = count`): entry i
   * becomes the spread of its key with the same count.  The unit reports
   * keys of its own width, each once.
   */
  method RemapResults(unit: Hist, pos: seq<nat>) returns (top: Hist)
    requires DistinctKeys(unit) && DistinctPositions(pos)
    requires forall i :: 0 <= i < |unit| ==> unit[i].key < Pow2(|pos|)
    ensures |top| == |unit|
    ensures forall i :: 0 <= i < |top| ==> top[i] == Entry(Spread(unit[i].key, pos), unit[i].count)
    ensures DistinctKeys(top) && Total(top) == Total(unit)
  {
    top := [];
    for i := 0 to |unit|
      invariant |top| == i
      invariant forall j :: 0 <= j < i ==> top[j] == Entry(Spread(unit[j].key, pos), unit[j].count)
      invariant Total(top) == Total(unit[..i])
    {
      var mask := RemapKey(unit[i].key, pos);
      forall j | 0 <= j < i
        ensures top[j].key != mask
      {
        if top[j].key == mask {
          SpreadInjective(unit[j].key, unit[i].key, pos);
        }
      }
      PutFresh(top, mask, unit[i].count);
      TotalAppend(top, [Entry(mask, unit[i].count)]);
      TotalSingle(Entry(mask, unit[i].count));
      PrefixStep(unit, i);
      top := Put(top, mask, unit[i].count);
    }
    assert unit[..|unit|] == unit;
    forall i, j | 0 <= i < j < |top|
      ensures top[i].key != top[j].key
    {
      if top[i].key == top[j].key {
        SpreadInjective(unit[i].key, unit[j].key, pos);
      }
    }
  }

  /**
   * `n[key | p] = count` for every entry: with the keys' bits (in A) apart
   * from p's (in B), every entry keeps its count under its new key.
   */
  method OrKeys(h: Hist, p: nat, ghost A: set<nat>, ghost B: set<nat>) returns (n: Hist)
    requires DistinctKeys(h) && KeysWithin(h, A) && Within(p, B) && A !! B
    ensures |n| == |h|
    ensures forall i :: 0 <= i < |n| ==> n[i] == Entry(Or(h[i].key, p), h[i].count)
    ensures DistinctKeys(n) && Total(n) == Total(h) && KeysWithin(n, A + B)
  {
    n := [];
    for i := 0 to |h|
      invariant |n| == i
      invariant forall j :: 0 <= j < i ==> n[j] == Entry(Or(h[j].key, p), h[j].count)
      invariant Total(n) == Total(h[..i])
    {
      var key := Or(h[i].key, p);
      forall j | 0 <= j < i
        ensures n[j].key != key
      {
        if n[j].key == key {
          OrCancel(h[j].key, h[i].key, p, A, B);
        }
      }
      PutFresh(n, key, h[i].count);
      TotalAppend(n, [Entry(key, h[i].count)]);
      TotalSingle(Entry(key, h[i].count));
      PrefixStep(h, i);
      n := Put(n, key, h[i].count);
    }
    assert h[..|h|] == h;
    forall i, j | 0 <= i < j < |n|
      ensures n[i].key != n[j].key
    {
      if n[i].key == n[j].key {
        OrCancel(h[i].key, h[j].key, p, A, B);
      }
    }
    forall i | 0 <= i < |n|
      ensures Within(n[i].key, A + B)
    {
      OrWithin(h[i].key, p, A, B);
    }
  }

  // ---------------------------------------------------------------------
  // Shots one by one: a histogram expanded to the key of every shot it
  // records, and a histogram counted back from such a list of keys.

  /** `count` copies of `key`. */
  function Repeat(key: nat, count: nat): (r: seq<nat>)
    ensures |r| == count && forall i :: 0 <= i < count ==> r[i] == key
  {
    if count == 0 then [] else Repeat(key, count - 1) + [key]
  }

  /** The key of every shot a histogram records, entry by entry. */
  function Expand(h: Hist): seq<nat>
  {
    if h == [] then [] else Repeat(h[0].key, h[0].count) + Expand(h[1..])
  }

  /** The histogram of a list of shot keys: `n[key]++` for each in turn. */
  function HistOf(ks: seq<nat>): Hist
  {
    if ks == [] then [] else Increment(HistOf(ks[..|ks| - 1]), ks[|ks| - 1])
  }

  lemma {:induction false} ExpandLength(h: Hist)
    ensures |Expand(h)| == Total(h)
  {
    if h != [] {
      ExpandLength(h[1..]);
    }
  }

  lemma {:induction false} ExpandAppend(a: Hist, b: Hist)
    ensures Expand(a + b) == Expand(a) + Expand(b)
  {
    if a == [] {
      assert a + b == b;
    } else {
      assert (a + b)[1..] == a[1..] + b;
      ExpandAppend(a[1..], b);
    }
  }

  lemma ExpandPrefixStep(h: Hist, i: nat)
    requires i < |h|
    ensures Expand(h[..i + 1]) == Expand(h[..i]) + Repeat(h[i].key, h[i].count)
  {
    assert h[..i + 1] == h[..i] + [h[i]];
    ExpandAppend(h[..i], [h[i]]);
    assert [h[i]][1..] == [];
  }

  lemma {:induction false} ExpandAround(h: Hist, w: nat)
    requires w < |h|
    ensures Expand(h) == Expand(h[..w]) + Repeat(h[w].key, h[w].count) + Expand(h[w + 1..])
  {
    var rest := [h[w]] + h[w + 1..];
    assert h == h[..w] + rest;
    ExpandAppend(h[..w], rest);
    assert rest[0] == h[w] && rest[1..] == h[w + 1..];
    assert Expand(rest) == Repeat(h[w].key, h[w].count) + Expand(h[w + 1..]);
  }

  /** The shots of an entry's key, counted in the expansion, are the entry's count. */
  lemma {:induction false} RepeatCount(key: nat, count: nat, k: nat)
    ensures multiset(Repeat(key, count))[k] == if k == key then count else 0
  {
    if count > 0 {
      RepeatCount(key, count - 1, k);
    }
  }

  /** With each key held once, the expansion holds key k exactly `h[k]` times. */
  lemma {:induction false} ExpandCount(h: Hist, k: nat)
    requires DistinctKeys(h)
    ensures multiset(Expand(h))[k] == Lookup(h, k)
  {
    if h != [] {
      RepeatCount(h[0].key, h[0].count, k);
      ExpandCount(h[1..], k);
      if h[0].key == k {
        AbsentLookup(h[1..], k);
      }
    }
  }

  /** A draw removes one shot of the drawn key from the expansion. */
  lemma ExpandDraw(top: Hist, w: nat)
    requires w < |top| && top[w].count > 0
    ensures multiset(Expand(Draw(top, w))) + multiset{top[w].key} == multiset(Expand(top))
  {
    var r := Draw(top, w);
    var k, c := top[w].key, top[w].count;
    ExpandAround(top, w);
    assert Repeat(k, c) == Repeat(k, c - 1) + [k];
    if c == 1 {
      ExpandAppend(top[..w], top[w + 1..]);
    } else {
      ExpandAround(r, w);
      assert r[..w] == top[..w] && r[w + 1..] == top[w + 1..];
    }
  }

  /** Counting a list of keys gives a map with each key once, one shot per key listed. */
  lemma {:induction false} HistOfFacts(ks: seq<nat>)
    ensures DistinctKeys(HistOf(ks)) && Total(HistOf(ks)) == |ks|
    ensures forall k :: Lookup(HistOf(ks), k) == multiset(ks)[k]
  {
    if ks != [] {
      var init, x := ks[..|ks| - 1], ks[|ks| - 1];
      HistOfFacts(init);
      var h := HistOf(init);
      IncrementFacts(h, x);
      assert ks == init + [x];
      forall k
        ensures Lookup(HistOf(ks), k) == multiset(ks)[k]
      {
        LookupPut(h, x, Lookup(h, x) + 1, k);
      }
    }
  }

  lemma HistOfAppend(ks: seq<nat>, x: nat)
    ensures HistOf(ks + [x]) == Increment(HistOf(ks), x)
  {
    assert (ks + [x])[..|ks|] == ks;
  }

  /**
   * One shot of a combination: the key the shot has in the map being
   * walked and the key it is combined with.
   */
  datatype Shot = Shot(key: nat, drawn: nat)

  function Keys(ss: seq<Shot>): (r: seq<nat>)
    ensures |r| == |ss|
  {
    if ss == [] then [] else Keys(ss[..|ss| - 1]) + [ss[|ss| - 1].key]
  }

  function DrawnKeys(ss: seq<Shot>): (r: seq<nat>)
    ensures |r| == |ss|
  {
    if ss == [] then [] else DrawnKeys(ss[..|ss| - 1]) + [ss[|ss| - 1].drawn]
  }

  /** The key each shot is recorded under: `key | drawn`. */
  function Joined(ss: seq<Shot>): (r: seq<nat>)
    ensures |r| == |ss|
  {
    if ss == [] then [] else Joined(ss[..|ss| - 1]) + [Or(ss[|ss| - 1].key, ss[|ss| - 1].drawn)]
  }

  lemma ShotsAppend(ss: seq<Shot>, s: Shot)
    ensures Keys(ss + [s]) == Keys(ss) + [s.key]
    ensures DrawnKeys(ss + [s]) == DrawnKeys(ss) + [s.drawn]
    ensures Joined(ss + [s]) == Joined(ss) + [Or(s.key, s.drawn)]
  {
    assert (ss + [s])[..|ss|] == ss;
  }

  // ---------------------------------------------------------------------
  // The random pairing: each shot of the larger map is paired with a shot
  // drawn without replacement from the smaller one.  `pick` is the draw
  // `(int)(shotsLeft * Rand())`, clamped to shotsLeft - 1.

  /** Once the prefix is the whole map, its total is the map's. */
  lemma PrefixAll(h: Hist, i: nat)
    requires i <= |h|
    ensures i == |h| ==> Total(h[..i]) == Total(h)
  {
    if i == |h| {
      assert h[..i] == h;
    }
  }

  /**
   * The walk to the drawn entry as written (`while (pick > count)`): the
   * entry reached is the first whose running total reaches the draw, so
   * the first entry answers one draw more than its count and the last one
   * fewer.
   */
  method WalkAsWritten(top: Hist, pick: nat) returns (w: nat)
    requires pick < Total(top)
    ensures w < |top| && pick <= Total(top[..w + 1]) && (w > 0 ==> Total(top[..w]) < pick)
  {
    w := 0;
    var count := top[0].count;
    PrefixStep(top, 0);
    while pick > count
      invariant w < |top| && count == Total(top[..w + 1]) && (w > 0 ==> Total(top[..w]) < pick)
      decreases |top| - w
    {
      PrefixAll(top, w + 1);
      w := w + 1;
      PrefixStep(top, w);
      count := count + top[w].count;
    }
  }

  /**
   * The walk as intended (`while (pick >= count)`): the entry reached is the
   * one whose run of shots contains the draw, so each entry answers exactly
   * as many draws as it has shots left.
   */
  method Walk(top: Hist, pick: nat) returns (w: nat)
    requires pick < Total(top)
    ensures w < |top| && Total(top[..w]) <= pick < Total(top[..w + 1])
    ensures top[w].count > 0
  {
    w := 0;
    var count := top[0].count;
    PrefixStep(top, 0);
    while pick >= count
      invariant w < |top| && count == Total(top[..w + 1]) && Total(top[..w]) <= pick
      decreases |top| - w
    {
      PrefixAll(top, w + 1);
      w := w + 1;
      PrefixStep(top, w);
      count := count + top[w].count;
    }
    PrefixStep(top, w);
  }

  /**
   * Two entries of one shot each, two shots left, draw 1: as written the
   * walk stops at the first entry, which then answers draws 0 and 1; as
   * intended it reaches the second.
   */
  method WalkBias() returns (asWritten: nat, intended: nat)
    ensures asWritten == 0 && intended == 1
  {
    var top := [Entry(1, 1), Entry(2, 1)];
    assert Total(top[..1]) == 1 by {
      TotalSingle(top[0]);
      assert top[..1] == [top[0]];
    }
    assert Total(top) == 2 by {
      PrefixStep(top, 1);
      assert top[..2] == top;
    }
    asWritten := WalkAsWritten(top, 1);
    intended := Walk(top, 1);
  }

  /** One shot of entry w drawn: its count drops by one and the entry goes when it reaches zero. */
  function Draw(top: Hist, w: nat): (r: Hist)
    requires w < |top| && top[w].count > 0
  {
    if top[w].count == 1 then top[..w] + top[w + 1..]
    else top[w := Entry(top[w].key, top[w].count - 1)]
  }

  /** A draw takes one shot and keeps only keys that were there. */
  lemma DrawFacts(top: Hist, w: nat)
    requires w < |top| && top[w].count > 0
    ensures Total(Draw(top, w)) + 1 == Total(top)
    ensures forall i :: 0 <= i < |Draw(top, w)| ==> Draw(top, w)[i].key in KeySet(top)
  {
    var r := Draw(top, w);
    TotalAround(top, w);
    if top[w].count == 1 {
      TotalAppend(top[..w], top[w + 1..]);
      forall i | 0 <= i < |r|
        ensures r[i].key in KeySet(top)
      {
        if i < w {
          assert r[i] == top[i];
        } else {
          assert r[i] == top[i + 1];
        }
      }
    } else {
      TotalAround(r, w);
      assert r[..w] == top[..w] && r[w + 1..] == top[w + 1..];
      forall i | 0 <= i < |r|
        ensures r[i].key in KeySet(top)
      {
        assert r[i].key == top[i].key;
      }
    }
  }

  /** What the pairing has done after its first shots: the shots listed so far. */
  ghost predicate Paired(large: Hist, small: Hist, ss: seq<Shot>, done: seq<nat>, top: Hist, n: Hist, A: set<nat>, B: set<nat>)
  {
    && Keys(ss) == done
    && multiset(DrawnKeys(ss)) + multiset(Expand(top)) == multiset(Expand(small))
    && n == HistOf(Joined(ss))
    && KeysWithin(top, B) && KeysWithin(n, A + B)
    && Total(top) + |ss| == Total(small)
  }

  /**
   * One shot of the pairing: draw from `top` and record `key | drawnKey`.
   * The shot joins the list with its own key and the key drawn.
   */
  method PairShot(large: Hist, small: Hist, key: nat, draw: nat, top: Hist, n: Hist,
                  ghost ss: seq<Shot>, ghost prefix: seq<nat>, shot: nat, ghost A: set<nat>, ghost B: set<nat>)
    returns (top': Hist, n': Hist, ghost ss': seq<Shot>)
    requires Paired(large, small, ss, prefix + Repeat(key, shot), top, n, A, B)
    requires Within(key, A) && |ss| < Total(small)
    ensures Paired(large, small, ss', prefix + Repeat(key, shot + 1), top', n', A, B)
    ensures |ss'| == |ss| + 1
  {
    var shotsLeft := Total(top);
    var pick := if draw >= shotsLeft then shotsLeft - 1 else draw;
    var w := Walk(top, pick);
    PairedStep(large, small, ss, prefix, key, shot, top, n, w, A, B);
    ss' := ss + [Shot(key, top[w].key)];
    n' := Increment(n, Or(key, top[w].key));
    top' := Draw(top, w);
  }

  lemma PairedStep(large: Hist, small: Hist, ss: seq<Shot>, prefix: seq<nat>, key: nat, shot: nat,
                   top: Hist, n: Hist, w: nat, A: set<nat>, B: set<nat>)
    requires Paired(large, small, ss, prefix + Repeat(key, shot), top, n, A, B)
    requires Within(key, A) && w < |top| && top[w].count > 0
    ensures Paired(large, small, ss + [Shot(key, top[w].key)], prefix + Repeat(key, shot + 1),
                   Draw(top, w), Increment(n, Or(key, top[w].key)), A, B)
  {
    var s := Shot(key, top[w].key);
    ShotKeys(ss, s, prefix, shot);
    ShotDrawn(ss, s, small, top, w);
    ShotJoined(ss, s, n);
    DrawFacts(top, w);
    KeysWithinSub(top, Draw(top, w), B);
    HistOfFacts(Joined(ss));
    JoinedWithin(n, key, top[w].key, A, B);
  }

  lemma ShotKeys(ss: seq<Shot>, s: Shot, prefix: seq<nat>, shot: nat)
    requires Keys(ss) == prefix + Repeat(s.key, shot)
    ensures Keys(ss + [s]) == prefix + Repeat(s.key, shot + 1)
  {
    ShotsAppend(ss, s);
    assert (prefix + Repeat(s.key, shot)) + [s.key] == prefix + Repeat(s.key, shot + 1);
  }

  lemma ShotDrawn(ss: seq<Shot>, s: Shot, small: Hist, top: Hist, w: nat)
    requires w < |top| && top[w].count > 0 && s.drawn == top[w].key
    requires multiset(DrawnKeys(ss)) + multiset(Expand(top)) == multiset(Expand(small))
    ensures multiset(DrawnKeys(ss + [s])) + multiset(Expand(Draw(top, w))) == multiset(Expand(small))
  {
    ShotsAppend(ss, s);
    ExpandDraw(top, w);
  }

  lemma ShotJoined(ss: seq<Shot>, s: Shot, n: Hist)
    requires n == HistOf(Joined(ss))
    ensures Increment(n, Or(s.key, s.drawn)) == HistOf(Joined(ss + [s]))
  {
    ShotsAppend(ss, s);
    HistOfAppend(Joined(ss), Or(s.key, s.drawn));
  }

  lemma JoinedWithin(n: Hist, key: nat, drawn: nat, A: set<nat>, B: set<nat>)
    requires DistinctKeys(n) && KeysWithin(n, A + B) && Within(key, A) && Within(drawn, B)
    ensures KeysWithin(Increment(n, Or(key, drawn)), A + B)
  {
    OrWithin(key, drawn, A, B);
    IncrementFacts(n, Or(key, drawn));
    KeysWithinAdd(n, Increment(n, Or(key, drawn)), Or(key, drawn), A + B);
  }

  /**
   * The random pairing: for every shot of `large`, in order, a shot of
   * `small` is drawn without replacement and `n[key | drawnKey]++`.  The
   * shots it makes take their keys from `large`'s shots in order and draw
   * every shot of `small` once, so each side's counts are the marginals of
   * the result.
   */
  method Pair(large: Hist, small: Hist, draws: seq<nat>, ghost A: set<nat>, ghost B: set<nat>)
    returns (n: Hist, ghost ss: seq<Shot>)
    requires Total(small) == Total(large) && |draws| >= Total(large)
    requires KeysWithin(large, A) && KeysWithin(small, B)
    ensures Keys(ss) == Expand(large) && multiset(DrawnKeys(ss)) == multiset(Expand(small))
    ensures n == HistOf(Joined(ss))
    ensures Total(n) == Total(large) && DistinctKeys(n) && KeysWithin(n, A + B)
  {
    var top := small;
    n, ss := [], [];
    var t := 0;
    for i := 0 to |large|
      invariant t == Total(large[..i]) && |ss| == t
      invariant Paired(large, small, ss, Expand(large[..i]), top, n, A, B)
    {
      top, n, ss, t := PairEntry(large, small, i, draws, top, n, ss, t, A, B);
    }
    assert large[..|large|] == large;
    ExpandLength(top);
    HistOfFacts(Joined(ss));
  }

  /** The shots of entry i of `large`: `for (shot = 0; shot < mapIter->second; shot++)`. */
  method PairEntry(large: Hist, small: Hist, i: nat, draws: seq<nat>, top: Hist, n: Hist,
                   ghost ss: seq<Shot>, t: nat, ghost A: set<nat>, ghost B: set<nat>)
    returns (top': Hist, n': Hist, ghost ss': seq<Shot>, t': nat)
    requires i < |large| && Total(small) == Total(large) && |draws| >= Total(large) && KeysWithin(large, A)
    requires t == Total(large[..i]) && |ss| == t
    requires Paired(large, small, ss, Expand(large[..i]), top, n, A, B)
    ensures t' == Total(large[..i + 1]) && |ss'| == t'
    ensures Paired(large, small, ss', Expand(large[..i + 1]), top', n', A, B)
  {
    PrefixStep(large, i);
    PrefixLe(large, i + 1);
    ExpandPrefixStep(large, i);
    var key := large[i].key;
    ghost var prefix := Expand(large[..i]);
    assert prefix + Repeat(key, 0) == prefix;
    top', n', ss', t' := top, n, ss, t;
    for shot := 0 to large[i].count
      invariant t' == Total(large[..i]) + shot && |ss'| == t'
      invariant Paired(large, small, ss', prefix + Repeat(key, shot), top', n', A, B)
    {
      top', n', ss' := PairShot(large, small, key, draws[t'], top', n', ss', prefix, shot, A, B);
      t' := t' + 1;
    }
  }

  /** With each key once on both sides, the pairing's two marginals are the two maps' counts. */
  lemma PairMarginals(large: Hist, small: Hist, ss: seq<Shot>, k: nat)
    requires DistinctKeys(large) && DistinctKeys(small)
    requires Keys(ss) == Expand(large) && multiset(DrawnKeys(ss)) == multiset(Expand(small))
    ensures multiset(Keys(ss))[k] == Lookup(large, k)
    ensures multiset(DrawnKeys(ss))[k] == Lookup(small, k)
  {
    ExpandCount(large, k);
    ExpandCount(small, k);
  }

  // ---------------------------------------------------------------------
  // A listed qubit that no unit holds: each shot reads it as 0 or 1.

  /** The shots of the single-bit pass so far: each shot's key, and 0 or p by its coin. */
  ghost predicate Split(ss: seq<Shot>, done: seq<nat>, n: Hist, coins: seq<bool>, p: nat, P: set<nat>)
  {
    && Keys(ss) == done && n == HistOf(Joined(ss)) && |ss| <= |coins|
    && (forall j :: 0 <= j < |ss| ==> ss[j].drawn == if coins[j] then 0 else p)
    && KeysWithin(n, P)
  }

  lemma ZeroWithin(P: set<nat>)
    ensures Within(0, P)
  {
    forall j: nat
      ensures !TestBit(0, j)
    {
      ZeroHasNoBits(j);
    }
  }

  lemma Pow2Within(bit: nat)
    ensures Within(Pow2(bit), {bit})
  {
    forall j: nat | TestBit(Pow2(bit), j)
      ensures j in {bit}
    {
      TestBitPow2(bit, j);
    }
  }

  lemma SplitStep(ss: seq<Shot>, prefix: seq<nat>, key: nat, shot: nat, n: Hist, coins: seq<bool>,
                  bit: nat, A: set<nat>)
    requires Split(ss, prefix + Repeat(key, shot), n, coins, Pow2(bit), A + {bit})
    requires Within(key, A) && |ss| < |coins|
    ensures var s := Shot(key, if coins[|ss|] then 0 else Pow2(bit));
      Split(ss + [s], prefix + Repeat(key, shot + 1), Increment(n, Or(s.key, s.drawn)), coins, Pow2(bit), A + {bit})
  {
    var s := Shot(key, if coins[|ss|] then 0 else Pow2(bit));
    ShotKeys(ss, s, prefix, shot);
    ShotJoined(ss, s, n);
    ShotCoin(ss, s, coins, Pow2(bit));
    HistOfFacts(Joined(ss));
    ZeroWithin({bit});
    Pow2Within(bit);
    JoinedWithin(n, key, s.drawn, A, {bit});
  }

  lemma ShotCoin(ss: seq<Shot>, s: Shot, coins: seq<bool>, p: nat)
    requires |ss| < |coins| && forall j :: 0 <= j < |ss| ==> ss[j].drawn == if coins[j] then 0 else p
    requires s.drawn == if coins[|ss|] then 0 else p
    ensures forall j :: 0 <= j < |ss + [s]| ==> (ss + [s])[j].drawn == if coins[j] then 0 else p
  {
  }

  /** The shots of entry i: `for (shot = 0; shot < mapIter->second; shot++)`, each by its coin. */
  method SplitEntry(h: Hist, i: nat, coins: seq<bool>, bit: nat, n: Hist, ghost ss: seq<Shot>, t: nat, ghost A: set<nat>)
    returns (n': Hist, ghost ss': seq<Shot>, t': nat)
    requires i < |h| && |coins| >= Total(h) && KeysWithin(h, A)
    requires t == Total(h[..i]) && |ss| == t
    requires Split(ss, Expand(h[..i]), n, coins, Pow2(bit), A + {bit})
    ensures t' == Total(h[..i + 1]) && |ss'| == t'
    ensures Split(ss', Expand(h[..i + 1]), n', coins, Pow2(bit), A + {bit})
  {
    PrefixStep(h, i);
    PrefixLe(h, i + 1);
    ExpandPrefixStep(h, i);
    var key := h[i].key;
    ghost var prefix := Expand(h[..i]);
    assert prefix + Repeat(key, 0) == prefix;
    n', ss', t' := n, ss, t;
    for shot := 0 to h[i].count
      invariant t' == Total(h[..i]) + shot && |ss'| == t'
      invariant Split(ss', prefix + Repeat(key, shot), n', coins, Pow2(bit), A + {bit})
    {
      SplitStep(ss', prefix, key, shot, n', coins, bit, A);
      var perm := if coins[t'] then key else Or(key, Pow2(bit));
      n' := Increment(n', perm);
      ss' := ss' + [Shot(key, if coins[t'] then 0 else Pow2(bit))];
      t' := t' + 1;
    }
  }

  /**
   * A listed qubit no unit holds, at position `bit` of the mask list and
   * reading 1 with probability `prob`: a certain 0 changes nothing, a
   * certain 1 sets the bit in every key, and otherwise each shot keeps its
   * key or gains the bit as its coin says (`Rand() > prob` reads 0).
   */
  method SingleBit(h: Hist, bit: nat, prob: real, coins: seq<bool>, ghost A: set<nat>)
    returns (n: Hist, ghost ss: seq<Shot>)
    requires DistinctKeys(h) && KeysWithin(h, A) && bit !in A && |coins| >= Total(h)
    ensures Total(n) == Total(h) && DistinctKeys(n) && KeysWithin(n, A + {bit})
    ensures prob == 0.0 ==> n == h
    ensures prob == 1.0 ==> |n| == |h| && forall i :: 0 <= i < |n| ==> n[i] == Entry(Or(h[i].key, Pow2(bit)), h[i].count)
    ensures prob != 0.0 && prob != 1.0 ==>
      && Keys(ss) == Expand(h) && n == HistOf(Joined(ss)) && |ss| <= |coins|
      && forall j :: 0 <= j < |ss| ==> ss[j].drawn == if coins[j] then 0 else Pow2(bit)
  {
    ss := [];
    if prob == 0.0 {
      KeysWithinMono(h, A, A + {bit});
      return h, ss;
    }
    if prob == 1.0 {
      Pow2Within(bit);
      n := OrKeys(h, Pow2(bit), A, {bit});
      return;
    }
    n := [];
    var t := 0;
    for i := 0 to |h|
      invariant t == Total(h[..i]) && |ss| == t
      invariant Split(ss, Expand(h[..i]), n, coins, Pow2(bit), A + {bit})
    {
      n, ss, t := SplitEntry(h, i, coins, bit, n, ss, t, A);
    }
    assert h[..|h|] == h;
    HistOfFacts(Joined(ss));
  }

  lemma KeysWithinMono(h: Hist, P: set<nat>, Q: set<nat>)
    requires KeysWithin(h, P) && P <= Q
    ensures KeysWithin(h, Q)
  {
  }

  // ---------------------------------------------------------------------
  // The whole combination.

  /**
   * One unit's results merged into the combined map: a map that is all |0>
   * (`m[0] == shots`) leaves the other as it is, a map of one key ORs it
   * onto every key of the other, and otherwise the map with fewer keys is
   * paired shot by shot with the other.
   */
  method Combine(combined: Hist, top: Hist, shots: nat, draws: seq<nat>, ghost A: set<nat>, ghost B: set<nat>)
    returns (n: Hist)
    requires shots > 0 && Total(combined) == shots && Total(top) == shots && |draws| >= shots
    requires DistinctKeys(combined) && DistinctKeys(top)
    requires KeysWithin(combined, A) && KeysWithin(top, B) && A !! B
    ensures Total(n) == shots && DistinctKeys(n) && KeysWithin(n, A + B)
    ensures Lookup(top, 0) == shots ==> n == combined
    ensures Lookup(top, 0) != shots && Lookup(combined, 0) == shots ==> n == top
  {
    if Lookup(top, 0) == shots {
      KeysWithinMono(combined, A, A + B);
      return combined;
    }
    if Lookup(combined, 0) == shots {
      KeysWithinMono(top, B, A + B);
      return top;
    }
    var large, small := combined, top;
    ghost var lA, sB := A, B;
    if |combined| < |top| {
      large, small := top, combined;
      lA, sB := B, A;
    }
    assert lA + sB == A + B;
    if |small| == 1 {
      n := OrKeys(large, small[0].key, lA, sB);
    } else {
      ghost var ss;
      n, ss := Pair(large, small, draws, lA, sB);
    }
  }

  /** The positions the units' groups cover, the first k of them. */
  ghost function Covered(groups: seq<seq<nat>>, k: nat): set<nat>
    requires k <= |groups|
  {
    if k == 0 then {} else Covered(groups, k - 1) + PosSet(groups[k - 1])
  }

  /**
   * Every position of the mask list is listed once: in the group of the
   * unit that holds its qubit, or among the qubits no unit holds.
   */
  predicate Partitioned(groups: seq<seq<nat>>, singles: seq<nat>)
  {
    && (forall g, h, i, j ::
          (0 <= g < |groups| && 0 <= h < |groups| && 0 <= i < |groups[g]| && 0 <= j < |groups[h]| && (g != h || i != j))
          ==> groups[g][i] != groups[h][j])
    && DistinctPositions(singles)
    && (forall g, i, t :: 0 <= g < |groups| && 0 <= i < |groups[g]| && 0 <= t < |singles| ==> groups[g][i] != singles[t])
  }

  /** What a unit reports for its group: each key once, of the group's width, `shots` in all. */
  predicate UnitReport(h: Hist, pos: seq<nat>, shots: nat)
  {
    DistinctKeys(h) && Total(h) == shots && forall i :: 0 <= i < |h| ==> h[i].key < Pow2(|pos|)
  }

  lemma {:induction false} CoveredApart(groups: seq<seq<nat>>, singles: seq<nat>, k: nat, m: nat)
    requires Partitioned(groups, singles) && k <= m < |groups|
    ensures PosSet(groups[m]) !! Covered(groups, k)
  {
    if k > 0 {
      CoveredApart(groups, singles, k - 1, m);
      forall x | x in PosSet(groups[m])
        ensures x !in PosSet(groups[k - 1])
      {
        var i :| 0 <= i < |groups[m]| && groups[m][i] == x;
        var prev := groups[k - 1];
        assert forall j :: 0 <= j < |prev| ==> prev[j] != groups[m][i];
      }
    }
  }

  lemma {:induction false} CoveredSingles(groups: seq<seq<nat>>, singles: seq<nat>, k: nat, t: nat)
    requires Partitioned(groups, singles) && k <= |groups| && t < |singles|
    ensures singles[t] !in Covered(groups, k)
  {
    if k > 0 {
      CoveredSingles(groups, singles, k - 1, t);
      var prev := groups[k - 1];
      assert forall i :: 0 <= i < |prev| ==> prev[i] != singles[t];
    }
  }

  lemma SinglesStep(singles: seq<nat>, t: nat)
    requires t < |singles| && DistinctPositions(singles)
    ensures PosSet(singles[..t + 1]) == PosSet(singles[..t]) + {singles[t]}
    ensures singles[t] !in PosSet(singles[..t])
  {
    assert singles[..t + 1][t] == singles[t];
    forall x | x in PosSet(singles[..t + 1])
      ensures x in PosSet(singles[..t]) + {singles[t]}
    {
      var i :| 0 <= i < t + 1 && singles[..t + 1][i] == x;
      if i < t {
        assert singles[..t][i] == x;
      }
    }
    forall x | x in PosSet(singles[..t])
      ensures x in PosSet(singles[..t + 1])
    {
      var i :| 0 <= i < t && singles[..t][i] == x;
      assert singles[..t + 1][i] == x;
    }
  }

  lemma RemapWithin(unit: Hist, pos: seq<nat>, top: Hist)
    requires |top| == |unit| && forall i :: 0 <= i < |top| ==> top[i] == Entry(Spread(unit[i].key, pos), unit[i].count)
    ensures KeysWithin(top, PosSet(pos))
  {
    forall i | 0 <= i < |top|
      ensures Within(top[i].key, PosSet(pos))
    {
      SpreadWithin(unit[i].key, pos);
    }
  }

  /**
   * `MultiShotMeasureMask(qPowers, qPowerCount, shots)` once the listed
   * qubits are grouped: `groups[g]` are the mask-list positions of the
   * qubits unit g holds and `unitResults[g]` what that unit reports for
   * them, `singles` the positions of qubits no unit holds, with their
   * probabilities of reading 1.  Starting from all shots at key 0, each
   * unit's remapped results are combined in, then each single qubit; the
   * result still records `shots` shots, each key once, with bits only at
   * listed positions.
   */
  method MultiShotMeasureMask(shots: nat, groups: seq<seq<nat>>, unitResults: seq<Hist>, draws: seq<seq<nat>>,
                              singles: seq<nat>, probs: seq<real>, coins: seq<seq<bool>>)
    returns (r: Hist)
    requires |unitResults| == |groups| && |draws| == |groups| && |probs| == |singles| && |coins| == |singles|
    requires Partitioned(groups, singles)
    requires forall g :: 0 <= g < |groups| ==> UnitReport(unitResults[g], groups[g], shots) && |draws[g]| >= shots
    requires forall t :: 0 <= t < |singles| ==> |coins[t]| >= shots
    ensures shots == 0 ==> r == []
    ensures shots > 0 ==> Total(r) == shots && DistinctKeys(r) && KeysWithin(r, Covered(groups, |groups|) + PosSet(singles))
  {
    if shots == 0 {
      return [];
    }
    r := [Entry(0, shots)];
    TotalSingle(Entry(0, shots));
    ZeroWithin({});
    for g := 0 to |groups|
      invariant Total(r) == shots && DistinctKeys(r) && KeysWithin(r, Covered(groups, g))
    {
      var pos := groups[g];
      assert DistinctPositions(pos) by {
        forall i, j | 0 <= i < j < |pos|
          ensures pos[i] != pos[j]
        {
          assert groups[g][i] != groups[g][j];
        }
      }
      var top := RemapResults(unitResults[g], pos);
      RemapWithin(unitResults[g], pos, top);
      CoveredApart(groups, singles, g, g);
      r := Combine(r, top, shots, draws[g], Covered(groups, g), PosSet(pos));
    }
    ghost var C := Covered(groups, |groups|);
    assert singles[..0] == [];
    assert C + PosSet(singles[..0]) == C;
    for t := 0 to |singles|
      invariant Total(r) == shots && DistinctKeys(r) && KeysWithin(r, C + PosSet(singles[..t]))
    {
      SinglesStep(singles, t);
      CoveredSingles(groups, singles, |groups|, t);
      ghost var ss;
      r, ss := SingleBit(r, singles[t], probs[t], coins[t], C + PosSet(singles[..t]));
      assert C + PosSet(singles[..t]) + {singles[t]} == C + PosSet(singles[..t + 1]);
    }
    assert singles[..|singles|] == singles;
  }

  /** `(unsigned)key`: the low 32 bits of a key. */
  function Unsigned(k: nat): (r: nat)
    ensures r < 0x1_0000_0000 && (k < 0x1_0000_0000 ==> r == k)
  {
    k % 0x1_0000_0000
  }

  /** Entry e's shots sit in the expansion right after those of the entries before it. */
  lemma ExpandAt(h: Hist, e: nat, i: nat)
    requires e < |h| && i < h[e].count
    ensures Total(h[..e]) + i < |Expand(h)| && Expand(h)[Total(h[..e]) + i] == h[e].key
  {
    ExpandAround(h, e);
    ExpandLength(h[..e]);
  }

  /**
   * The array form: every shot's key written out, entry by entry, as an
   * `unsigned`.  The counts add up to `shots`, so the walk fills exactly
   * the first `shots` cells.
   */
  method FillShots(results: Hist, shots: nat, shotsArray: array<nat>)
    requires Total(results) == shots && shots <= shotsArray.Length
    modifies shotsArray
    ensures |Expand(results)| == shots
    ensures forall x :: 0 <= x < shots ==> shotsArray[x] == Unsigned(Expand(results)[x])
    ensures forall x :: shots <= x < shotsArray.Length ==> shotsArray[x] == old(shotsArray[x])
  {
    ExpandLength(results);
    var j := 0;
    var e := 0;
    while e < |results| && j < shots
      invariant e <= |results| && j == Total(results[..e]) && j <= shots
      invariant forall x :: 0 <= x < j ==> shotsArray[x] == Unsigned(Expand(results)[x])
      invariant forall x :: shots <= x < shotsArray.Length ==> shotsArray[x] == old(shotsArray[x])
      decreases |results| - e
    {
      PrefixStep(results, e);
      PrefixLe(results, e + 1);
      var key := results[e].key;
      for i := 0 to results[e].count
        invariant j == Total(results[..e]) + i
        invariant forall x :: 0 <= x < j ==> shotsArray[x] == Unsigned(Expand(results)[x])
        invariant forall x :: shots <= x < shotsArray.Length ==> shotsArray[x] == old(shotsArray[x])
      {
        ExpandAt(results, e, i);
        shotsArray[j] := Unsigned(key);
        j := j + 1;
      }
      e := e + 1;
    }
    PrefixAll(results, e);
  }

  lemma KeysWithinAdd(h: Hist, h': Hist, k: nat, P: set<nat>)
    requires KeysWithin(h, P) && Within(k, P) && KeySet(h') == KeySet(h) + {k}
    ensures KeysWithin(h', P)
  {
    forall i | 0 <= i < |h'|
      ensures Within(h'[i].key, P)
    {
      assert h'[i].key in KeySet(h');
      if h'[i].key != k {
        var j :| 0 <= j < |h| && h[j].key == h'[i].key;
      }
    }
  }

  lemma KeysWithinSub(h: Hist, h': Hist, P: set<nat>)
    requires KeysWithin(h, P) && forall i :: 0 <= i < |h'| ==> h'[i].key in KeySet(h)
    ensures KeysWithin(h', P)
  {
    forall i | 0 <= i < |h'|
      ensures Within(h'[i].key, P)
    {
      var j :| 0 <= j < |h| && h[j].key == h'[i].key;
    }
  }
}
