// The shard-map side of QUnit::Detach: which slots of a unit the detached
// block occupies once the unit has been ordered, what becomes of the shards
// that stay and of those that leave, and why both keep the invariant.
module Detaching {
  import opened Wrappers
  import opened Shards

  // ------------------------------------------------------------------ ranks

  /** The index of the first shard of u at or after i, or |s| when there is none. */
  ghost function First(s: seq<Shard>, u: UnitId, i: nat): (r: nat)
    requires i <= |s|
    ensures i <= r <= |s|
    ensures r < |s| ==> s[r].unit == Some(u)
    ensures forall j | i <= j < r :: s[j].unit != Some(u)
    decreases |s| - i
  {
    if i == |s| then i else if s[i].unit == Some(u) then i else First(s, u, i + 1)
  }

  /** The slot of that first shard (0 when there is none). */
  ghost function FirstSlot(s: seq<Shard>, u: UnitId, i: nat): nat
    requires i <= |s|
  {
    var f := First(s, u, i);
    if f < |s| then s[f].mapped else 0
  }

  lemma CountStep(s: seq<Shard>, u: UnitId, a: nat)
    requires a < |s|
    ensures CountIn(s[..a + 1], u) == CountIn(s[..a], u) + (if s[a].unit == Some(u) then 1 else 0)
  {
    assert s[..a + 1][..a] == s[..a];
  }

  lemma CountSplitAt(s: seq<Shard>, u: UnitId, a: nat, b: nat)
    requires a <= b <= |s|
    ensures CountIn(s[..b], u) == CountIn(s[..a], u) + CountIn(s[a..b], u)
  {
    assert s[..b] == s[..a] + s[a..b];
    CountConcat(s[..a], s[a..b], u);
  }

  lemma CountMono(s: seq<Shard>, u: UnitId, a: nat, b: nat)
    requires a <= b <= |s|
    ensures CountIn(s[..a], u) <= CountIn(s[..b], u)
  {
    CountSplitAt(s, u, a, b);
  }

  /** A shard of u at a is counted before any b beyond it. */
  lemma CountPast(s: seq<Shard>, u: UnitId, a: nat, b: nat)
    requires a < b <= |s| && s[a].unit == Some(u)
    ensures CountIn(s[..a], u) < CountIn(s[..b], u)
  {
    CountStep(s, u, a);
    CountMono(s, u, a + 1, b);
  }

  lemma CountNone(s: seq<Shard>, u: UnitId)
    requires forall j | 0 <= j < |s| :: s[j].unit != Some(u)
    ensures CountIn(s, u) == 0
  {
    OwnersCount(s, u);
    assert Owners(s, u) == {};
  }

  /** A positive count has a shard behind it. */
  lemma CountSome(s: seq<Shard>, u: UnitId) returns (j: nat)
    requires CountIn(s, u) > 0
    ensures j < |s| && s[j].unit == Some(u)
  {
    OwnersCount(s, u);
    var x :| x in Owners(s, u);
    j := x;
  }

  /**
   * In a unit whose shards hold its slots in logical order, the slot of a
   * shard is its rank: the number of shards of the unit before it.
   */
  lemma RankIsSlot(s: seq<Shard>, c: map<UnitId, nat>, u: UnitId, a: nat)
    requires WellFormed(s, c) && InOrder(s, u) && a < |s| && s[a].unit == Some(u)
    ensures s[a].mapped == CountIn(s[..a], u)
  {
    var B := set i | 0 <= i < a && s[i].unit == Some(u);
    var A := set i | a < i < |s| && s[i].unit == Some(u);
    OwnersCount(s[..a], u);
    assert Owners(s[..a], u) == B;
    FewerBelow(s, u, a, B);
    FewerAbove(s, c, u, a, A);
    OwnersAround(s, u, a, B, A);
  }

  lemma OwnersAround(s: seq<Shard>, u: UnitId, a: nat, B: set<int>, A: set<int>)
    requires a < |s| && s[a].unit == Some(u)
    requires B == set i | 0 <= i < a && s[i].unit == Some(u)
    requires A == set i | a < i < |s| && s[i].unit == Some(u)
    ensures |Owners(s, u)| == |B| + |A| + 1
  {
    var O := Owners(s, u);
    assert B !! A && a !in B && a !in A;
    forall i | i in O ensures i in B + A + {a} {
      if i < a {
        assert i in B;
      } else if i > a {
        assert i in A;
      }
    }
    assert O == B + A + {a};
  }

  /** The shards of u before a hold distinct slots below a's. */
  lemma FewerBelow(s: seq<Shard>, u: UnitId, a: nat, B: set<int>)
    requires Injective(s) && InOrder(s, u) && a < |s| && s[a].unit == Some(u)
    requires B == set i | 0 <= i < a && s[i].unit == Some(u)
    ensures |B| <= s[a].mapped
  {
    var m := s[a].mapped;
    var g := (i: int) => if 0 <= i < |s| then s[i].mapped as int else -1;
    CardImage(B, g, |s|);
    InRange(m);
    CardRange(m);
    SubsetCard(set i | i in B :: g(i), Range(m));
  }

  /** The shards of u after a hold distinct slots above a's and inside the unit. */
  lemma FewerAbove(s: seq<Shard>, c: map<UnitId, nat>, u: UnitId, a: nat, A: set<int>)
    requires WellFormed(s, c) && InOrder(s, u) && a < |s| && s[a].unit == Some(u)
    requires A == set i | a < i < |s| && s[i].unit == Some(u)
    ensures |A| + s[a].mapped + 1 <= c[u]
  {
    var m, n := s[a].mapped, c[u];
    var g := (i: int) => if 0 <= i < |s| then s[i].mapped as int else -1;
    CardImage(A, g, |s|);
    var above := Between(m + 1, n);
    var gA := set i | i in A :: g(i);
    forall k | k in gA ensures k in above {
      var i :| i in A && k == g(i);
      assert m < s[i].mapped < n;
    }
    SubsetCard(gA, above);
  }

  /** The slot numbers lo .. hi-1. */
  ghost function Between(lo: nat, hi: nat): (r: set<int>)
    requires lo <= hi
    ensures |r| == hi - lo
    ensures forall k :: k in r <==> lo <= k < hi
  {
    InRange(lo);
    InRange(hi);
    CardRange(lo);
    CardRange(hi);
    var r := Range(hi) - Range(lo);
    forall k | k in Range(lo) ensures k in Range(hi) {
      assert 0 <= k < lo;
    }
    assert Range(hi) == Range(lo) + r;
    r
  }

  // -------------------------------------------------------------- the block

  /**
   * Unit u (of c[u] qubits) has L shards among the detached ones, at
   * start .. start+length-1; their slots are exactly thr .. thr+L-1, a range
   * inside the unit, and every other shard of u lies outside it.
   */
  ghost predicate Block(s: seq<Shard>, c: map<UnitId, nat>, u: UnitId, start: nat, length: nat, thr: nat, L: nat)
  {
    && start + length <= |s| && u in c && thr + L <= c[u]
    && L == CountIn(s[start..start + length], u)
    && forall a | 0 <= a < |s| && s[a].unit == Some(u) ::
         (start <= a < start + length <==> thr <= s[a].mapped < thr + L)
  }

  /** Every unit among the detached shards forms a block starting at its first shard's slot. */
  ghost predicate Blocks(s: seq<Shard>, c: map<UnitId, nat>, start: nat, length: nat)
  {
    && start + length <= |s|
    && forall u | u in UnitsOf(s[start..start + length]) ::
         First(s, u, start) < start + length
         && Block(s, c, u, start, length, FirstSlot(s, u, start), CountIn(s[start..start + length], u))
  }

  lemma UnitsOfRange(s: seq<Shard>, start: nat, length: nat, u: UnitId) returns (k: nat)
    requires start + length <= |s| && u in UnitsOf(s[start..start + length])
    ensures start <= k < start + length && s[k].unit == Some(u)
  {
    var t := s[start..start + length];
    var j :| 0 <= j < |t| && t[j].unit.Some? && t[j].unit.value == u;
    k := start + j;
  }

  /** After OrderContiguous the detached shards of u hold consecutive slots (Detach's comment). */
  lemma OrderedBlock(s: seq<Shard>, c: map<UnitId, nat>, u: UnitId, start: nat, length: nat)
    requires WellFormed(s, c) && InOrder(s, u) && start + length <= |s|
    requires u in UnitsOf(s[start..start + length])
    ensures First(s, u, start) < start + length
    ensures Block(s, c, u, start, length, FirstSlot(s, u, start), CountIn(s[start..start + length], u))
  {
    var k := UnitsOfRange(s, start, length, u);
    FirstRank(s, c, u, start, k);
    RankedPrefix(s, c, u, start + length, k);
    BlockOfRanks(s, c, u, start, length);
  }

  /** The facts about u's ranks that BlockOfRanks needs, up to the block's end b. */
  ghost predicate RankedUpTo(s: seq<Shard>, c: map<UnitId, nat>, u: UnitId, b: nat)
  {
    b <= |s| && u in c && CountIn(s[..b], u) <= c[u] && Ranked(s, u)
  }

  lemma RankedPrefix(s: seq<Shard>, c: map<UnitId, nat>, u: UnitId, b: nat, k: nat)
    requires WellFormed(s, c) && InOrder(s, u) && b <= |s| && k < |s| && s[k].unit == Some(u)
    ensures RankedUpTo(s, c, u, b)
  {
    PrefixWithin(s, c, u, b, k);
    RanksAll(s, c, u);
  }

  /** Every shard of u sits at the slot equal to its rank. */
  ghost predicate Ranked(s: seq<Shard>, u: UnitId)
  {
    forall a {:trigger CountIn(s[..a], u)} | 0 <= a < |s| && s[a].unit == Some(u) :: s[a].mapped == CountIn(s[..a], u)
  }

  lemma RanksAll(s: seq<Shard>, c: map<UnitId, nat>, u: UnitId)
    requires WellFormed(s, c) && InOrder(s, u)
    ensures Ranked(s, u)
  {
    forall a | 0 <= a < |s| && s[a].unit == Some(u) ensures s[a].mapped == CountIn(s[..a], u) {
      RankIsSlot(s, c, u, a);
    }
  }

  /** When every slot of u is its rank, the detached ones form the block after the earlier ranks. */
  lemma BlockOfRanks(s: seq<Shard>, c: map<UnitId, nat>, u: UnitId, start: nat, length: nat)
    requires RankedUpTo(s, c, u, start + length)
    ensures Block(s, c, u, start, length, CountIn(s[..start], u), CountIn(s[start..start + length], u))
  {
    CountSplitAt(s, u, start, start + length);
    forall a | 0 <= a < |s| && s[a].unit == Some(u)
      ensures var lo, L := CountIn(s[..start], u), CountIn(s[start..start + length], u);
        start <= a < start + length <==> lo <= s[a].mapped < lo + L
    {
      RankSide(s, u, start, length, a);
    }
  }

  /** A prefix holds no more shards of a unit than the unit has qubits. */
  lemma PrefixWithin(s: seq<Shard>, c: map<UnitId, nat>, u: UnitId, b: nat, k: nat)
    requires WellFormed(s, c) && b <= |s| && k < |s| && s[k].unit == Some(u)
    ensures u in c && CountIn(s[..b], u) <= c[u]
  {
    assert |Owners(s, u)| == c[u];
    OwnersCount(s, u);
    CountMono(s, u, b, |s|);
    assert s[..|s|] == s;
  }

  /** The first detached shard of u has as many shards of u before it as the block's start. */
  lemma FirstRank(s: seq<Shard>, c: map<UnitId, nat>, u: UnitId, start: nat, k: nat)
    requires WellFormed(s, c) && InOrder(s, u) && start <= k < |s| && s[k].unit == Some(u)
    ensures First(s, u, start) <= k
    ensures FirstSlot(s, u, start) == CountIn(s[..start], u)
  {
    var f := First(s, u, start);
    assert f <= k;
    assert s[..f] == s[..start] + s[start..f];
    CountConcat(s[..start], s[start..f], u);
    CountNone(s[start..f], u);
    RankIsSlot(s, c, u, f);
  }

  /** A shard of u is detached exactly when its rank falls inside the block's. */
  lemma RankSide(s: seq<Shard>, u: UnitId, start: nat, length: nat, a: nat)
    requires start + length <= |s| && a < |s| && s[a].unit == Some(u)
    requires CountIn(s[..start + length], u) == CountIn(s[..start], u) + CountIn(s[start..start + length], u)
    ensures var lo, L, r := CountIn(s[..start], u), CountIn(s[start..start + length], u), CountIn(s[..a], u);
      start <= a < start + length <==> lo <= r < lo + L
  {
    if a < start {
      CountPast(s, u, a, start);
    } else if a < start + length {
      CountMono(s, u, start, a);
      CountPast(s, u, a, start + length);
    } else {
      CountMono(s, u, start + length, a);
    }
  }

  /** A single detached qubit is a block of one slot, ordered or not. */
  lemma SingleBlock(s: seq<Shard>, c: map<UnitId, nat>, start: nat)
    requires WellFormed(s, c) && start < |s| && s[start].unit.Some?
    ensures First(s, s[start].unit.value, start) == start
    ensures Block(s, c, s[start].unit.value, start, 1, s[start].mapped, CountIn(s[start..start + 1], s[start].unit.value))
  {
    var u := s[start].unit.value;
    assert s[start..start + 1][..0] == [];
  }

  lemma SingleBlocks(s: seq<Shard>, c: map<UnitId, nat>, start: nat, length: nat)
    requires WellFormed(s, c) && start + length <= |s| && length <= 1
    ensures Blocks(s, c, start, length)
  {
    forall u | u in UnitsOf(s[start..start + length])
      ensures First(s, u, start) < start + length
      ensures Block(s, c, u, start, length, FirstSlot(s, u, start), CountIn(s[start..start + length], u))
    {
      var k := UnitsOfRange(s, start, length, u);
      SingleBlock(s, c, start);
    }
  }

  lemma OrderedBlocks(s: seq<Shard>, c: map<UnitId, nat>, start: nat, length: nat)
    requires WellFormed(s, c) && start + length <= |s|
    requires forall u | u in UnitsOf(s[start..start + length]) :: InOrder(s, u)
    ensures Blocks(s, c, start, length)
  {
    forall u | u in UnitsOf(s[start..start + length])
      ensures First(s, u, start) < start + length
      ensures Block(s, c, u, start, length, FirstSlot(s, u, start), CountIn(s[start..start + length], u))
    {
      OrderedBlock(s, c, u, start, length);
    }
  }

  // ------------------------------------------------------ the detach plan

  /** `subunits`: how many of the detached shards each unit holds. */
  ghost function SubMap(s: seq<Shard>, start: nat, length: nat): map<UnitId, nat>
    requires start + length <= |s|
  {
    var t := s[start..start + length];
    map u | u in UnitsOf(t) :: CountIn(t, u)
  }

  /** The slot of each unit's first detached shard, the block's lower end. */
  ghost function ThrMap(s: seq<Shard>, start: nat, length: nat): map<UnitId, nat>
    requires start + length <= |s|
  {
    var t := s[start..start + length];
    map u | u in UnitsOf(t) :: FirstSlot(s, u, start)
  }

  /**
   * The release of the one qubit left behind in a unit from which all the
   * others are detached (`subLen == origLen - 1`).
   */
  function Freed(t: Shard, c: map<UnitId, nat>, sub: map<UnitId, nat>): (r: Shard)
    ensures r == t || (t.unit.Some? && r == Released(t))
  {
    if t.unit.Some? && t.unit.value in sub && t.unit.value in c && sub[t.unit.value] + 1 == c[t.unit.value]
    then Released(t) else t
  }

  /**
   * The closing loop of Detach on one shard: a slot of an affected unit at or
   * above the top of the detached block moves down by the block's length.
   */
  function Shifted(t: Shard, sub: map<UnitId, nat>, thr: map<UnitId, nat>): (r: Shard)
    ensures r.unit == t.unit
    ensures r == t || (t.unit.Some? && t.unit.value in sub && r.mapped + sub[t.unit.value] == t.mapped)
  {
    if t.unit.Some? && t.unit.value in sub && t.unit.value in thr && t.mapped >= thr[t.unit.value] + sub[t.unit.value]
    then t.(mapped := t.mapped - sub[t.unit.value]) else t
  }

  /** The shards left behind, in order, with the ordered map s as Detach's starting point. */
  ghost function Rest(s: seq<Shard>, c: map<UnitId, nat>, start: nat, length: nat): (r: seq<Shard>)
    requires start + length <= |s|
    ensures |r| == |s| - length
  {
    var sub, thr := SubMap(s, start, length), ThrMap(s, start, length);
    var kept := s[..start] + s[start + length..];
    seq(|kept|, j requires 0 <= j < |kept| => Shifted(Freed(kept[j], c, sub), sub, thr))
  }

  /** Unit sizes after Detach: a unit that keeps qubits loses the detached ones. */
  ghost function RestCounts(c: map<UnitId, nat>, s: seq<Shard>, start: nat, length: nat): map<UnitId, nat>
    requires start + length <= |s|
  {
    var sub := SubMap(s, start, length);
    map v | v in c :: if v in sub && sub[v] < c[v] then c[v] - sub[v] else c[v]
  }

  /**
   * A detached shard as Detach hands it to the destination: unit-less and
   * wholly detached units unchanged, a lone qubit of a larger unit released,
   * the others moved to the new unit `made[u]` at their slot within the block.
   */
  function Moved(t: Shard, c: map<UnitId, nat>, sub: map<UnitId, nat>, thr: map<UnitId, nat>, made: map<UnitId, UnitId>): Shard
  {
    if t.unit.None? || t.unit.value !in sub || t.unit.value !in c || sub[t.unit.value] == c[t.unit.value] then t
    else if sub[t.unit.value] == 1 then Released(t)
    else if t.unit.value in made && t.unit.value in thr && t.mapped >= thr[t.unit.value]
    then t.(unit := Some(made[t.unit.value]), mapped := t.mapped - thr[t.unit.value])
    else t
  }

  /** The new units of the destination: one fresh handle per partly detached unit. */
  ghost predicate NewUnits(c: map<UnitId, nat>, sub: map<UnitId, nat>, made: map<UnitId, UnitId>)
  {
    && (forall u | u in made :: u in sub && u in c && sub[u] != c[u] && made[u] !in c)
    && (forall u, v | u in made && v in made && u != v :: made[u] != made[v])
  }

  /** The destination's unit sizes: the detached counts under the new handles. */
  ghost predicate DestCounts(c: map<UnitId, nat>, cd: map<UnitId, nat>, sub: map<UnitId, nat>, made: map<UnitId, UnitId>)
  {
    && (forall v | v in c && v in sub && sub[v] == c[v] :: v in cd && cd[v] == c[v])
    && (forall u | u in made && u in sub :: made[u] in cd && cd[made[u]] == sub[u])
  }

  // ----------------------------------------------------- the shards left behind

  /** Counting the shards of v split at the detached block. */
  lemma CountSplit(s: seq<Shard>, start: nat, length: nat, v: UnitId)
    requires start + length <= |s|
    ensures CountIn(s, v) == CountIn(s[..start] + s[start + length..], v) + CountIn(s[start..start + length], v)
  {
    assert s == s[..start] + s[start..start + length] + s[start + length..];
    CountConcat(s[..start] + s[start..start + length], s[start + length..], v);
    CountConcat(s[..start], s[start..start + length], v);
    CountConcat(s[..start], s[start + length..], v);
  }

  lemma NotInRange(s: seq<Shard>, start: nat, length: nat, v: UnitId)
    requires start + length <= |s| && v !in UnitsOf(s[start..start + length])
    ensures CountIn(s[start..start + length], v) == 0
  {
    var t := s[start..start + length];
    forall j | 0 <= j < |t| ensures t[j].unit != Some(v) {
      if t[j].unit.Some? {
        assert t[j].unit.value in UnitsOf(t);
      }
    }
    CountNone(t, v);
  }

  /** Index j of the kept shards is shard j, or j + length past the block. */
  lemma KeptAt(s: seq<Shard>, start: nat, length: nat, j: nat)
    requires start + length <= |s| && j < |s| - length
    ensures (s[..start] + s[start + length..])[j] == s[if j < start then j else j + length]
  {
  }

  /**
   * A shard outside the block whose unit has shards in it holds a slot below
   * or above the block, so its unit keeps at least that qubit.
   */
  lemma KeptShard(s: seq<Shard>, c: map<UnitId, nat>, start: nat, length: nat, o: nat)
    requires WellFormed(s, c) && Blocks(s, c, start, length) && o < |s| && !(start <= o < start + length)
    requires s[o].unit.Some? && s[o].unit.value in SubMap(s, start, length)
    ensures var u, sub, thr := s[o].unit.value, SubMap(s, start, length), ThrMap(s, start, length);
      && u in thr && u in c && sub[u] < c[u] && thr[u] + sub[u] <= c[u]
      && (s[o].mapped < thr[u] || s[o].mapped >= thr[u] + sub[u])
  {
    var u := s[o].unit.value;
    assert Block(s, c, u, start, length, FirstSlot(s, u, start), CountIn(s[start..start + length], u));
  }

  /**
   * Entry j of the shards left behind comes from shard o: unchanged when its
   * unit is untouched, released when it was the last of its unit, and
   * otherwise moved down by the block's length when it lay above the block.
   */
  lemma RestEntry(s: seq<Shard>, c: map<UnitId, nat>, start: nat, length: nat, j: nat) returns (o: nat)
    requires WellFormed(s, c) && Blocks(s, c, start, length) && j < |s| - length
    ensures o == (if j < start then j else j + length) && o < |s|
    ensures var r, t, sub, thr := Rest(s, c, start, length)[j], s[o], SubMap(s, start, length), ThrMap(s, start, length);
      && (t.unit.None? || t.unit.value !in sub ==> r == t)
      && (t.unit.Some? && t.unit.value in sub ==>
            && t.unit.value in thr && t.unit.value in c
            && sub[t.unit.value] < c[t.unit.value] && thr[t.unit.value] + sub[t.unit.value] <= c[t.unit.value]
            && (t.mapped < thr[t.unit.value] || t.mapped >= thr[t.unit.value] + sub[t.unit.value])
            && (sub[t.unit.value] + 1 == c[t.unit.value] ==> r == Released(t))
            && (sub[t.unit.value] + 1 < c[t.unit.value] ==> r == Shifted(t, sub, thr)))
  {
    o := if j < start then j else j + length;
    KeptAt(s, start, length, j);
    if s[o].unit.Some? && s[o].unit.value in SubMap(s, start, length) {
      KeptShard(s, c, start, length, o);
    }
  }

  lemma RestBounded(s: seq<Shard>, c: map<UnitId, nat>, start: nat, length: nat)
    requires WellFormed(s, c) && Blocks(s, c, start, length)
    ensures Bounded(Rest(s, c, start, length), RestCounts(c, s, start, length))
  {
    var r, rc := Rest(s, c, start, length), RestCounts(c, s, start, length);
    forall j | 0 <= j < |r| && r[j].unit.Some?
      ensures r[j].unit.value in rc && r[j].mapped < rc[r[j].unit.value]
    {
      var o := RestEntry(s, c, start, length, j);
    }
  }

  lemma RestInjective(s: seq<Shard>, c: map<UnitId, nat>, start: nat, length: nat)
    requires WellFormed(s, c) && Blocks(s, c, start, length)
    ensures Injective(Rest(s, c, start, length))
  {
    var r := Rest(s, c, start, length);
    forall i, j | 0 <= i < |r| && 0 <= j < |r| && i != j && r[i].unit.Some? && r[i].unit == r[j].unit
      ensures r[i].mapped != r[j].mapped
    {
      RestPair(s, c, start, length, i, j);
    }
  }

  lemma RestPair(s: seq<Shard>, c: map<UnitId, nat>, start: nat, length: nat, i: nat, j: nat)
    requires WellFormed(s, c) && Blocks(s, c, start, length) && i < |s| - length && j < |s| - length && i != j
    requires Rest(s, c, start, length)[i].unit.Some? && Rest(s, c, start, length)[i].unit == Rest(s, c, start, length)[j].unit
    ensures Rest(s, c, start, length)[i].mapped != Rest(s, c, start, length)[j].mapped
  {
    var oi := RestEntry(s, c, start, length, i);
    var oj := RestEntry(s, c, start, length, j);
    var sub, thr := SubMap(s, start, length), ThrMap(s, start, length);
    assert s[oi].unit == s[oj].unit;
    assert s[oi].mapped != s[oj].mapped;
    if s[oi].unit.value in sub {
      ShiftApart(s[oi], s[oj], sub, thr);
    }
  }

  /** Two slots of a unit on the same side of, or on either side of, the block stay apart when shifted. */
  lemma ShiftApart(t1: Shard, t2: Shard, sub: map<UnitId, nat>, thr: map<UnitId, nat>)
    requires t1.unit.Some? && t1.unit == t2.unit && t1.mapped != t2.mapped
    requires var u := t1.unit.value; u in sub && u in thr
    requires var u := t1.unit.value;
      && (t1.mapped < thr[u] || t1.mapped >= thr[u] + sub[u]) && (t2.mapped < thr[u] || t2.mapped >= thr[u] + sub[u])
    ensures Shifted(t1, sub, thr).mapped != Shifted(t2, sub, thr).mapped
  {
  }

  /** The shards left behind keep the invariant, with the shrunk unit sizes. */
  lemma RestKeeps(s: seq<Shard>, c: map<UnitId, nat>, start: nat, length: nat)
    requires WellFormed(s, c) && Blocks(s, c, start, length)
    ensures WellFormed(Rest(s, c, start, length), RestCounts(c, s, start, length))
  {
    var r, rc := Rest(s, c, start, length), RestCounts(c, s, start, length);
    RestBounded(s, c, start, length);
    RestInjective(s, c, start, length);
    forall j | 0 <= j < |r| && r[j].unit.Some? && r[j].unit.value in rc
      ensures |Owners(r, r[j].unit.value)| == rc[r[j].unit.value]
    {
      var o := RestEntry(s, c, start, length, j);
      RestOwners(s, c, start, length, o);
    }
  }

  /** The number of shards a unit keeps after the block is taken out. */
  lemma RestOwners(s: seq<Shard>, c: map<UnitId, nat>, start: nat, length: nat, o: nat)
    requires WellFormed(s, c) && Blocks(s, c, start, length) && o < |s| && !(start <= o < start + length)
    requires s[o].unit.Some? && Freed(s[o], c, SubMap(s, start, length)) == s[o]
    ensures var v := s[o].unit.value;
      |Owners(Rest(s, c, start, length), v)| == RestCounts(c, s, start, length)[v]
  {
    var v := s[o].unit.value;
    var r, sub := Rest(s, c, start, length), SubMap(s, start, length);
    var kept := s[..start] + s[start + length..];
    assert v in sub ==> sub[v] + 1 != c[v];
    forall j | 0 <= j < |r| ensures r[j].unit == Some(v) <==> kept[j].unit == Some(v) {
      if kept[j].unit == Some(v) && v in sub {
        assert Freed(kept[j], c, sub) == kept[j];
      }
    }
    assert Owners(r, v) == Owners(kept, v);
    OwnersCount(kept, v);
    OwnersCount(s, v);
    CountSplit(s, start, length, v);
    if v !in sub {
      NotInRange(s, start, length, v);
    } else {
      KeptShard(s, c, start, length, o);
    }
  }

  // ----------------------------------------------------- the detached shards

  /** The shards handed to the destination, in order. */
  ghost function DestOf(s: seq<Shard>, c: map<UnitId, nat>, start: nat, length: nat, made: map<UnitId, UnitId>): (d: seq<Shard>)
    requires start + length <= |s|
    ensures |d| == length
  {
    seq(length, k requires 0 <= k < length =>
      Moved(s[start + k], c, SubMap(s, start, length), ThrMap(s, start, length), made))
  }

  /** What Detach is given for the destination: new handles for the partly detached units and their sizes. */
  ghost predicate DestReady(s: seq<Shard>, c: map<UnitId, nat>, cd: map<UnitId, nat>, start: nat, length: nat, made: map<UnitId, UnitId>)
  {
    && WellFormed(s, c) && Blocks(s, c, start, length)
    && var sub := SubMap(s, start, length);
    && NewUnits(c, sub, made) && DestCounts(c, cd, sub, made)
    && forall u | u in sub && sub[u] != c[u] && sub[u] != 1 :: u in made
  }

  /**
   * Entry k of the destination: a shard of a wholly detached unit as it was,
   * the lone detached qubit of a larger unit released, and any other shard
   * moved to its unit's new handle at its offset within the block.
   */
  lemma DestEntry(s: seq<Shard>, c: map<UnitId, nat>, cd: map<UnitId, nat>, start: nat, length: nat, made: map<UnitId, UnitId>, k: nat)
    requires DestReady(s, c, cd, start, length, made) && k < length
    ensures var t, d, sub, thr := s[start + k], DestOf(s, c, start, length, made)[k], SubMap(s, start, length), ThrMap(s, start, length);
      && (t.unit.None? ==> d == t)
      && (t.unit.Some? ==>
            var u := t.unit.value;
            && u in sub && u in c && u in thr && sub[u] <= c[u] && thr[u] <= t.mapped < thr[u] + sub[u]
            && (sub[u] == c[u] ==> d == t && u in cd && cd[u] == c[u])
            && (sub[u] != c[u] && sub[u] == 1 ==> d.unit.None?)
            && (sub[u] != c[u] && sub[u] != 1 ==>
                  u in made && made[u] in cd && cd[made[u]] == sub[u] && made[u] !in c
                  && d == t.(unit := Some(made[u]), mapped := t.mapped - thr[u])))
  {
    var sub, thr := SubMap(s, start, length), ThrMap(s, start, length);
    assert DestOf(s, c, start, length, made)[k] == Moved(s[start + k], c, sub, thr, made);
    if s[start + k].unit.Some? {
      BlockShard(s, c, start, length, k);
    }
  }

  /** A detached shard of a unit lies inside its unit's block. */
  lemma BlockShard(s: seq<Shard>, c: map<UnitId, nat>, start: nat, length: nat, k: nat)
    requires Blocks(s, c, start, length) && k < length && s[start + k].unit.Some?
    ensures var u, sub, thr := s[start + k].unit.value, SubMap(s, start, length), ThrMap(s, start, length);
      && u in sub && u in c && u in thr && sub[u] <= c[u] && thr[u] <= s[start + k].mapped < thr[u] + sub[u]
  {
    var t := s[start..start + length];
    assert t[k] == s[start + k];
    var u := s[start + k].unit.value;
    assert u in UnitsOf(t);
    assert Block(s, c, u, start, length, FirstSlot(s, u, start), CountIn(t, u));
  }

  /** Two destination shards share a unit exactly when their source shards did. */
  lemma DestSame(s: seq<Shard>, c: map<UnitId, nat>, cd: map<UnitId, nat>, start: nat, length: nat, made: map<UnitId, UnitId>, j: nat, k: nat)
    requires DestReady(s, c, cd, start, length, made) && j < length && k < length
    requires DestOf(s, c, start, length, made)[k].unit.Some?
    ensures DestOf(s, c, start, length, made)[j].unit == DestOf(s, c, start, length, made)[k].unit
        <==> s[start + j].unit == s[start + k].unit
  {
    DestEntry(s, c, cd, start, length, made, j);
    DestEntry(s, c, cd, start, length, made, k);
  }

  lemma DestBounded(s: seq<Shard>, c: map<UnitId, nat>, cd: map<UnitId, nat>, start: nat, length: nat, made: map<UnitId, UnitId>)
    requires DestReady(s, c, cd, start, length, made)
    ensures Bounded(DestOf(s, c, start, length, made), cd)
  {
    var d := DestOf(s, c, start, length, made);
    forall k | 0 <= k < |d| && d[k].unit.Some?
      ensures d[k].unit.value in cd && d[k].mapped < cd[d[k].unit.value]
    {
      DestEntry(s, c, cd, start, length, made, k);
    }
  }

  lemma DestInjective(s: seq<Shard>, c: map<UnitId, nat>, cd: map<UnitId, nat>, start: nat, length: nat, made: map<UnitId, UnitId>)
    requires DestReady(s, c, cd, start, length, made)
    ensures Injective(DestOf(s, c, start, length, made))
  {
    var d := DestOf(s, c, start, length, made);
    forall i, j | 0 <= i < |d| && 0 <= j < |d| && i != j && d[i].unit.Some? && d[i].unit == d[j].unit
      ensures d[i].mapped != d[j].mapped
    {
      DestSame(s, c, cd, start, length, made, j, i);
      DestEntry(s, c, cd, start, length, made, i);
      DestEntry(s, c, cd, start, length, made, j);
      assert s[start + i].mapped != s[start + j].mapped;
    }
  }

  lemma DestOwners(s: seq<Shard>, c: map<UnitId, nat>, cd: map<UnitId, nat>, start: nat, length: nat, made: map<UnitId, UnitId>, k: nat)
    requires DestReady(s, c, cd, start, length, made) && k < length
    requires DestOf(s, c, start, length, made)[k].unit.Some?
    ensures var d := DestOf(s, c, start, length, made);
      d[k].unit.value in cd && |Owners(d, d[k].unit.value)| == cd[d[k].unit.value]
  {
    var d, t := DestOf(s, c, start, length, made), s[start..start + length];
    DestEntry(s, c, cd, start, length, made, k);
    assert t[k] == s[start + k];
    var u := s[start + k].unit.value;
    DestGroups(s, c, cd, start, length, made, k);
    SameOwners(d, t, k);
    OwnersCount(t, u);
  }

  lemma DestGroups(s: seq<Shard>, c: map<UnitId, nat>, cd: map<UnitId, nat>, start: nat, length: nat, made: map<UnitId, UnitId>, k: nat)
    requires DestReady(s, c, cd, start, length, made) && k < length
    requires DestOf(s, c, start, length, made)[k].unit.Some?
    ensures var d, t := DestOf(s, c, start, length, made), s[start..start + length];
      forall j | 0 <= j < length :: d[j].unit == d[k].unit <==> t[j].unit == t[k].unit
  {
    var d, t := DestOf(s, c, start, length, made), s[start..start + length];
    forall j | 0 <= j < length ensures d[j].unit == d[k].unit <==> t[j].unit == t[k].unit {
      assert t[j] == s[start + j] && t[k] == s[start + k];
      DestSame(s, c, cd, start, length, made, j, k);
    }
  }

  /** Two equally long maps whose shards group alike give shard k's unit as many owners in both. */
  lemma SameOwners(d: seq<Shard>, t: seq<Shard>, k: nat)
    requires |d| == |t| && k < |d| && d[k].unit.Some? && t[k].unit.Some?
    requires forall j | 0 <= j < |d| :: d[j].unit == d[k].unit <==> t[j].unit == t[k].unit
    ensures Owners(d, d[k].unit.value) == Owners(t, t[k].unit.value)
  {
  }

  /**
   * The destination's shards keep the invariant: a wholly detached unit
   * keeps its slots, and a partly detached one fills its new unit from slot 0.
   */
  lemma DestKeeps(s: seq<Shard>, c: map<UnitId, nat>, cd: map<UnitId, nat>, start: nat, length: nat, made: map<UnitId, UnitId>)
    requires DestReady(s, c, cd, start, length, made)
    ensures WellFormed(DestOf(s, c, start, length, made), cd)
  {
    var d := DestOf(s, c, start, length, made);
    DestBounded(s, c, cd, start, length, made);
    DestInjective(s, c, cd, start, length, made);
    forall k | 0 <= k < length && d[k].unit.Some? && d[k].unit.value in cd
      ensures |Owners(d, d[k].unit.value)| == cd[d[k].unit.value]
    {
      DestOwners(s, c, cd, start, length, made, k);
    }
  }
}
