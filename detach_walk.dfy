// The middle pass of QUnit::Detach (src/qunit.cpp): the walk over the
// detached shards that splits each affected unit, described shard by shard
// after i of them, and the facts the walk's steps rest on.

module DetachWalk {
  import opened Wrappers
  import opened Shards
  import opened Detaching

  /** The units of the first i detached shards: those the walk has split off already. */
  ghost function Done(s: seq<Shard>, start: nat, i: nat): set<UnitId>
    requires start + i <= |s|
  {
    UnitsOf(s[start..start + i])
  }

  lemma DoneStep(s: seq<Shard>, start: nat, i: nat)
    requires start + i < |s|
    ensures Done(s, start, i + 1) == Done(s, start, i) + (if s[start + i].unit.Some? then {s[start + i].unit.value} else {})
  {
    var a, b := s[start..start + i], s[start..start + i + 1];
    forall v ensures v in UnitsOf(b) <==> v in UnitsOf(a) || s[start + i].unit == Some(v) {
      if v in UnitsOf(b) {
        var k :| 0 <= k < |b| && b[k].unit.Some? && b[k].unit.value == v;
        if k < |a| {
          assert a[k] == b[k];
        }
      }
      if v in UnitsOf(a) {
        var k :| 0 <= k < |a| && a[k].unit.Some? && a[k].unit.value == v;
        assert b[k] == a[k];
      }
      if s[start + i].unit == Some(v) {
        assert b[i] == s[start + i];
      }
    }
  }

  lemma InDone(s: seq<Shard>, start: nat, i: nat, k: nat)
    requires start <= k < start + i <= |s| && s[k].unit.Some?
    ensures s[k].unit.value in Done(s, start, i)
  {
    assert s[start..start + i][k - start] == s[k];
  }

  lemma NotDone(s: seq<Shard>, start: nat, i: nat, u: UnitId)
    requires start + i <= |s| && u !in Done(s, start, i)
    ensures forall k | start <= k < start + i :: s[k].unit != Some(u)
  {
    forall k | start <= k < start + i ensures s[k].unit != Some(u) {
      if s[k].unit == Some(u) {
        InDone(s, start, i, k);
      }
    }
  }

  /**
   * A detached shard in the map once its unit has been split off: with a
   * destination, the shards of a partly detached unit name the new unit and
   * a lone detached qubit is released; without one the shard stays as it is.
   */
  function Taken(t: Shard, c: map<UnitId, nat>, sub: map<UnitId, nat>, made: map<UnitId, UnitId>, withDest: bool): Shard
  {
    if !withDest || t.unit.None? || t.unit.value !in sub || t.unit.value !in c || sub[t.unit.value] == c[t.unit.value] then t
    else if sub[t.unit.value] == 1 then Released(t)
    else if t.unit.value in made then t.(unit := Some(made[t.unit.value]))
    else t
  }

  /** Entry j of the map after the walk has handled i detached shards. */
  ghost function MidEntry(s: seq<Shard>, c: map<UnitId, nat>, start: nat, length: nat, withDest: bool,
                          made: map<UnitId, UnitId>, i: nat, j: nat): Shard
    requires start + length <= |s| && i <= length && j < |s|
  {
    var sub := SubMap(s, start, length);
    if start <= j < start + i then Taken(s[j], c, sub, made, withDest)
    else if start + i <= j < start + length then s[j]
    else if s[j].unit.Some? && s[j].unit.value in Done(s, start, i) then Freed(s[j], c, sub)
    else s[j]
  }

  ghost function Mid(s: seq<Shard>, c: map<UnitId, nat>, start: nat, length: nat, withDest: bool,
                     made: map<UnitId, UnitId>, i: nat): (r: seq<Shard>)
    requires start + length <= |s| && i <= length
    ensures |r| == |s|
  {
    seq(|s|, j requires 0 <= j < |s| => MidEntry(s, c, start, length, withDest, made, i, j))
  }

  /** A destination entry the walk has not reached: copied already when unit-less, else the fresh |0>. */
  function Pending(t: Shard): Shard
  {
    if t.unit.None? then t else Classical(false)
  }

  /** The walk's record of each split unit: its first detached shard and that shard's slot. */
  ghost predicate Split(s: seq<Shard>, start: nat, i: nat, decomposed: map<UnitId, nat>, thr: map<UnitId, nat>)
    requires start + i <= |s|
  {
    && decomposed.Keys == Done(s, start, i) && thr.Keys == Done(s, start, i)
    && (forall u | u in decomposed :: decomposed[u] == First(s, u, start))
    && (forall u | u in thr :: thr[u] == FirstSlot(s, u, start))
  }

  /** The new units made so far: one per partly detached unit with a destination, all fresh. */
  ghost predicate Made(s: seq<Shard>, c: map<UnitId, nat>, n: UnitId, start: nat, length: nat, withDest: bool, i: nat,
                       nextId: UnitId, made: map<UnitId, UnitId>)
    requires start + length <= |s| && i <= length
  {
    var sub := SubMap(s, start, length);
    && n <= nextId
    && (!withDest ==> made == map[])
    && (forall u | u in made :: u in Done(s, start, i) && u in sub && u in c && sub[u] != c[u] && n <= made[u] < nextId)
    && (withDest ==> forall u | u in Done(s, start, i) && u in sub && u in c && sub[u] != c[u] :: u in made)
    && (forall u, v | u in made && v in made && u != v :: made[u] != made[v])
  }

  /** Unit sizes so far: split units shrunk by their detached qubits, new units sized to them. */
  ghost predicate Sizes(s: seq<Shard>, c: map<UnitId, nat>, start: nat, length: nat, i: nat,
                        counts: map<UnitId, nat>, nextId: UnitId, made: map<UnitId, UnitId>)
    requires start + length <= |s| && i <= length
  {
    var sub := SubMap(s, start, length);
    && (forall v | v in c ::
          v in counts && counts[v] == (if v in Done(s, start, i) && v in sub && sub[v] < c[v] then c[v] - sub[v] else c[v]))
    && (forall u | u in made :: u in sub && made[u] in counts && counts[made[u]] == sub[u])
    && (forall v | v in counts :: v < nextId)
  }

  /** Destination entry k after i steps: moved when the walk has passed it, else pending. */
  ghost function DestAt(s: seq<Shard>, c: map<UnitId, nat>, start: nat, length: nat, made: map<UnitId, UnitId>, i: nat, k: nat): Shard
    requires start + length <= |s| && k < length
  {
    if k < i then Moved(s[start + k], c, SubMap(s, start, length), ThrMap(s, start, length), made) else Pending(s[start + k])
  }

  /** The destination's entries so far: those before i moved, the others pending. */
  ghost predicate DestEntries(s: seq<Shard>, c: map<UnitId, nat>, start: nat, length: nat, made: map<UnitId, UnitId>, i: nat,
                              dest: seq<Shard>)
    requires start + length <= |s|
  {
    |dest| == length && forall k | 0 <= k < length :: dest[k] == DestAt(s, c, start, length, made, i, k)
  }

  /** The destination's unit sizes so far: wholly detached units at their size, new units at theirs. */
  ghost predicate DestSizes(s: seq<Shard>, c: map<UnitId, nat>, start: nat, length: nat, made: map<UnitId, UnitId>, i: nat,
                            destCounts: map<UnitId, nat>)
    requires start + length <= |s| && i <= length
  {
    var sub := SubMap(s, start, length);
    && (forall v | v in c && v in Done(s, start, i) && v in sub && sub[v] == c[v] :: v in destCounts && destCounts[v] == c[v])
    && (forall u | u in made && u in sub :: made[u] in destCounts && destCounts[made[u]] == sub[u])
  }

  /** The destination so far; without one, nothing. */
  ghost predicate DestSoFar(s: seq<Shard>, c: map<UnitId, nat>, start: nat, length: nat, withDest: bool, i: nat,
                            made: map<UnitId, UnitId>, dest: seq<Shard>, destCounts: map<UnitId, nat>)
    requires start + length <= |s| && i <= length
  {
    && (!withDest ==> dest == [] && destCounts == map[])
    && (withDest ==> DestEntries(s, c, start, length, made, i, dest) && DestSizes(s, c, start, length, made, i, destCounts))
  }

  /**
   * The state of Detach's middle pass after i detached shards, for the map
   * s (already ordered) with unit sizes c, handles below n, and the new
   * values of the map, the sizes and the walk's own records.
   */
  ghost predicate Decomposing(s: seq<Shard>, c: map<UnitId, nat>, n: UnitId, start: nat, length: nat, withDest: bool, i: nat,
                              shards: seq<Shard>, counts: map<UnitId, nat>, nextId: UnitId,
                              decomposed: map<UnitId, nat>, thr: map<UnitId, nat>, made: map<UnitId, UnitId>,
                              dest: seq<Shard>, destCounts: map<UnitId, nat>)
  {
    && WellFormed(s, c) && Blocks(s, c, start, length) && i <= length
    && (forall u | u in c :: u < n)
    && shards == Mid(s, c, start, length, withDest, made, i)
    && Split(s, start, i, decomposed, thr)
    && Made(s, c, n, start, length, withDest, i, nextId, made)
    && Sizes(s, c, start, length, i, counts, nextId, made)
    && DestSoFar(s, c, start, length, withDest, i, made, dest, destCounts)
  }

  /** Before the first step: the map, the sizes and the handles as given, nothing recorded, the destination pending. */
  lemma WalkStart(s: seq<Shard>, c: map<UnitId, nat>, n: UnitId, start: nat, length: nat, withDest: bool, dest: seq<Shard>)
    requires WellFormed(s, c) && Blocks(s, c, start, length) && forall u | u in c :: u < n
    requires withDest ==> |dest| == length && forall k | 0 <= k < length :: dest[k] == Pending(s[start + k])
    requires !withDest ==> dest == []
    ensures Decomposing(s, c, n, start, length, withDest, 0, s, c, n, map[], map[], map[], dest, map[])
  {
    MidStart(s, c, start, length, withDest, map[]);
  }

  // ------------------------------------------------------------ the steps

  /** Shard j is the one qubit its unit keeps when step i splits off all the others. */
  ghost predicate LastKept(s: seq<Shard>, c: map<UnitId, nat>, start: nat, length: nat, i: nat, j: nat)
    requires start + length <= |s| && i < length && j < |s|
  {
    var sub := SubMap(s, start, length);
    && !(start <= j < start + length) && s[j].unit.Some? && s[j].unit == s[start + i].unit
    && s[j].unit.value !in Done(s, start, i)
    && s[j].unit.value in sub && s[j].unit.value in c && sub[s[j].unit.value] + 1 == c[s[j].unit.value]
  }

  /** A map of new units that grows only by the unit of shard start + i, met for the first time. */
  ghost predicate Grows(s: seq<Shard>, start: nat, i: nat, made: map<UnitId, UnitId>, made': map<UnitId, UnitId>)
    requires start + i < |s|
  {
    && (forall u | u in made :: u in made' && made'[u] == made[u])
    && (forall u | u in made' && u !in made :: s[start + i].unit == Some(u) && u !in Done(s, start, i))
  }

  /**
   * Step i changes the map at shard start + i and, when it splits off all
   * but one qubit of a unit, at the shard of that last qubit; nowhere else.
   */
  lemma MidAdvance(s: seq<Shard>, c: map<UnitId, nat>, start: nat, length: nat, withDest: bool,
                   made: map<UnitId, UnitId>, made': map<UnitId, UnitId>, i: nat, j: nat)
    requires start + length <= |s| && i < length && j < |s| && Grows(s, start, i, made, made')
    ensures j == start + i ==>
      Mid(s, c, start, length, withDest, made', i + 1)[j] == Taken(s[j], c, SubMap(s, start, length), made', withDest)
    ensures j != start + i && LastKept(s, c, start, length, i, j) ==>
      Mid(s, c, start, length, withDest, made', i + 1)[j] == Released(s[j]) && Mid(s, c, start, length, withDest, made, i)[j] == s[j]
    ensures j != start + i && !LastKept(s, c, start, length, i, j) ==>
      Mid(s, c, start, length, withDest, made', i + 1)[j] == Mid(s, c, start, length, withDest, made, i)[j]
  {
    DoneStep(s, start, i);
    if start <= j < start + i && s[j].unit.Some? {
      InDone(s, start, i, j);
    }
  }

  /**
   * When a unit keeps one qubit, that qubit's shard is the only shard of the
   * unit outside the block, and its slot is just above the block when the
   * block starts at slot 0, else slot 0: the slot Detach searches for.
   */
  lemma Remaining(s: seq<Shard>, c: map<UnitId, nat>, start: nat, length: nat, u: UnitId) returns (o: nat)
    requires WellFormed(s, c) && Blocks(s, c, start, length)
    requires u in SubMap(s, start, length) && u in c && SubMap(s, start, length)[u] + 1 == c[u]
    ensures o < |s| && !(start <= o < start + length) && s[o].unit == Some(u)
    ensures s[o].mapped == (if ThrMap(s, start, length)[u] == 0 then SubMap(s, start, length)[u] else 0)
    ensures forall j | 0 <= j < |s| && !(start <= j < start + length) && s[j].unit == Some(u) :: j == o
  {
    var sub, thr := SubMap(s, start, length), ThrMap(s, start, length);
    var kept := s[..start] + s[start + length..];
    var k := UnitsOfRange(s, start, length, u);
    CountSplit(s, start, length, u);
    OwnersCount(s, u);
    var q := CountSome(kept, u);
    o := if q < start then q else q + length;
    KeptAt(s, start, length, q);
    LastSlot(s, c, start, length, o);
    forall j | 0 <= j < |s| && !(start <= j < start + length) && s[j].unit == Some(u) ensures j == o {
      LastSlot(s, c, start, length, j);
      assert s[j].mapped == s[o].mapped;
    }
  }

  lemma LastSlot(s: seq<Shard>, c: map<UnitId, nat>, start: nat, length: nat, j: nat)
    requires WellFormed(s, c) && Blocks(s, c, start, length) && j < |s| && !(start <= j < start + length)
    requires s[j].unit.Some? && var u := s[j].unit.value;
      u in SubMap(s, start, length) && u in c && SubMap(s, start, length)[u] + 1 == c[u]
    ensures var u := s[j].unit.value;
      s[j].mapped == (if ThrMap(s, start, length)[u] == 0 then SubMap(s, start, length)[u] else 0)
  {
    KeptShard(s, c, start, length, j);
  }

  /** Moved and Taken look up the new units only under the shard's own unit. */
  lemma SameUnder(t: Shard, c: map<UnitId, nat>, sub: map<UnitId, nat>, thr: map<UnitId, nat>,
                  made: map<UnitId, UnitId>, made': map<UnitId, UnitId>, withDest: bool)
    requires t.unit.Some? ==> (t.unit.value in made <==> t.unit.value in made')
    requires t.unit.Some? && t.unit.value in made ==> made[t.unit.value] == made'[t.unit.value]
    ensures Moved(t, c, sub, thr, made) == Moved(t, c, sub, thr, made')
    ensures Taken(t, c, sub, made, withDest) == Taken(t, c, sub, made', withDest)
  {
  }

  /**
   * The destination entry of a detached shard, from its entry in the map
   * once split off: the shard of a new unit takes its offset within the
   * block as its slot.
   */
  function Rebased(d: Shard, u: UnitId, made: map<UnitId, UnitId>, thr: map<UnitId, nat>): Shard
  {
    if u in made && u in thr && d.unit == Some(made[u]) && d.mapped >= thr[u] then d.(mapped := d.mapped - thr[u]) else d
  }

  lemma MovedIsRebased(s: seq<Shard>, c: map<UnitId, nat>, start: nat, length: nat, made: map<UnitId, UnitId>, n: UnitId, i: nat)
    requires Blocks(s, c, start, length) && i < length && s[start + i].unit.Some?
    requires forall u | u in c :: u < n
    requires forall u | u in made :: n <= made[u]
    requires var sub, u := SubMap(s, start, length), s[start + i].unit.value;
      u in sub && u in c && sub[u] != c[u] && sub[u] != 1 ==> u in made
    ensures var t, sub, thr := s[start + i], SubMap(s, start, length), ThrMap(s, start, length);
      Moved(t, c, sub, thr, made) == Rebased(Taken(t, c, sub, made, true), t.unit.value, made, thr)
  {
    BlockShard(s, c, start, length, i);
  }

  // ---------------------------------------------- the invariant, step by step

  /** A unit met for the first time at shard start + i has that shard first, at its recorded slot. */
  lemma FirstMet(s: seq<Shard>, start: nat, i: nat)
    requires start + i < |s| && s[start + i].unit.Some? && s[start + i].unit.value !in Done(s, start, i)
    ensures First(s, s[start + i].unit.value, start) == start + i
    ensures FirstSlot(s, s[start + i].unit.value, start) == s[start + i].mapped
  {
    NotDone(s, start, i, s[start + i].unit.value);
  }

  lemma SplitFirst(s: seq<Shard>, start: nat, i: nat, decomposed: map<UnitId, nat>, thr: map<UnitId, nat>)
    requires start + i < |s| && Split(s, start, i, decomposed, thr)
    requires s[start + i].unit.Some? && s[start + i].unit.value !in Done(s, start, i)
    ensures var u := s[start + i].unit.value;
      Split(s, start, i + 1, decomposed[u := start + i], thr[u := s[start + i].mapped])
  {
    DoneStep(s, start, i);
    FirstMet(s, start, i);
  }

  lemma SplitAgain(s: seq<Shard>, start: nat, i: nat, decomposed: map<UnitId, nat>, thr: map<UnitId, nat>)
    requires start + i < |s| && Split(s, start, i, decomposed, thr)
    requires s[start + i].unit.None? || s[start + i].unit.value in Done(s, start, i)
    ensures Split(s, start, i + 1, decomposed, thr)
  {
    DoneStep(s, start, i);
  }

  /** Splitting off a partly detached unit with a destination makes one new unit, handle nextId. */
  lemma MadeNew(s: seq<Shard>, c: map<UnitId, nat>, n: UnitId, start: nat, length: nat, i: nat,
                nextId: UnitId, made: map<UnitId, UnitId>)
    requires start + length <= |s| && i < length && Made(s, c, n, start, length, true, i, nextId, made)
    requires s[start + i].unit.Some? && s[start + i].unit.value !in Done(s, start, i)
    requires var u, sub := s[start + i].unit.value, SubMap(s, start, length); u in sub && u in c && sub[u] != c[u]
    ensures Made(s, c, n, start, length, true, i + 1, nextId + 1, made[s[start + i].unit.value := nextId])
    ensures Grows(s, start, i, made, made[s[start + i].unit.value := nextId])
  {
    DoneStep(s, start, i);
  }

  /** Any other step makes no unit. */
  lemma MadeSame(s: seq<Shard>, c: map<UnitId, nat>, n: UnitId, start: nat, length: nat, withDest: bool, i: nat,
                 nextId: UnitId, made: map<UnitId, UnitId>)
    requires start + length <= |s| && i < length && Made(s, c, n, start, length, withDest, i, nextId, made)
    requires withDest && s[start + i].unit.Some? && s[start + i].unit.value !in Done(s, start, i) ==>
      var u, sub := s[start + i].unit.value, SubMap(s, start, length); u in sub && u in c && sub[u] == c[u]
    ensures Made(s, c, n, start, length, withDest, i + 1, nextId, made)
    ensures Grows(s, start, i, made, made)
  {
    DoneStep(s, start, i);
  }

  /**
   * The sizes after splitting off a partly detached unit: it loses its
   * detached qubits, and the new unit (when there is a destination) holds them.
   */
  lemma SizesShrink(s: seq<Shard>, c: map<UnitId, nat>, n: UnitId, start: nat, length: nat, withDest: bool, i: nat,
                    counts: map<UnitId, nat>, nextId: UnitId, made: map<UnitId, UnitId>)
    requires start + length <= |s| && i < length
    requires Sizes(s, c, start, length, i, counts, nextId, made) && Made(s, c, n, start, length, withDest, i, nextId, made)
    requires forall u | u in c :: u < n
    requires s[start + i].unit.Some? && s[start + i].unit.value !in Done(s, start, i)
    requires var u, sub := s[start + i].unit.value, SubMap(s, start, length); u in sub && u in c && sub[u] < c[u]
    ensures var u, sub := s[start + i].unit.value, SubMap(s, start, length);
      && u in counts && counts[u] == c[u]
      && var counts' := (if withDest then counts[nextId := sub[u]] else counts)[u := c[u] - sub[u]];
         var made' := if withDest then made[u := nextId] else made;
         Sizes(s, c, start, length, i + 1, counts', if withDest then nextId + 1 else nextId, made')
  {
    DoneStep(s, start, i);
  }

  lemma SizesSame(s: seq<Shard>, c: map<UnitId, nat>, start: nat, length: nat, i: nat,
                  counts: map<UnitId, nat>, nextId: UnitId, made: map<UnitId, UnitId>)
    requires start + length <= |s| && i < length && Sizes(s, c, start, length, i, counts, nextId, made)
    requires s[start + i].unit.Some? && s[start + i].unit.value !in Done(s, start, i) ==>
      var u, sub := s[start + i].unit.value, SubMap(s, start, length); u in sub && u in c && sub[u] == c[u]
    ensures Sizes(s, c, start, length, i + 1, counts, nextId, made)
    ensures s[start + i].unit.Some? && s[start + i].unit.value !in Done(s, start, i) ==>
      s[start + i].unit.value in counts && counts[s[start + i].unit.value] == c[s[start + i].unit.value]
  {
    DoneStep(s, start, i);
  }

  /** The destination entries already written stay put as the map of new units grows. */
  lemma DestKept(s: seq<Shard>, c: map<UnitId, nat>, start: nat, length: nat, i: nat,
                 made: map<UnitId, UnitId>, made': map<UnitId, UnitId>, k: nat)
    requires start + length <= |s| && i < length && k < i && Grows(s, start, i, made, made')
    ensures var sub, thr := SubMap(s, start, length), ThrMap(s, start, length);
      Moved(s[start + k], c, sub, thr, made) == Moved(s[start + k], c, sub, thr, made')
  {
    if s[start + k].unit.Some? {
      InDone(s, start, i, start + k);
    }
    SameUnder(s[start + k], c, SubMap(s, start, length), ThrMap(s, start, length), made, made', true);
  }

  /** Step i writes destination entry i and leaves the others as they were. */
  lemma DestEntriesStep(s: seq<Shard>, c: map<UnitId, nat>, start: nat, length: nat, i: nat,
                        made: map<UnitId, UnitId>, made': map<UnitId, UnitId>, dest: seq<Shard>)
    requires start + length <= |s| && i < length && Grows(s, start, i, made, made')
    requires DestEntries(s, c, start, length, made, i, dest)
    ensures DestEntries(s, c, start, length, made', i + 1,
                        dest[i := Moved(s[start + i], c, SubMap(s, start, length), ThrMap(s, start, length), made')])
  {
    var d := dest[i := Moved(s[start + i], c, SubMap(s, start, length), ThrMap(s, start, length), made')];
    forall k | 0 <= k < length ensures d[k] == DestAt(s, c, start, length, made', i + 1, k) {
      DestAtStep(s, c, start, length, i, made, made', k);
    }
  }

  lemma DestAtStep(s: seq<Shard>, c: map<UnitId, nat>, start: nat, length: nat, i: nat,
                   made: map<UnitId, UnitId>, made': map<UnitId, UnitId>, k: nat)
    requires start + length <= |s| && i < length && k < length && Grows(s, start, i, made, made')
    ensures DestAt(s, c, start, length, made', i + 1, k)
         == if k == i then Moved(s[start + i], c, SubMap(s, start, length), ThrMap(s, start, length), made')
            else DestAt(s, c, start, length, made, i, k)
  {
    if k < i {
      DestKept(s, c, start, length, i, made, made', k);
    }
  }

  /** A step that makes no unit and no whole unit: the destination gains entry i only. */
  lemma DestAgain(s: seq<Shard>, c: map<UnitId, nat>, start: nat, length: nat, withDest: bool, i: nat,
                  made: map<UnitId, UnitId>, dest: seq<Shard>, destCounts: map<UnitId, nat>)
    requires start + length <= |s| && i < length && DestSoFar(s, c, start, length, withDest, i, made, dest, destCounts)
    requires s[start + i].unit.None? || s[start + i].unit.value in Done(s, start, i)
    ensures var sub, thr := SubMap(s, start, length), ThrMap(s, start, length);
      DestSoFar(s, c, start, length, withDest, i + 1, made,
                if withDest then dest[i := Moved(s[start + i], c, sub, thr, made)] else dest, destCounts)
  {
    if withDest {
      DestEntriesStep(s, c, start, length, i, made, made, dest);
      DoneStep(s, start, i);
    }
  }

  /** A wholly detached unit met first: the destination takes it over at its old size. */
  lemma DestWhole(s: seq<Shard>, c: map<UnitId, nat>, n: UnitId, start: nat, length: nat, withDest: bool, i: nat,
                  made: map<UnitId, UnitId>, dest: seq<Shard>, destCounts: map<UnitId, nat>)
    requires start + length <= |s| && i < length && DestSoFar(s, c, start, length, withDest, i, made, dest, destCounts)
    requires forall u | u in c :: u < n
    requires forall u | u in made :: n <= made[u]
    requires s[start + i].unit.Some? && s[start + i].unit.value !in Done(s, start, i)
    requires var u, sub := s[start + i].unit.value, SubMap(s, start, length); u in sub && u in c && sub[u] == c[u]
    ensures var u, sub, thr := s[start + i].unit.value, SubMap(s, start, length), ThrMap(s, start, length);
      DestSoFar(s, c, start, length, withDest, i + 1, made,
                if withDest then dest[i := Moved(s[start + i], c, sub, thr, made)] else dest,
                if withDest then destCounts[u := c[u]] else destCounts)
  {
    if withDest {
      DestEntriesStep(s, c, start, length, i, made, made, dest);
      DestSizesWhole(s, c, n, start, length, i, made, destCounts);
    }
  }

  /** A partly detached unit met first: the destination's new unit nextId holds its detached qubits. */
  lemma DestNew(s: seq<Shard>, c: map<UnitId, nat>, n: UnitId, start: nat, length: nat, withDest: bool, i: nat,
                nextId: UnitId, made: map<UnitId, UnitId>, dest: seq<Shard>, destCounts: map<UnitId, nat>)
    requires start + length <= |s| && i < length && DestSoFar(s, c, start, length, withDest, i, made, dest, destCounts)
    requires Made(s, c, n, start, length, withDest, i, nextId, made) && forall u | u in c :: u < n
    requires s[start + i].unit.Some? && s[start + i].unit.value !in Done(s, start, i)
    requires var u, sub := s[start + i].unit.value, SubMap(s, start, length); u in sub && u in c && sub[u] != c[u]
    ensures var u, sub, thr := s[start + i].unit.value, SubMap(s, start, length), ThrMap(s, start, length);
      var made' := if withDest then made[u := nextId] else made;
      DestSoFar(s, c, start, length, withDest, i + 1, made',
                if withDest then dest[i := Moved(s[start + i], c, sub, thr, made')] else dest,
                if withDest then destCounts[nextId := sub[u]] else destCounts)
  {
    var u := s[start + i].unit.value;
    if withDest {
      MadeNew(s, c, n, start, length, i, nextId, made);
      DestEntriesStep(s, c, start, length, i, made, made[u := nextId], dest);
      DestSizesNew(s, c, n, start, length, i, nextId, made, destCounts);
    }
  }

  lemma DestSizesWhole(s: seq<Shard>, c: map<UnitId, nat>, n: UnitId, start: nat, length: nat, i: nat,
                       made: map<UnitId, UnitId>, destCounts: map<UnitId, nat>)
    requires start + length <= |s| && i < length && DestSizes(s, c, start, length, made, i, destCounts)
    requires forall u | u in c :: u < n
    requires forall u | u in made :: n <= made[u]
    requires s[start + i].unit.Some? && s[start + i].unit.value in c
    ensures var u := s[start + i].unit.value;
      DestSizes(s, c, start, length, made, i + 1, destCounts[u := c[u]])
  {
    DoneStep(s, start, i);
  }

  lemma DestSizesNew(s: seq<Shard>, c: map<UnitId, nat>, n: UnitId, start: nat, length: nat, i: nat,
                     nextId: UnitId, made: map<UnitId, UnitId>, destCounts: map<UnitId, nat>)
    requires start + length <= |s| && i < length && DestSizes(s, c, start, length, made, i, destCounts)
    requires Made(s, c, n, start, length, true, i, nextId, made) && forall u | u in c :: u < n
    requires s[start + i].unit.Some? && s[start + i].unit.value !in Done(s, start, i)
    requires var u, sub := s[start + i].unit.value, SubMap(s, start, length); u in sub && u in c && sub[u] != c[u]
    ensures var u, sub := s[start + i].unit.value, SubMap(s, start, length);
      DestSizes(s, c, start, length, made[u := nextId], i + 1, destCounts[nextId := sub[u]])
  {
    DoneStep(s, start, i);
  }

  /** A step that finds the unit split already, or no unit: the map changes at shard start + i only. */
  lemma MidAgain(s: seq<Shard>, c: map<UnitId, nat>, start: nat, length: nat, withDest: bool,
                 made: map<UnitId, UnitId>, i: nat)
    requires start + length <= |s| && i < length
    requires s[start + i].unit.None? || s[start + i].unit.value in Done(s, start, i)
    ensures Mid(s, c, start, length, withDest, made, i + 1)
         == Mid(s, c, start, length, withDest, made, i)[start + i := Taken(s[start + i], c, SubMap(s, start, length), made, withDest)]
  {
    var m1 := Mid(s, c, start, length, withDest, made, i + 1);
    var m0 := Mid(s, c, start, length, withDest, made, i)[start + i := Taken(s[start + i], c, SubMap(s, start, length), made, withDest)];
    forall j | 0 <= j < |s| ensures m1[j] == m0[j] {
      MidAdvance(s, c, start, length, withDest, made, made, i, j);
    }
  }

  /** A unit met first that keeps more than one qubit, or none: again only shard start + i changes. */
  lemma MidFirst(s: seq<Shard>, c: map<UnitId, nat>, start: nat, length: nat, withDest: bool,
                 made: map<UnitId, UnitId>, made': map<UnitId, UnitId>, i: nat)
    requires start + length <= |s| && i < length && Grows(s, start, i, made, made')
    requires s[start + i].unit.Some? && s[start + i].unit.value !in Done(s, start, i)
    requires var u, sub := s[start + i].unit.value, SubMap(s, start, length); !(u in sub && u in c && sub[u] + 1 == c[u])
    ensures Mid(s, c, start, length, withDest, made', i + 1)
         == Mid(s, c, start, length, withDest, made, i)[start + i := Taken(s[start + i], c, SubMap(s, start, length), made', withDest)]
  {
    var m1 := Mid(s, c, start, length, withDest, made', i + 1);
    var m0 := Mid(s, c, start, length, withDest, made, i)[start + i := Taken(s[start + i], c, SubMap(s, start, length), made', withDest)];
    forall j | 0 <= j < |s| ensures m1[j] == m0[j] {
      MidAdvance(s, c, start, length, withDest, made, made', i, j);
    }
  }

  /**
   * A unit met first that keeps one qubit: the map changes at shard
   * start + i and at the kept qubit o, which is released.
   */
  lemma MidLast(s: seq<Shard>, c: map<UnitId, nat>, start: nat, length: nat, withDest: bool,
                made: map<UnitId, UnitId>, made': map<UnitId, UnitId>, i: nat, o: nat)
    requires start + length <= |s| && i < length && Grows(s, start, i, made, made')
    requires o < |s| && o != start + i && LastKept(s, c, start, length, i, o)
    requires forall j | 0 <= j < |s| && j != start + i && LastKept(s, c, start, length, i, j) :: j == o
    ensures Mid(s, c, start, length, withDest, made', i + 1)
         == Mid(s, c, start, length, withDest, made, i)[start + i := Taken(s[start + i], c, SubMap(s, start, length), made', withDest)]
              [o := Released(s[o])]
  {
    var m1 := Mid(s, c, start, length, withDest, made', i + 1);
    var m0 := Mid(s, c, start, length, withDest, made, i)[start + i := Taken(s[start + i], c, SubMap(s, start, length), made', withDest)]
                [o := Released(s[o])];
    forall j | 0 <= j < |s| ensures m1[j] == m0[j] {
      MidAdvance(s, c, start, length, withDest, made, made', i, j);
    }
  }

  /**
   * A unit met again at shard start + i was met first at decomposed[u],
   * already handled, whose unit in the map is the one shard start + i takes.
   */
  lemma NextShard(s: seq<Shard>, c: map<UnitId, nat>, start: nat, length: nat, withDest: bool, i: nat,
                  made: map<UnitId, UnitId>, decomposed: map<UnitId, nat>, thr: map<UnitId, nat>)
    requires WellFormed(s, c) && Blocks(s, c, start, length) && i < length
    requires Split(s, start, i, decomposed, thr)
    requires s[start + i].unit.Some? && s[start + i].unit.value in Done(s, start, i)
    ensures var u, sub := s[start + i].unit.value, SubMap(s, start, length);
      && u in decomposed && start <= decomposed[u] < start + i && s[decomposed[u]].unit == Some(u)
      && s[start + i].(unit := Taken(s[decomposed[u]], c, sub, made, withDest).unit) == Taken(s[start + i], c, sub, made, withDest)
  {
    var u := s[start + i].unit.value;
    FirstOfDone(s, start, i, u);
    var f := decomposed[u];
    assert f == First(s, u, start);
    SeenTwice(s, c, start, length, i, u);
    TakenAlike(s[f], s[start + i], c, SubMap(s, start, length), made, withDest);
  }

  lemma FirstOfDone(s: seq<Shard>, start: nat, i: nat, u: UnitId)
    requires start + i <= |s| && u in Done(s, start, i)
    ensures start <= First(s, u, start) < start + i && s[First(s, u, start)].unit == Some(u)
  {
    var t := s[start..start + i];
    var k :| 0 <= k < |t| && t[k].unit.Some? && t[k].unit.value == u;
    assert s[start + k] == t[k];
  }

  /** A detached shard whose unit an earlier detached shard holds: the unit has at least two detached qubits. */
  lemma SeenTwice(s: seq<Shard>, c: map<UnitId, nat>, start: nat, length: nat, i: nat, u: UnitId)
    requires Injective(s) && Blocks(s, c, start, length) && i < length
    requires s[start + i].unit == Some(u) && u in Done(s, start, i)
    ensures u in SubMap(s, start, length) && SubMap(s, start, length)[u] >= 2
  {
    FirstOfDone(s, start, i, u);
    var a, b := First(s, u, start), start + i;
    var t := s[start..start + length];
    assert t[a - start] == s[a];
    assert u in UnitsOf(t);
    assert Block(s, c, u, start, length, FirstSlot(s, u, start), CountIn(t, u));
    assert s[a].mapped != s[b].mapped;
  }

  /** Shards of one unit that has more than one detached qubit are handled alike. */
  lemma TakenAlike(t1: Shard, t2: Shard, c: map<UnitId, nat>, sub: map<UnitId, nat>, made: map<UnitId, UnitId>, withDest: bool)
    requires t1.unit.Some? && t1.unit == t2.unit && (t1.unit.value in sub ==> sub[t1.unit.value] >= 2)
    ensures t2.(unit := Taken(t1, c, sub, made, withDest).unit) == Taken(t2, c, sub, made, withDest)
  {
  }

  /**
   * The search for the kept qubit of a unit split off at step i: in the map
   * after shard start + i is handled, the only shard of the unit at the
   * searched-for slot is that qubit, and it is still as it was.
   */
  lemma LastFound(s: seq<Shard>, c: map<UnitId, nat>, n: UnitId, start: nat, length: nat, withDest: bool, i: nat,
                  made: map<UnitId, UnitId>, made': map<UnitId, UnitId>, k: nat)
    requires Blocks(s, c, start, length) && i < length && (forall u | u in c :: u < n)
    requires Grows(s, start, i, made, made') && forall u | u in made' :: n <= made'[u]
    requires s[start + i].unit.Some? && s[start + i].unit.value !in Done(s, start, i)
    requires var u, sub := s[start + i].unit.value, SubMap(s, start, length); u in sub && u in c && sub[u] + 1 == c[u]
    requires k < |s|
    requires var u, sub, thr := s[start + i].unit.value, SubMap(s, start, length), ThrMap(s, start, length);
      var m := Mid(s, c, start, length, withDest, made, i)[start + i := Taken(s[start + i], c, sub, made', withDest)];
      m[k].unit == Some(u) && m[k].mapped == (if thr[u] == 0 then sub[u] else 0)
    ensures k != start + i && LastKept(s, c, start, length, i, k)
  {
    BlockAt(s, c, start, length, k);
    NamesUnit(s, c, n, start, length, withDest, i, made, made', k);
  }

  /**
   * In the map after shard start + i is handled, a shard that names the unit
   * of shard start + i, met for the first time, is an original shard of that
   * unit at its original slot.
   */
  lemma NamesUnit(s: seq<Shard>, c: map<UnitId, nat>, n: UnitId, start: nat, length: nat, withDest: bool, i: nat,
                  made: map<UnitId, UnitId>, made': map<UnitId, UnitId>, k: nat)
    requires start + length <= |s| && i < length && k < |s| && (forall u | u in c :: u < n)
    requires Grows(s, start, i, made, made') && forall u | u in made' :: n <= made'[u]
    requires s[start + i].unit.Some? && s[start + i].unit.value !in Done(s, start, i) && s[start + i].unit.value in c
    ensures var u, sub := s[start + i].unit.value, SubMap(s, start, length);
      var m := Mid(s, c, start, length, withDest, made, i)[start + i := Taken(s[start + i], c, sub, made', withDest)];
      m[k].unit == Some(u) ==> s[k].unit == Some(u) && m[k].mapped == s[k].mapped
  {
    DoneAt(s, start, i, k);
  }

  /** BlockShard for any index: the facts hold when the index falls in the block. */
  lemma BlockAt(s: seq<Shard>, c: map<UnitId, nat>, start: nat, length: nat, k: nat)
    requires Blocks(s, c, start, length) && k < |s|
    ensures start <= k < start + length && s[k].unit.Some? ==>
      var u, sub, thr := s[k].unit.value, SubMap(s, start, length), ThrMap(s, start, length);
      && u in sub && u in c && u in thr && sub[u] <= c[u] && thr[u] <= s[k].mapped < thr[u] + sub[u]
  {
    if start <= k < start + length && s[k].unit.Some? {
      BlockShard(s, c, start, length, k - start);
    }
  }

  lemma DoneAt(s: seq<Shard>, start: nat, i: nat, k: nat)
    requires start + i <= |s| && k < |s|
    ensures start <= k < start + i && s[k].unit.Some? ==> s[k].unit.value in Done(s, start, i)
  {
    if start <= k < start + i && s[k].unit.Some? {
      InDone(s, start, i, k);
    }
  }

  /** ... and the search finds it: the kept qubit is there, at the searched-for slot. */
  lemma LastThere(s: seq<Shard>, c: map<UnitId, nat>, start: nat, length: nat, withDest: bool, i: nat,
                  made: map<UnitId, UnitId>, made': map<UnitId, UnitId>) returns (o: nat)
    requires WellFormed(s, c) && Blocks(s, c, start, length) && i < length && Grows(s, start, i, made, made')
    requires s[start + i].unit.Some? && s[start + i].unit.value !in Done(s, start, i)
    requires var u, sub := s[start + i].unit.value, SubMap(s, start, length); u in sub && u in c && sub[u] + 1 == c[u]
    ensures o < |s| && o != start + i && LastKept(s, c, start, length, i, o)
    ensures forall j | 0 <= j < |s| && j != start + i && LastKept(s, c, start, length, i, j) :: j == o
    ensures var u, sub, thr := s[start + i].unit.value, SubMap(s, start, length), ThrMap(s, start, length);
      var m := Mid(s, c, start, length, withDest, made, i)[start + i := Taken(s[start + i], c, sub, made', withDest)];
      m[o] == s[o] && s[o].unit == Some(u) && s[o].mapped == (if thr[u] == 0 then sub[u] else 0)
  {
    o := Remaining(s, c, start, length, s[start + i].unit.value);
    MidAdvance(s, c, start, length, withDest, made, made', i, o);
  }

  // -------------------------------------------------------- start and finish

  /** Maps alike but for slots, whose unit-less shards are untouched (what OrderContiguous does). */
  ghost predicate SlotsOnly(s: seq<Shard>, r: seq<Shard>)
  {
    && |r| == |s|
    && (forall j | 0 <= j < |s| :: r[j] == s[j].(mapped := r[j].mapped))
    && (forall j | 0 <= j < |s| && s[j].unit.None? :: r[j] == s[j])
  }

  lemma SlotsOnlyRefl(s: seq<Shard>)
    ensures SlotsOnly(s, s)
  {
  }

  /** Reordering slots leaves the destination's pending entries as they were. */
  lemma SlotsOnlyPending(s: seq<Shard>, r: seq<Shard>)
    requires SlotsOnly(s, r)
    ensures forall j | 0 <= j < |s| :: Pending(r[j]) == Pending(s[j])
  {
  }

  /** Reordering slots leaves the count of detached qubits per unit as it was. */
  lemma SlotsOnlySubMap(s: seq<Shard>, r: seq<Shard>, start: nat, length: nat)
    requires SlotsOnly(s, r) && start + length <= |s|
    ensures SubMap(r, start, length) == SubMap(s, start, length)
  {
    var a, b := s[start..start + length], r[start..start + length];
    assert forall k | 0 <= k < |a| :: a[k].unit == b[k].unit;
    assert UnitsOf(a) == UnitsOf(b);
    forall u ensures CountIn(a, u) == CountIn(b, u) {
      assert Owners(a, u) == Owners(b, u);
      OwnersCount(a, u);
      OwnersCount(b, u);
    }
  }

  /** The count loop of Detach: one more detached shard counted. */
  lemma SubMapStep(s: seq<Shard>, start: nat, i: nat)
    requires start + i < |s|
    ensures var sub, t := SubMap(s, start, i), s[start + i];
      SubMap(s, start, i + 1) ==
        if t.unit.None? then sub
        else sub[t.unit.value := (if t.unit.value in sub then sub[t.unit.value] else 0) + 1]
  {
    var a, b := s[start..start + i], s[start..start + i + 1];
    DoneStep(s, start, i);
    assert b[..|b| - 1] == a;
    var x := s[start + i];
    if x.unit.Some? && x.unit.value !in UnitsOf(a) {
      NotInRange(s, start, i, x.unit.value);
    }
  }

  /** Before the walk the map is the ordered map itself. */
  lemma MidStart(s: seq<Shard>, c: map<UnitId, nat>, start: nat, length: nat, withDest: bool, made: map<UnitId, UnitId>)
    requires start + length <= |s|
    ensures Mid(s, c, start, length, withDest, made, 0) == s
    ensures Done(s, start, 0) == {}
  {
    assert s[start..start] == [];
  }

  /** The walk ends having met every detached unit, at the block's lower end. */
  lemma SplitDone(s: seq<Shard>, start: nat, length: nat, decomposed: map<UnitId, nat>, thr: map<UnitId, nat>)
    requires start + length <= |s| && Split(s, start, length, decomposed, thr)
    ensures Done(s, start, length) == SubMap(s, start, length).Keys
    ensures thr == ThrMap(s, start, length)
  {
  }

  /** After the walk the units left behind have their RestCounts sizes. */
  lemma SizesDone(s: seq<Shard>, c: map<UnitId, nat>, start: nat, length: nat,
                  counts: map<UnitId, nat>, nextId: UnitId, made: map<UnitId, UnitId>)
    requires start + length <= |s| && Sizes(s, c, start, length, length, counts, nextId, made)
    ensures forall v | v in c :: v in counts && counts[v] == RestCounts(c, s, start, length)[v]
  {
  }

  /**
   * After the walk with a destination: the destination is DestOf, with the
   * new units and sizes DestKeeps needs.
   */
  lemma DestDone(s: seq<Shard>, c: map<UnitId, nat>, n: UnitId, start: nat, length: nat, nextId: UnitId,
                 made: map<UnitId, UnitId>, dest: seq<Shard>, destCounts: map<UnitId, nat>)
    requires WellFormed(s, c) && Blocks(s, c, start, length) && forall u | u in c :: u < n
    requires Made(s, c, n, start, length, true, length, nextId, made)
    requires DestSoFar(s, c, start, length, true, length, made, dest, destCounts)
    ensures dest == DestOf(s, c, start, length, made)
    ensures DestReady(s, c, destCounts, start, length, made)
  {
    var d := DestOf(s, c, start, length, made);
    assert forall k | 0 <= k < length :: dest[k] == DestAt(s, c, start, length, made, length, k);
  }

  /**
   * The closing loop (each shard Shifted) and the erase of the block, after
   * the whole walk, leave exactly the shards of Rest.
   */
  lemma MidRest(s: seq<Shard>, c: map<UnitId, nat>, start: nat, length: nat, withDest: bool,
                made: map<UnitId, UnitId>, m: seq<Shard>)
    requires start + length <= |s| && |m| == |s|
    requires forall j | 0 <= j < |s| ::
      m[j] == Shifted(Mid(s, c, start, length, withDest, made, length)[j], SubMap(s, start, length), ThrMap(s, start, length))
    ensures m[..start] + m[start + length..] == Rest(s, c, start, length)
  {
    var r, e := Rest(s, c, start, length), m[..start] + m[start + length..];
    forall j | 0 <= j < |r| ensures e[j] == r[j] {
      KeptAt(s, start, length, j);
      KeptAt(m, start, length, j);
    }
  }

  // ------------------------------------------------------ whole steps

  /** Step i at a unit-less shard, or at one whose unit the walk has split off already. */
  lemma SeenStep(s: seq<Shard>, c: map<UnitId, nat>, n: UnitId, start: nat, length: nat, withDest: bool, i: nat,
                 shards: seq<Shard>, counts: map<UnitId, nat>, nextId: UnitId,
                 decomposed: map<UnitId, nat>, thr: map<UnitId, nat>, made: map<UnitId, UnitId>,
                 dest: seq<Shard>, destCounts: map<UnitId, nat>)
    requires i < length
    requires Decomposing(s, c, n, start, length, withDest, i, shards, counts, nextId, decomposed, thr, made, dest, destCounts)
    requires s[start + i].unit.None? || s[start + i].unit.value in decomposed
    ensures var sub, thr0 := SubMap(s, start, length), ThrMap(s, start, length);
      Decomposing(s, c, n, start, length, withDest, i + 1,
                  shards[start + i := Taken(s[start + i], c, sub, made, withDest)], counts, nextId, decomposed, thr, made,
                  if withDest then dest[i := Moved(s[start + i], c, sub, thr0, made)] else dest, destCounts)
  {
    SplitAgain(s, start, i, decomposed, thr);
    MadeSame(s, c, n, start, length, withDest, i, nextId, made);
    SizesSame(s, c, start, length, i, counts, nextId, made);
    DestAgain(s, c, start, length, withDest, i, made, dest, destCounts);
    MidAgain(s, c, start, length, withDest, made, i);
  }

  /** Step i at the first shard of a wholly detached unit: the map stays; a destination takes the unit over. */
  lemma WholeStep(s: seq<Shard>, c: map<UnitId, nat>, n: UnitId, start: nat, length: nat, withDest: bool, i: nat,
                  shards: seq<Shard>, counts: map<UnitId, nat>, nextId: UnitId,
                  decomposed: map<UnitId, nat>, thr: map<UnitId, nat>, made: map<UnitId, UnitId>,
                  dest: seq<Shard>, destCounts: map<UnitId, nat>)
    requires i < length
    requires Decomposing(s, c, n, start, length, withDest, i, shards, counts, nextId, decomposed, thr, made, dest, destCounts)
    requires s[start + i].unit.Some? && s[start + i].unit.value !in decomposed
    requires var u, sub := s[start + i].unit.value, SubMap(s, start, length); u in sub && u in c && sub[u] == c[u]
    ensures var u := s[start + i].unit.value;
      Decomposing(s, c, n, start, length, withDest, i + 1,
                  shards, counts, nextId, decomposed[u := start + i], thr[u := s[start + i].mapped], made,
                  if withDest then dest[i := s[start + i]] else dest,
                  if withDest then destCounts[u := c[u]] else destCounts)
  {
    SplitFirst(s, start, i, decomposed, thr);
    MadeSame(s, c, n, start, length, withDest, i, nextId, made);
    SizesSame(s, c, start, length, i, counts, nextId, made);
    DestWhole(s, c, n, start, length, withDest, i, made, dest, destCounts);
    MidFirst(s, c, start, length, withDest, made, made, i);
    assert shards[start + i := s[start + i]] == shards;
  }

  /**
   * Step i at the first shard of a partly detached unit: the unit shrinks,
   * a destination gets a new unit (handle nextId) for the detached qubits,
   * and when one qubit stays behind, its shard o is released.
   */
  lemma PartStep(s: seq<Shard>, c: map<UnitId, nat>, n: UnitId, start: nat, length: nat, withDest: bool, i: nat,
                 shards: seq<Shard>, counts: map<UnitId, nat>, nextId: UnitId,
                 decomposed: map<UnitId, nat>, thr: map<UnitId, nat>, made: map<UnitId, UnitId>,
                 dest: seq<Shard>, destCounts: map<UnitId, nat>, o: nat)
    requires i < length
    requires Decomposing(s, c, n, start, length, withDest, i, shards, counts, nextId, decomposed, thr, made, dest, destCounts)
    requires s[start + i].unit.Some? && s[start + i].unit.value !in decomposed
    requires var u, sub := s[start + i].unit.value, SubMap(s, start, length); u in sub && u in c && sub[u] < c[u]
    requires var u, sub := s[start + i].unit.value, SubMap(s, start, length);
      sub[u] + 1 == c[u] ==>
        && o < |s| && o != start + i && LastKept(s, c, start, length, i, o)
        && forall j | 0 <= j < |s| && j != start + i && LastKept(s, c, start, length, i, j) :: j == o
    ensures var u, sub, thr0 := s[start + i].unit.value, SubMap(s, start, length), ThrMap(s, start, length);
      var made' := if withDest then made[u := nextId] else made;
      var m := shards[start + i := Taken(s[start + i], c, sub, made', withDest)];
      var grown: map<UnitId, nat> := if withDest then counts[nextId := sub[u]] else counts;
      Decomposing(s, c, n, start, length, withDest, i + 1,
                  if sub[u] + 1 == c[u] then m[o := Released(s[o])] else m,
                  grown[u := c[u] - sub[u]],
                  if withDest then nextId + 1 else nextId,
                  decomposed[u := start + i], thr[u := s[start + i].mapped], made',
                  if withDest then dest[i := Moved(s[start + i], c, sub, thr0, made')] else dest,
                  if withDest then destCounts[nextId := sub[u]] else destCounts)
  {
    var u, sub := s[start + i].unit.value, SubMap(s, start, length);
    var made' := if withDest then made[u := nextId] else made;
    SplitFirst(s, start, i, decomposed, thr);
    if withDest {
      MadeNew(s, c, n, start, length, i, nextId, made);
    } else {
      MadeSame(s, c, n, start, length, withDest, i, nextId, made);
    }
    SizesShrink(s, c, n, start, length, withDest, i, counts, nextId, made);
    DestNew(s, c, n, start, length, withDest, i, nextId, made, dest, destCounts);
    if sub[u] + 1 == c[u] {
      MidLast(s, c, start, length, withDest, made, made', i, o);
    } else {
      MidFirst(s, c, start, length, withDest, made, made', i);
    }
  }

  /**
   * What QUnit.StepFirst does at the first detached shard t = shards[start + i]
   * of a unit u that keeps some of its qubits, q of them detached: the shard
   * takes the new unit (or is released when q == 1) in a destination, u
   * shrinks by q and the new unit holds q, and when one qubit is left
   * behind, the first shard k of u at the slot it keeps is released.
   */
  ghost predicate PartTaken(start: nat, i: nat, withDest: bool, q: nat,
                            shards: seq<Shard>, counts: map<UnitId, nat>, nextId: UnitId,
                            thr: map<UnitId, nat>, made: map<UnitId, UnitId>, dest: seq<Shard>, destCounts: map<UnitId, nat>, k: nat,
                            shards': seq<Shard>, counts': map<UnitId, nat>, nextId': UnitId,
                            made': map<UnitId, UnitId>, dest': seq<Shard>, destCounts': map<UnitId, nat>)
    requires start + i < |shards| && shards[start + i].unit.Some? && shards[start + i].unit.value in counts
    requires q <= counts[shards[start + i].unit.value] && (withDest ==> i < |dest|)
  {
    var t := shards[start + i];
    var u, target := t.unit.value, if t.mapped == 0 then q else 0;
    var t' := if !withDest then t else if q == 1 then Released(t) else t.(unit := Some(nextId));
    var m := shards[start + i := t'];
    var grown: map<UnitId, nat> := if withDest then counts[nextId := q] else counts;
    && made' == (if withDest then made[u := nextId] else made)
    && (q + 1 == counts[u] ==>
          && k <= |m| && (k < |m| ==> m[k].unit == Some(u) && m[k].mapped == target)
          && forall j | 0 <= j < k :: !(m[j].unit == Some(u) && m[j].mapped == target))
    && shards' == (if q + 1 == counts[u] && k < |m| then m[k := Released(m[k])] else m)
    && counts' == grown[u := counts[u] - q]
    && nextId' == (if withDest then nextId + 1 else nextId)
    && dest' == (if withDest then dest[i := Rebased(t', u, made', thr[u := t.mapped])] else dest)
    && destCounts' == (if withDest then destCounts[nextId := q] else destCounts)
  }

  /** What the invariant says of shard start + i before step i. */
  lemma StepFacts(s: seq<Shard>, c: map<UnitId, nat>, n: UnitId, start: nat, length: nat, withDest: bool, i: nat,
                  shards: seq<Shard>, counts: map<UnitId, nat>, nextId: UnitId,
                  decomposed: map<UnitId, nat>, thr: map<UnitId, nat>, made: map<UnitId, UnitId>,
                  dest: seq<Shard>, destCounts: map<UnitId, nat>)
    requires i < length
    requires Decomposing(s, c, n, start, length, withDest, i, shards, counts, nextId, decomposed, thr, made, dest, destCounts)
    ensures start + i < |shards| == |s| && shards[start + i] == s[start + i] && (withDest ==> i < |dest|)
    ensures forall v | v in counts :: v < nextId
    ensures s[start + i].unit.Some? && s[start + i].unit.value !in decomposed ==>
      var u, sub := s[start + i].unit.value, SubMap(s, start, length);
      u in sub && u in c && u in counts && counts[u] == c[u] && sub[u] <= c[u]
  {
    if s[start + i].unit.Some? {
      BlockAt(s, c, start, length, start + i);
    }
  }

  /**
   * The values QUnit.StepFirst leaves at the first detached shard of a
   * partly detached unit are those PartStep names: the taken shard, the
   * released kept qubit o, the shrunk and new unit sizes and the moved
   * destination entry.
   */
  lemma PartValues(s: seq<Shard>, c: map<UnitId, nat>, n: UnitId, start: nat, length: nat, withDest: bool, i: nat,
                   shards: seq<Shard>, counts: map<UnitId, nat>, nextId: UnitId,
                   thr: map<UnitId, nat>, made: map<UnitId, UnitId>,
                   dest: seq<Shard>, destCounts: map<UnitId, nat>, k: nat,
                   shards': seq<Shard>, counts': map<UnitId, nat>, nextId': UnitId,
                   made': map<UnitId, UnitId>, dest': seq<Shard>, destCounts': map<UnitId, nat>) returns (o: nat)
    requires i < length && WellFormed(s, c) && Blocks(s, c, start, length) && forall u | u in c :: u < n
    requires shards == Mid(s, c, start, length, withDest, made, i) && Made(s, c, n, start, length, withDest, i, nextId, made)
    requires s[start + i].unit.Some? && s[start + i].unit.value !in Done(s, start, i) && shards[start + i] == s[start + i]
    requires var u, sub := s[start + i].unit.value, SubMap(s, start, length);
      u in sub && u in c && sub[u] < c[u] && u in counts && counts[u] == c[u]
    requires withDest ==> i < |dest|
    requires PartTaken(start, i, withDest, SubMap(s, start, length)[s[start + i].unit.value],
                       shards, counts, nextId, thr, made, dest, destCounts, k, shards', counts', nextId', made', dest', destCounts')
    ensures var u, sub, thr0 := s[start + i].unit.value, SubMap(s, start, length), ThrMap(s, start, length);
      var m := shards[start + i := Taken(s[start + i], c, sub, made', withDest)];
      var grown: map<UnitId, nat> := if withDest then counts[nextId := sub[u]] else counts;
      && made' == (if withDest then made[u := nextId] else made)
      && (sub[u] + 1 == c[u] ==>
            && o < |s| && o != start + i && LastKept(s, c, start, length, i, o)
            && forall j | 0 <= j < |s| && j != start + i && LastKept(s, c, start, length, i, j) :: j == o)
      && shards' == (if sub[u] + 1 == c[u] then m[o := Released(s[o])] else m)
      && counts' == grown[u := c[u] - sub[u]]
      && nextId' == (if withDest then nextId + 1 else nextId)
      && dest' == (if withDest then dest[i := Moved(s[start + i], c, sub, thr0, made')] else dest)
      && destCounts' == (if withDest then destCounts[nextId := sub[u]] else destCounts)
  {
    o := PartKept(s, c, n, start, length, withDest, i, shards, counts, nextId, thr, made, dest, destCounts, k,
                  shards', counts', nextId', made', dest', destCounts');
    if withDest {
      PartMoved(s, c, n, start, length, withDest, i, shards, counts, nextId, thr, made, dest, destCounts, k,
                shards', counts', nextId', made', dest', destCounts');
    }
  }

  /** PartValues for the map: the taken shard and the released kept qubit. */
  lemma PartKept(s: seq<Shard>, c: map<UnitId, nat>, n: UnitId, start: nat, length: nat, withDest: bool, i: nat,
                   shards: seq<Shard>, counts: map<UnitId, nat>, nextId: UnitId,
                   thr: map<UnitId, nat>, made: map<UnitId, UnitId>,
                   dest: seq<Shard>, destCounts: map<UnitId, nat>, k: nat,
                   shards': seq<Shard>, counts': map<UnitId, nat>, nextId': UnitId,
                   made': map<UnitId, UnitId>, dest': seq<Shard>, destCounts': map<UnitId, nat>) returns (o: nat)
    requires i < length && WellFormed(s, c) && Blocks(s, c, start, length) && forall u | u in c :: u < n
    requires shards == Mid(s, c, start, length, withDest, made, i) && Made(s, c, n, start, length, withDest, i, nextId, made)
    requires s[start + i].unit.Some? && s[start + i].unit.value !in Done(s, start, i) && shards[start + i] == s[start + i]
    requires var u, sub := s[start + i].unit.value, SubMap(s, start, length);
      u in sub && u in c && sub[u] < c[u] && u in counts && counts[u] == c[u]
    requires withDest ==> i < |dest|
    requires PartTaken(start, i, withDest, SubMap(s, start, length)[s[start + i].unit.value],
                       shards, counts, nextId, thr, made, dest, destCounts, k, shards', counts', nextId', made', dest', destCounts')
    ensures var u, sub := s[start + i].unit.value, SubMap(s, start, length);
      var m := shards[start + i := Taken(s[start + i], c, sub, made', withDest)];
      && made' == (if withDest then made[u := nextId] else made)
      && (sub[u] + 1 == c[u] ==>
            && o < |s| && o != start + i && LastKept(s, c, start, length, i, o)
            && forall j | 0 <= j < |s| && j != start + i && LastKept(s, c, start, length, i, j) :: j == o)
      && shards' == (if sub[u] + 1 == c[u] then m[o := Released(s[o])] else m)
  {
    var t := shards[start + i];
    var u, sub := t.unit.value, SubMap(s, start, length);
    var q := sub[u];
    var target := if t.mapped == 0 then q else 0;
    if withDest {
      MadeNew(s, c, n, start, length, i, nextId, made);
    } else {
      MadeSame(s, c, n, start, length, withDest, i, nextId, made);
    }
    var t' := if !withDest then t else if q == 1 then Released(t) else t.(unit := Some(nextId));
    assert t' == Taken(s[start + i], c, sub, made', withDest);
    o := 0;
    if q + 1 == c[u] {
      o := KeptFound(s, c, n, start, length, withDest, i, made, made', shards, t', k, target);
    }
  }

  /** The release search of step i finds the one qubit o its unit keeps. */
  lemma KeptFound(s: seq<Shard>, c: map<UnitId, nat>, n: UnitId, start: nat, length: nat, withDest: bool, i: nat,
                  made: map<UnitId, UnitId>, made': map<UnitId, UnitId>, shards: seq<Shard>, t': Shard, k: nat, target: nat)
    returns (o: nat)
    requires WellFormed(s, c) && Blocks(s, c, start, length) && i < length && (forall u | u in c :: u < n)
    requires Grows(s, start, i, made, made') && forall u | u in made' :: n <= made'[u]
    requires s[start + i].unit.Some? && s[start + i].unit.value !in Done(s, start, i)
    requires var u, sub := s[start + i].unit.value, SubMap(s, start, length); u in sub && u in c && sub[u] + 1 == c[u]
    requires shards == Mid(s, c, start, length, withDest, made, i) && t' == Taken(s[start + i], c, SubMap(s, start, length), made', withDest)
    requires var u, sub := s[start + i].unit.value, SubMap(s, start, length);
      target == (if s[start + i].mapped == 0 then sub[u] else 0)
    requires var u, m := s[start + i].unit.value, shards[start + i := t'];
      && k <= |m| && (k < |m| ==> m[k].unit == Some(u) && m[k].mapped == target)
      && forall j | 0 <= j < k :: !(m[j].unit == Some(u) && m[j].mapped == target)
    ensures o < |s| && o != start + i && LastKept(s, c, start, length, i, o)
    ensures forall j | 0 <= j < |s| && j != start + i && LastKept(s, c, start, length, i, j) :: j == o
    ensures k == o && shards[start + i := t'][o] == s[o]
  {
    var m := shards[start + i := t'];
    BlockAt(s, c, start, length, start + i);
    FirstMet(s, start, i);
    assert ThrMap(s, start, length)[s[start + i].unit.value] == s[start + i].mapped;
    o := LastThere(s, c, start, length, withDest, i, made, made');
    FoundIsKept(s, c, n, start, length, withDest, i, made, made', m, o, k, target);
  }

  /** PartValues for the destination: the moved entry. */
  lemma PartMoved(s: seq<Shard>, c: map<UnitId, nat>, n: UnitId, start: nat, length: nat, withDest: bool, i: nat,
                   shards: seq<Shard>, counts: map<UnitId, nat>, nextId: UnitId,
                   thr: map<UnitId, nat>, made: map<UnitId, UnitId>,
                   dest: seq<Shard>, destCounts: map<UnitId, nat>, k: nat,
                   shards': seq<Shard>, counts': map<UnitId, nat>, nextId': UnitId,
                   made': map<UnitId, UnitId>, dest': seq<Shard>, destCounts': map<UnitId, nat>)
    requires i < length && Blocks(s, c, start, length) && forall u | u in c :: u < n
    requires Made(s, c, n, start, length, withDest, i, nextId, made)
    requires s[start + i].unit.Some? && s[start + i].unit.value !in Done(s, start, i)
    requires start + i < |shards| && shards[start + i] == s[start + i]
    requires var u, sub := s[start + i].unit.value, SubMap(s, start, length);
      u in sub && u in c && sub[u] < c[u] && u in counts && counts[u] == c[u]
    requires withDest ==> i < |dest|
    requires PartTaken(start, i, withDest, SubMap(s, start, length)[s[start + i].unit.value],
                       shards, counts, nextId, thr, made, dest, destCounts, k, shards', counts', nextId', made', dest', destCounts')
    requires withDest
    ensures dest' == dest[i := Moved(s[start + i], c, SubMap(s, start, length), ThrMap(s, start, length), made')]
  {
    var t := shards[start + i];
    var u, sub, thr0 := t.unit.value, SubMap(s, start, length), ThrMap(s, start, length);
    BlockAt(s, c, start, length, start + i);
    FirstMet(s, start, i);
    MadeNew(s, c, n, start, length, i, nextId, made);
    var t' := if sub[u] == 1 then Released(t) else t.(unit := Some(nextId));
    assert t' == Taken(s[start + i], c, sub, made', withDest);
    MovedIsRebased(s, c, start, length, made', n, i);
    RebasedAlike(t', u, made', thr[u := t.mapped], thr0);
  }

  /** Rebasing reads the threshold of the shard's own unit only. */
  lemma RebasedAlike(d: Shard, u: UnitId, made: map<UnitId, UnitId>, thr1: map<UnitId, nat>, thr2: map<UnitId, nat>)
    requires u in thr1 && u in thr2 && thr1[u] == thr2[u]
    ensures Rebased(d, u, made, thr1) == Rebased(d, u, made, thr2)
  {
  }

  /** Step i at a unit-less shard or one whose unit was met before, as QUnit.StepSeen performs it, keeps the invariant. */
  lemma SeenLands(s: seq<Shard>, c: map<UnitId, nat>, n: UnitId, start: nat, length: nat, withDest: bool, i: nat,
                  shards: seq<Shard>, counts: map<UnitId, nat>, nextId: UnitId,
                  decomposed: map<UnitId, nat>, thr: map<UnitId, nat>, made: map<UnitId, UnitId>,
                  dest: seq<Shard>, destCounts: map<UnitId, nat>, shards': seq<Shard>, dest': seq<Shard>)
    requires i < length
    requires Decomposing(s, c, n, start, length, withDest, i, shards, counts, nextId, decomposed, thr, made, dest, destCounts)
    requires s[start + i].unit.None? || s[start + i].unit.value in decomposed
    requires var sub, thr0 := SubMap(s, start, length), ThrMap(s, start, length);
      && shards' == shards[start + i := Taken(s[start + i], c, sub, made, withDest)]
      && dest' == if withDest then dest[i := Moved(s[start + i], c, sub, thr0, made)] else dest
    ensures Decomposing(s, c, n, start, length, withDest, i + 1, shards', counts, nextId, decomposed, thr, made, dest', destCounts)
  {
    SeenStep(s, c, n, start, length, withDest, i, shards, counts, nextId, decomposed, thr, made, dest, destCounts);
  }

  /** Step i at the first detached shard of a wholly detached unit, as QUnit.StepFirst performs it, keeps the invariant. */
  lemma WholeLands(s: seq<Shard>, c: map<UnitId, nat>, n: UnitId, start: nat, length: nat, withDest: bool, i: nat,
                   shards: seq<Shard>, counts: map<UnitId, nat>, nextId: UnitId,
                   decomposed: map<UnitId, nat>, thr: map<UnitId, nat>, made: map<UnitId, UnitId>,
                   dest: seq<Shard>, destCounts: map<UnitId, nat>,
                   decomposed': map<UnitId, nat>, thr': map<UnitId, nat>, dest': seq<Shard>, destCounts': map<UnitId, nat>)
    requires i < length
    requires Decomposing(s, c, n, start, length, withDest, i, shards, counts, nextId, decomposed, thr, made, dest, destCounts)
    requires s[start + i].unit.Some? && s[start + i].unit.value !in decomposed
    requires var u, sub := s[start + i].unit.value, SubMap(s, start, length); u in sub && u in c && sub[u] == c[u]
    requires start + i < |shards| && shards[start + i].unit.Some?
    requires var t := shards[start + i]; var u := t.unit.value;
      && decomposed' == decomposed[u := start + i] && thr' == thr[u := t.mapped]
      && u in SubMap(s, start, length)
      && dest' == (if withDest then dest[i := t] else dest)
      && destCounts' == (if withDest then destCounts[u := SubMap(s, start, length)[u]] else destCounts)
    ensures Decomposing(s, c, n, start, length, withDest, i + 1, shards, counts, nextId, decomposed', thr', made, dest', destCounts')
  {
    StepFacts(s, c, n, start, length, withDest, i, shards, counts, nextId, decomposed, thr, made, dest, destCounts);
    WholeStep(s, c, n, start, length, withDest, i, shards, counts, nextId, decomposed, thr, made, dest, destCounts);
  }

  /**
   * Step i at the first detached shard of a partly detached unit, as
   * QUnit.StepFirst performs it, keeps the invariant.
   */
  lemma FirstLands(s: seq<Shard>, c: map<UnitId, nat>, n: UnitId, start: nat, length: nat, withDest: bool, i: nat,
                   shards: seq<Shard>, counts: map<UnitId, nat>, nextId: UnitId,
                   decomposed: map<UnitId, nat>, thr: map<UnitId, nat>, made: map<UnitId, UnitId>,
                   dest: seq<Shard>, destCounts: map<UnitId, nat>, k: nat,
                   shards': seq<Shard>, counts': map<UnitId, nat>, nextId': UnitId,
                   decomposed': map<UnitId, nat>, thr': map<UnitId, nat>,
                   made': map<UnitId, UnitId>, dest': seq<Shard>, destCounts': map<UnitId, nat>)
    requires i < length
    requires Decomposing(s, c, n, start, length, withDest, i, shards, counts, nextId, decomposed, thr, made, dest, destCounts)
    requires s[start + i].unit.Some? && s[start + i].unit.value !in decomposed
    requires var u, sub := s[start + i].unit.value, SubMap(s, start, length); u in sub && u in c && sub[u] < c[u]
    requires start + i < |shards| && shards[start + i].unit.Some? && shards[start + i].unit.value in counts
    requires var u := shards[start + i].unit.value; u in SubMap(s, start, length) && SubMap(s, start, length)[u] <= counts[u]
    requires withDest ==> i < |dest|
    requires PartTaken(start, i, withDest, SubMap(s, start, length)[shards[start + i].unit.value],
                       shards, counts, nextId, thr, made, dest, destCounts, k, shards', counts', nextId', made', dest', destCounts')
    requires var t := shards[start + i];
      decomposed' == decomposed[t.unit.value := start + i] && thr' == thr[t.unit.value := t.mapped]
    ensures Decomposing(s, c, n, start, length, withDest, i + 1, shards', counts', nextId', decomposed', thr', made', dest', destCounts')
  {
    StepFacts(s, c, n, start, length, withDest, i, shards, counts, nextId, decomposed, thr, made, dest, destCounts);
    var o := PartValues(s, c, n, start, length, withDest, i, shards, counts, nextId, thr, made, dest, destCounts, k,
                        shards', counts', nextId', made', dest', destCounts');
    PartStep(s, c, n, start, length, withDest, i, shards, counts, nextId, decomposed, thr, made, dest, destCounts, o);
  }

  /**
   * The release search finds the kept qubit: the first shard k of the unit
   * at the searched-for slot, in the map after shard start + i is handled,
   * is the qubit o that LastThere names.
   */
  lemma FoundIsKept(s: seq<Shard>, c: map<UnitId, nat>, n: UnitId, start: nat, length: nat, withDest: bool, i: nat,
                    made: map<UnitId, UnitId>, made': map<UnitId, UnitId>, m: seq<Shard>, o: nat, k: nat, target: nat)
    requires Blocks(s, c, start, length) && i < length && (forall u | u in c :: u < n)
    requires Grows(s, start, i, made, made') && forall u | u in made' :: n <= made'[u]
    requires s[start + i].unit.Some? && s[start + i].unit.value !in Done(s, start, i)
    requires var u, sub := s[start + i].unit.value, SubMap(s, start, length); u in sub && u in c && sub[u] + 1 == c[u]
    requires m == Mid(s, c, start, length, withDest, made, i)[start + i := Taken(s[start + i], c, SubMap(s, start, length), made', withDest)]
    requires o < |s| && o != start + i && LastKept(s, c, start, length, i, o)
    requires forall j | 0 <= j < |s| && j != start + i && LastKept(s, c, start, length, i, j) :: j == o
    requires var u, sub, thr := s[start + i].unit.value, SubMap(s, start, length), ThrMap(s, start, length);
      target == (if thr[u] == 0 then sub[u] else 0)
    requires var u := s[start + i].unit.value;
      && m[o].unit == Some(u) && m[o].mapped == target
      && k <= |m| && (k < |m| ==> m[k].unit == Some(u) && m[k].mapped == target)
      && forall j | 0 <= j < k :: !(m[j].unit == Some(u) && m[j].mapped == target)
    ensures k == o
  {
    assert k <= o;
    LastFound(s, c, n, start, length, withDest, i, made, made', k);
  }

  /**
   * Step i at a shard whose unit was split off at decomposed[u]: taking that
   * shard's unit in the map gives the shard's Taken form, and rebasing that
   * gives its destination entry.
   */
  lemma SeenTakes(s: seq<Shard>, c: map<UnitId, nat>, n: UnitId, start: nat, length: nat, withDest: bool, i: nat,
                  nextId: UnitId, decomposed: map<UnitId, nat>, thr: map<UnitId, nat>, made: map<UnitId, UnitId>, m: seq<Shard>)
    requires i < length && WellFormed(s, c) && Blocks(s, c, start, length) && forall u | u in c :: u < n
    requires m == Mid(s, c, start, length, withDest, made, i) && Split(s, start, i, decomposed, thr)
    requires Made(s, c, n, start, length, withDest, i, nextId, made)
    requires s[start + i].unit.Some? && s[start + i].unit.value in decomposed
    ensures var u, sub, thr0 := s[start + i].unit.value, SubMap(s, start, length), ThrMap(s, start, length);
      var t := s[start + i].(unit := m[decomposed[u]].unit);
      && decomposed[u] < |m| && t == Taken(s[start + i], c, sub, made, withDest)
      && (withDest ==> Rebased(t, u, made, thr) == Moved(s[start + i], c, sub, thr0, made))
  {
    var u := s[start + i].unit.value;
    NextShard(s, c, start, length, withDest, i, made, decomposed, thr);
    assert m[decomposed[u]] == Taken(s[decomposed[u]], c, SubMap(s, start, length), made, withDest);
    if withDest {
      BlockAt(s, c, start, length, start + i);
      MadeHas(s, c, n, start, length, i, nextId, made, u);
      MovedIsRebased(s, c, start, length, made, n, i);
    }
  }

  /** What Made says of the new units, for a unit u the walk has met. */
  lemma MadeHas(s: seq<Shard>, c: map<UnitId, nat>, n: UnitId, start: nat, length: nat, i: nat,
                nextId: UnitId, made: map<UnitId, UnitId>, u: UnitId)
    requires start + length <= |s| && i <= length && Made(s, c, n, start, length, true, i, nextId, made)
    requires u in Done(s, start, i)
    ensures forall v | v in made :: n <= made[v]
    ensures var sub := SubMap(s, start, length); u in sub && u in c && sub[u] != c[u] ==> u in made
  {
  }
}
