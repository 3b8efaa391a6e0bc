// QUnit's `GetIndexedEigenstate`: with the index register in a cached basis
// state, the value a lookup table gives for that index is read directly from
// the table, whose entries are little-endian runs of bytes.
module QUnitIndexed {
  import opened Bits
  import opened Shards
  import opened CachedBits

  /** An `unsigned char` of the table. */
  type Byte = b: nat | b < 256

  /** The number of bytes of one table entry for a value of valueLength bits. */
  function EntryBytes(valueLength: nat): (b: nat)
    ensures valueLength <= 8 * b < valueLength + 8
  {
    (valueLength + 7) / 8
  }

  /** The number a run of bytes spells, least significant byte first. */
  function LittleEndian(bs: seq<Byte>): nat
  {
    if bs == [] then 0 else bs[0] + 256 * LittleEndian(bs[1..])
  }

  /** The n low bytes of v, least significant first. */
  function ToBytes(v: nat, n: nat): (bs: seq<Byte>)
    ensures |bs| == n
  {
    if n == 0 then [] else [v % 256] + ToBytes(v / 256, n - 1)
  }

  /** Table entry i, for entries of `bytes` bytes each. */
  function Entry(values: seq<Byte>, i: nat, bytes: nat): seq<Byte>
    requires (i + 1) * bytes <= |values|
  {
    values[i * bytes..i * bytes + bytes]
  }

  /**
   * `GetIndexedEigenstate(indexStart, indexLength, valueStart, valueLength,
   * values)`: the entry of the table at the index the index register holds,
   * read as a little-endian number.  The table has an entry for every index
   * the register can hold.
   */
  method GetIndexedEigenstate(s: seq<Shard>, indexStart: nat, indexLength: nat, valueLength: nat, values: seq<Byte>)
    returns (value: nat)
    requires indexStart + indexLength <= |s|
    requires Pow2(indexLength) * EntryBytes(valueLength) <= |values|
    ensures var i := FromBits(States(s[indexStart..indexStart + indexLength]));
      (i + 1) * EntryBytes(valueLength) <= |values|
      && value == LittleEndian(Entry(values, i, EntryBytes(valueLength)))
    ensures value < Pow2(8 * EntryBytes(valueLength))
  {
    var index := GetCachedPermutation(s, indexStart, indexLength);
    var bytes := EntryBytes(valueLength);
    var base := index * bytes;
    EntryInside(index, indexLength, bytes, base, |values|, States(s[indexStart..indexStart + indexLength]));
    value := ReadEntry(values[base..base + bytes]);
    assert values[base..base + bytes] == Entry(values, index, bytes);
  }

  /** The loop over the bytes of an entry: `value |= values[indexInt * bytes + j] << (8 * j)`. */
  method ReadEntry(entry: seq<Byte>) returns (value: nat)
    ensures value == LittleEndian(entry) && value < Pow2(8 * |entry|)
  {
    value := 0;
    var j, shift := 0, 0;
    while j < |entry|
      invariant j <= |entry| && shift == 8 * j
      invariant value == LittleEndian(entry[..j]) && value < Pow2(shift)
    {
      var b := entry[j];
      OrShifted(value, b, shift);
      assert entry[..j + 1] == entry[..j] + [b];
      AppendByte(entry[..j], b, shift);
      ByteBound(value + b * Pow2(shift), value, b, shift);
      value := Or(value, Shl(b, shift));
      j, shift := j + 1, shift + 8;
    }
    assert entry[..j] == entry;
  }

  /** The entry of an index the register can hold lies inside the table. */
  lemma EntryInside(index: nat, indexLength: nat, bytes: nat, base: nat, size: nat, bits: seq<bool>)
    requires index == FromBits(bits) && |bits| == indexLength && Pow2(indexLength) * bytes <= size
    requires base == index * bytes
    ensures (index + 1) * bytes <= size && base + bytes <= size
  {
    FromBitsBound(bits);
    MulLe(index + 1, Pow2(indexLength), bytes);
  }

  /** `b << n`. */
  function Shl(b: nat, n: nat): nat
  {
    b * Pow2(n)
  }

  lemma MulLe(a: nat, b: nat, c: nat)
    requires a <= b
    ensures a * c <= b * c
  {
  }

  /** A byte placed above a number below 2^sh keeps the total below 2^(sh+8). */
  lemma ByteBound(v: int, low: nat, b: Byte, sh: nat)
    requires low < Pow2(sh) && v == low + b * Pow2(sh)
    ensures v < Pow2(sh + 8)
  {
    Pow2Add(sh, 8);
    assert Pow2(8) == 256;
    assert (b + 1) * Pow2(sh) <= 256 * Pow2(sh) by {
      MulLe(b + 1, 256, Pow2(sh));
    }
  }

  /** Appending a byte adds it at weight 2^sh, sh being eight times the bytes before it. */
  lemma {:induction false} AppendByte(bs: seq<Byte>, b: Byte, sh: nat)
    requires sh == 8 * |bs|
    ensures LittleEndian(bs + [b]) == LittleEndian(bs) + b * Pow2(sh)
  {
    if bs == [] {
      assert [b][1..] == [];
    } else {
      assert (bs + [b])[1..] == bs[1..] + [b];
      AppendByte(bs[1..], b, sh - 8);
      Pow2Add(8, sh - 8);
      assert Pow2(8) == 256;
      AppendGlue(LittleEndian(bs[1..] + [b]), LittleEndian(bs[1..]), b, Pow2(sh - 8), Pow2(sh));
    }
  }

  lemma AppendGlue(tail: int, rest: int, b: int, p: int, q: int)
    requires tail == rest + b * p && q == 256 * p
    ensures 256 * tail == 256 * rest + b * q
  {
  }

  /** A run of bytes spells a number below 2^(8 * its length). */
  lemma {:induction false} LittleEndianBound(bs: seq<Byte>, sh: nat)
    requires sh == 8 * |bs|
    ensures LittleEndian(bs) < Pow2(sh)
  {
    if bs != [] {
      LittleEndianBound(bs[1..], sh - 8);
      Pow2Add(8, sh - 8);
      assert Pow2(8) == 256;
      BoundGlue(LittleEndian(bs), bs[0], LittleEndian(bs[1..]), Pow2(sh - 8), Pow2(sh));
    }
  }

  lemma BoundGlue(v: int, b: int, r: int, p: int, q: int)
    requires v == b + 256 * r && 0 <= b < 256 && 0 <= r < p && q == 256 * p
    ensures v < q
  {
    MulLe(r + 1, p, 256);
  }

  /** Writing a table entry's number back as bytes gives the entry. */
  lemma {:induction false} ToBytesOfLittleEndian(bs: seq<Byte>)
    ensures ToBytes(LittleEndian(bs), |bs|) == bs
  {
    if bs != [] {
      var v := LittleEndian(bs);
      DivModUnique(v, 256, LittleEndian(bs[1..]), bs[0]);
      ToBytesOfLittleEndian(bs[1..]);
    }
  }

  /** Reading back the bytes of a number gives its low 8n bits. */
  lemma {:induction false} LittleEndianOfToBytes(v: nat, n: nat, sh: nat)
    requires sh == 8 * n
    ensures LittleEndian(ToBytes(v, n)) == v % Pow2(sh)
  {
    if n == 0 {
      assert v % 1 == 0;
    } else {
      var bs := ToBytes(v, n);
      assert bs[1..] == ToBytes(v / 256, n - 1);
      LittleEndianOfToBytes(v / 256, n - 1, sh - 8);
      Pow2Add(8, sh - 8);
      assert Pow2(8) == 256;
      ModSplit(v, 256, Pow2(sh - 8));
    }
  }

  /** The residue modulo a * b: the residue modulo a plus a times that of the quotient modulo b. */
  lemma ModSplit(v: nat, a: nat, b: nat)
    requires a > 0 && b > 0
    ensures v % (a * b) == v % a + a * ((v / a) % b)
  {
    var q := v / a;
    assert v == a * q + v % a;
    assert q == b * (q / b) + q % b;
    assert a * q == (a * b) * (q / b) + a * (q % b);
    assert v % a + a * (q % b) < a * b by {
      MulLe(q % b + 1, b, a);
    }
    DivModUnique(v, a * b, q / b, v % a + a * (q % b));
  }
}
