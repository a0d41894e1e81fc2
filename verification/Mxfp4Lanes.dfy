/**
 * One 32-element group in the vector units of tools/fused_gemv.c.  The 128-bit and the 256-bit code
 * unpack the sixteen packed bytes through different shuffles; both deliver the weight of every element,
 * the second in the order in which the activation was permuted beforehand.
 */
module Mxfp4Lanes {
  import opened Mxfp4Weights

  /** Sixteen and thirty-two lanes; what a lane holds is a byte. */
  type Lanes16 = v: seq<nat> | |v| == 16 witness seq(16, _ => 0)
  type Lanes32 = v: seq<nat> | |v| == 32 witness seq(32, _ => 0)

  // ---------------------------------------------------------------- what a group means

  predicate AreBytes(v: Lanes16) { forall i :: 0 <= i < 16 ==> v[i] < 0x100 }

  /** Element 2i is the low nibble of byte i and element 2i + 1 its high nibble. */
  function Nibble(packed: Lanes16, j: nat): Code
    requires AreBytes(packed) && j < 32
  {
    if j % 2 == 0 then packed[j / 2] % 16 else packed[j / 2] / 16
  }

  function ElementWeight(scale: Byte, packed: Lanes16, j: nat): nat
    requires AreBytes(packed) && j < 32
  {
    Weight(scale, Nibble(packed, j))
  }

  // ---------------------------------------------------------------- bytes, halfwords and words

  /** Two bytes, low byte first, as a halfword. */
  function Join(low: nat, high: nat): nat { low + 0x100 * high }

  /** A halfword moved to the top of a word. */
  function Top(half: nat): nat { half * 0x1_0000 }

  // ---------------------------------------------------------------- 128-bit vectors

  function LowNibbles(v: Lanes16): Lanes16 { seq(16, i requires 0 <= i < 16 => v[i] % 16) }
  function HighNibbles(v: Lanes16): Lanes16 { seq(16, i requires 0 <= i < 16 => v[i] / 16) }

  /** Interleave the low halves, and the high halves, of two vectors. */
  function Zip1(a: Lanes16, b: Lanes16): Lanes16 {
    seq(16, i requires 0 <= i < 16 => if i % 2 == 0 then a[i / 2] else b[i / 2])
  }

  function Zip2(a: Lanes16, b: Lanes16): Lanes16 {
    seq(16, i requires 0 <= i < 16 => if i % 2 == 0 then a[8 + i / 2] else b[8 + i / 2])
  }

  /** Table lookup; an index past the table yields zero. */
  function Lookup(table: Lanes16, index: Lanes16): Lanes16 {
    seq(16, i requires 0 <= i < 16 => if index[i] < 16 then table[index[i]] else 0)
  }

  /** The two byte tables of a scale: the low and the high bytes of its sixteen entries. */
  function TableLow(scale: Byte): Lanes16 { seq(16, c requires 0 <= c < 16 => Entry(scale, c) % 0x100) }
  function TableHigh(scale: Byte): Lanes16 { seq(16, c requires 0 <= c < 16 => Entry(scale, c) / 0x100) }

  /** Sixteen bytes read as eight little-endian halfwords. */
  function Halves(v: Lanes16): (h: seq<nat>)
    ensures |h| == 8
  {
    seq(8, i requires 0 <= i < 8 => Join(v[2 * i], v[2 * i + 1]))
  }

  /** Four of the halfwords moved to the top of words. */
  function WidenTop(h: seq<nat>, from: nat): (w: seq<nat>)
    requires from + 4 <= |h|
    ensures |w| == 4
  {
    [Top(h[from]), Top(h[from + 1]), Top(h[from + 2]), Top(h[from + 3])]
  }

  /** Vector k of four: the low or high half of the first or second zip of the looked-up bytes. */
  function NeonHalf(tableLow: Lanes16, tableHigh: Lanes16, codes: Lanes16, k: nat): (w: seq<nat>)
    requires k < 4
    ensures |w| == 4
  {
    var low, high := Lookup(tableLow, codes), Lookup(tableHigh, codes);
    var h := Halves(if k < 2 then Zip1(low, high) else Zip2(low, high));
    WidenTop(h, if k % 2 == 0 then 0 else 4)
  }

  /** Vector k of a group: the first four from the first zip of the nibbles, the others from the second. */
  function NeonVector(scale: Byte, packed: Lanes16, k: nat): (w: seq<nat>)
    requires k < 8
    ensures |w| == 4
  {
    var lo, hi := LowNibbles(packed), HighNibbles(packed);
    NeonHalf(TableLow(scale), TableHigh(scale), if k < 4 then Zip1(lo, hi) else Zip2(lo, hi), k % 4)
  }

  lemma BytesOfEntry(scale: Byte, c: Code)
    ensures Top(Join(TableLow(scale)[c], TableHigh(scale)[c])) == Weight(scale, c)
  {
    hide Entry;
  }

  /** Interleaving low and high bytes and reading halfwords joins them in order. */
  lemma ZipJoins(a: Lanes16, b: Lanes16, i: nat)
    requires i < 8
    ensures Halves(Zip1(a, b))[i] == Join(a[i], b[i]) && Halves(Zip2(a, b))[i] == Join(a[8 + i], b[8 + i])
  {
    assert Zip1(a, b)[2 * i] == a[i] && Zip1(a, b)[2 * i + 1] == b[i];
    assert Zip2(a, b)[2 * i] == a[8 + i] && Zip2(a, b)[2 * i + 1] == b[8 + i];
  }

  lemma NeonHalfLane(tableLow: Lanes16, tableHigh: Lanes16, codes: Lanes16, k: nat, l: nat)
    requires k < 4 && l < 4 && codes[4 * k + l] < 16
    ensures NeonHalf(tableLow, tableHigh, codes, k)[l]
      == Top(Join(tableLow[codes[4 * k + l]], tableHigh[codes[4 * k + l]]))
  {
    hide *;
    var i := 4 * k + l;
    var low, high := Lookup(tableLow, codes), Lookup(tableHigh, codes);
    LookupAt(tableLow, codes, i);
    LookupAt(tableHigh, codes, i);
    NeonHalfIsWidened(tableLow, tableHigh, codes, k, l);
    ZipJoins(low, high, if i < 8 then i else i - 8);
  }

  lemma LookupAt(table: Lanes16, index: Lanes16, j: nat)
    requires j < 16 && index[j] < 16
    ensures Lookup(table, index)[j] == table[index[j]]
  {
  }

  lemma NeonHalfIsWidened(tableLow: Lanes16, tableHigh: Lanes16, codes: Lanes16, k: nat, l: nat)
    requires k < 4 && l < 4
    ensures var low, high := Lookup(tableLow, codes), Lookup(tableHigh, codes);
      NeonHalf(tableLow, tableHigh, codes, k)[l] ==
        Top(if k < 2 then Halves(Zip1(low, high))[4 * k + l] else Halves(Zip2(low, high))[4 * k + l - 8])
  {
    hide Lookup, Zip1, Zip2, Halves, Top;
  }

  /** Zipping the nibbles puts them in element order. */
  lemma ZippedNibble(packed: Lanes16, j: nat)
    requires AreBytes(packed) && j < 32
    ensures j < 16 ==> Zip1(LowNibbles(packed), HighNibbles(packed))[j] == Nibble(packed, j)
    ensures j >= 16 ==> Zip2(LowNibbles(packed), HighNibbles(packed))[j - 16] == Nibble(packed, j)
  {
  }

  /** Lane l of vector k holds the weight of element 4k + l. */
  lemma NeonLane(scale: Byte, packed: Lanes16, k: nat, l: nat)
    requires AreBytes(packed) && k < 8 && l < 4
    ensures NeonVector(scale, packed, k)[l] == ElementWeight(scale, packed, 4 * k + l)
  {
    var j := 4 * k + l;
    var lo, hi := LowNibbles(packed), HighNibbles(packed);
    hide *;
    ZippedNibble(packed, j);
    NeonVectorIsHalf(scale, packed, k);
    BytesOfEntry(scale, Nibble(packed, j));
    if k < 4 {
      NeonHalfLane(TableLow(scale), TableHigh(scale), Zip1(lo, hi), k, l);
    } else {
      NeonHalfLane(TableLow(scale), TableHigh(scale), Zip2(lo, hi), k - 4, l);
    }
    SpellWeight(scale, packed, j);
  }

  lemma NeonVectorIsHalf(scale: Byte, packed: Lanes16, k: nat)
    requires k < 8
    ensures var lo, hi := LowNibbles(packed), HighNibbles(packed);
      NeonVector(scale, packed, k) ==
        if k < 4 then NeonHalf(TableLow(scale), TableHigh(scale), Zip1(lo, hi), k)
        else NeonHalf(TableLow(scale), TableHigh(scale), Zip2(lo, hi), k - 4)
  {
    hide NeonHalf;
  }

  lemma SpellWeight(scale: Byte, packed: Lanes16, j: nat)
    requires AreBytes(packed) && j < 32
    ensures ElementWeight(scale, packed, j) == Weight(scale, Nibble(packed, j))
  {
  }

  // ---------------------------------------------------------------- 256-bit vectors

  /** A halfword shifted right by four, with each of its bytes masked to four bits. */
  function ShiftedLow(half: nat): nat { half / 16 % 0x100 % 16 }
  function ShiftedHigh(half: nat): nat { half / 16 / 0x100 % 16 }

  lemma ShiftOfJoin(low: nat, high: nat)
    requires low < 0x100
    ensures Join(low, high) / 16 == low / 16 + 16 * high
  {
  }

  lemma HalvesShiftLikeBytes(low: nat, high: nat)
    requires low < 0x100 && high < 0x100
    ensures ShiftedLow(Join(low, high)) == low / 16 && ShiftedHigh(Join(low, high)) == high / 16
  {
    ShiftOfJoin(low, high);
    hide Join;
  }

  /** The bytes shifted right by four as part of 16-bit halves, and masked again. */
  function HighNibblesByHalves(v: Lanes16): Lanes16 {
    seq(16, i requires 0 <= i < 16 =>
      var half := Join(v[i / 2 * 2], v[i / 2 * 2 + 1]);
      if i % 2 == 0 then ShiftedLow(half) else ShiftedHigh(half))
  }

  lemma ShiftsAgree(v: Lanes16)
    requires AreBytes(v)
    ensures HighNibblesByHalves(v) == HighNibbles(v)
  {
    forall i | 0 <= i < 16 ensures HighNibblesByHalves(v)[i] == HighNibbles(v)[i] {
      HalvesShiftLikeBytes(v[i / 2 * 2], v[i / 2 * 2 + 1]);
    }
  }

  /** Each 128-bit half of the index looks up its own copy of the table. */
  function Shuffle(table: Lanes16, index: Lanes32): Lanes32 {
    seq(32, i requires 0 <= i < 32 => table[index[i] % 16])
  }

  /** Interleaving stays within each 128-bit half. */
  function UnpackLow(a: Lanes32, b: Lanes32): Lanes32 {
    seq(32, i requires 0 <= i < 32 => if i % 2 == 0 then a[i / 16 * 16 + i % 16 / 2] else b[i / 16 * 16 + i % 16 / 2])
  }
  function UnpackHigh(a: Lanes32, b: Lanes32): Lanes32 {
    seq(32, i requires 0 <= i < 32 =>
      if i % 2 == 0 then a[i / 16 * 16 + 8 + i % 16 / 2] else b[i / 16 * 16 + 8 + i % 16 / 2])
  }

  function WideHalves(v: Lanes32): (h: seq<nat>)
    ensures |h| == 16
  {
    seq(16, i requires 0 <= i < 16 => Join(v[2 * i], v[2 * i + 1]))
  }

  /** Words with a zero low half, four from each 128-bit half. */
  function WidenHalves(h: seq<nat>, from: nat): (w: seq<nat>)
    requires |h| == 16 && from <= 4
    ensures |w| == 8
  {
    WidenTop(h, from) + WidenTop(h, 8 + from)
  }

  /** Vector q of the looked-up bytes, interleaved and widened. */
  function Unpacked(tableLow: Lanes16, tableHigh: Lanes16, index: Lanes32, q: nat): (w: seq<nat>)
    requires q < 4
    ensures |w| == 8
  {
    var low, high := Shuffle(tableLow, index), Shuffle(tableHigh, index);
    var h := WideHalves(if q < 2 then UnpackLow(low, high) else UnpackHigh(low, high));
    WidenHalves(h, if q % 2 == 0 then 0 else 4)
  }

  /** Vector q of four vectors of eight weights. */
  function Avx2Vector(scale: Byte, packed: Lanes16, q: nat): (w: seq<nat>)
    requires q < 4
    ensures |w| == 8
  {
    var lo, hi := LowNibbles(packed), HighNibblesByHalves(packed);
    Unpacked(TableLow(scale), TableHigh(scale), Zip1(lo, hi) + Zip2(lo, hi), q)
  }

  /** The element of a group that the permutation puts into lane l of vector q. */
  function Prepared(q: nat, l: nat): nat { if l < 4 then 4 * q + l else 12 + 4 * q + l }

  /** Interleaving within 128-bit halves joins low and high bytes in order, eight from each half. */
  lemma UnpackJoins(a: Lanes32, b: Lanes32, i: nat)
    requires i < 8
    ensures WideHalves(UnpackLow(a, b))[i] == Join(a[i], b[i])
    ensures WideHalves(UnpackLow(a, b))[8 + i] == Join(a[16 + i], b[16 + i])
    ensures WideHalves(UnpackHigh(a, b))[i] == Join(a[8 + i], b[8 + i])
    ensures WideHalves(UnpackHigh(a, b))[8 + i] == Join(a[24 + i], b[24 + i])
  {
    UnpackPairs(a, b, 2 * i, i);
    UnpackPairs(a, b, 16 + 2 * i, i);
    hide UnpackLow, UnpackHigh, Join;
  }

  lemma UnpackPairs(a: Lanes32, b: Lanes32, at: nat, i: nat)
    requires i < 8 && (at == 2 * i || at == 16 + 2 * i)
    ensures UnpackLow(a, b)[at] == a[at / 16 * 16 + i] && UnpackLow(a, b)[at + 1] == b[at / 16 * 16 + i]
    ensures UnpackHigh(a, b)[at] == a[at / 16 * 16 + 8 + i] && UnpackHigh(a, b)[at + 1] == b[at / 16 * 16 + 8 + i]
  {
  }

  lemma UnpackLane(tableLow: Lanes16, tableHigh: Lanes16, index: Lanes32, q: nat, l: nat)
    requires q < 4 && l < 8 && index[Prepared(q, l)] < 16
    ensures Unpacked(tableLow, tableHigh, index, q)[l]
      == Top(Join(tableLow[index[Prepared(q, l)]], tableHigh[index[Prepared(q, l)]]))
  {
    hide *;
    var low, high := Shuffle(tableLow, index), Shuffle(tableHigh, index);
    var from := if q % 2 == 0 then 0 else 4;
    var i := from + if l < 4 then l else l - 4;
    PreparedParts(q, l);
    ShuffleAt(tableLow, index, Prepared(q, l));
    ShuffleAt(tableHigh, index, Prepared(q, l));
    UnpackedIsWidened(tableLow, tableHigh, index, q);
    WidenHalvesLane(WideHalves(if q < 2 then UnpackLow(low, high) else UnpackHigh(low, high)), from, l);
    UnpackJoins(low, high, i);
  }

  lemma ShuffleAt(table: Lanes16, index: Lanes32, j: nat)
    requires j < 32 && index[j] < 16
    ensures Shuffle(table, index)[j] == table[index[j]]
  {
  }

  lemma UnpackedIsWidened(tableLow: Lanes16, tableHigh: Lanes16, index: Lanes32, q: nat)
    requires q < 4
    ensures var low, high := Shuffle(tableLow, index), Shuffle(tableHigh, index);
      Unpacked(tableLow, tableHigh, index, q) ==
        WidenHalves(WideHalves(if q < 2 then UnpackLow(low, high) else UnpackHigh(low, high)), if q % 2 == 0 then 0
          else 4)
  {
    hide WidenHalves, WideHalves, UnpackLow, UnpackHigh, Shuffle;
  }

  lemma PreparedParts(q: nat, l: nat)
    requires q < 4 && l < 8
    ensures Prepared(q, l) == (if q < 2 then 0 else 8) + (if q % 2 == 0 then 0 else 4) + if l < 4 then l else 12 + l
  {
  }

  lemma WidenHalvesLane(h: seq<nat>, from: nat, l: nat)
    requires |h| == 16 && from <= 4 && l < 8
    ensures WidenHalves(h, from)[l] == Top(h[from + if l < 4 then l else 4 + l])
  {
  }

  /** Lane l of vector q holds the weight of the element prepared there. */
  lemma Avx2Lane(scale: Byte, packed: Lanes16, q: nat, l: nat)
    requires AreBytes(packed) && q < 4 && l < 8
    ensures Avx2Vector(scale, packed, q)[l] == ElementWeight(scale, packed, Prepared(q, l))
  {
    var lo, hi := LowNibbles(packed), HighNibblesByHalves(packed);
    var index: Lanes32 := Zip1(lo, hi) + Zip2(lo, hi);
    var j := Prepared(q, l);
    ShiftsAgree(packed);
    assert index[j] == Nibble(packed, j);
    BytesOfEntry(scale, index[j]);
    hide Unpacked, TableLow, TableHigh, Weight, LowNibbles, HighNibbles, Zip1, Zip2, Nibble, Join, Top,
         HighNibblesByHalves;
    UnpackLane(TableLow(scale), TableHigh(scale), index, q, l);
  }
}
