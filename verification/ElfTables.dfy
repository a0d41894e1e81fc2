/**
 * The bounded table walks of native/deltafin-curl-sys-direct/build_support.rs: little-endian reads,
 * virtual-address mapping through PT_LOAD segments, overlap rejection and the two symbol hash tables
 * (System V gABI, chapter 5, "Program Header", "Dynamic Section" and "Hash Table").  Integers are
 * unbounded; a sum past 64 bits is tested where the source tests it, and elsewhere exceeds any file.
 */
module ElfTables {
  import opened Wrappers

  const U64_LIMIT: nat := 0x1_0000_0000_0000_0000
  const MAX_SYMBOLS: nat := 1_000_000
  const MAX_BUCKETS: nat := 1_000_000

  datatype Range = Range(start: nat, end: nat)
  datatype Load = Load(fileOffset: nat, address: nat, fileSize: nat)

  // ---------------------------------------------------------------- reads

  predicate InFile(r: Range, length: nat) { r.start <= r.end <= length }

  function CheckedRange(offset: nat, size: nat, length: nat): Option<Range> {
    if offset + size <= length then Some(Range(offset, offset + size)) else None
  }

  /** Little-endian value of n bytes. */
  function Word(bytes: seq<nat>, at: nat, n: nat): nat
    requires at + n <= |bytes|
    decreases n
  {
    if n == 0 then 0 else bytes[at] + 0x100 * Word(bytes, at + 1, n - 1)
  }

  function Pow256(n: nat): nat { if n == 0 then 1 else 0x100 * Pow256(n - 1) }

  /** Place value: byte n counts 256^n times, */
  lemma {:induction false} WordSnoc(bytes: seq<nat>, at: nat, n: nat)
    requires at + n + 1 <= |bytes|
    ensures Word(bytes, at, n + 1) == Word(bytes, at, n) + bytes[at + n] * Pow256(n)
    decreases n
  {
    if n > 0 {
      WordSnoc(bytes, at + 1, n - 1);
      Scaled(Word(bytes, at + 1, n - 1), bytes[at + n], Pow256(n - 1));
    }
  }

  lemma Scaled(low: nat, digit: nat, power: nat)
    ensures 0x100 * (low + digit * power) == 0x100 * low + digit * (0x100 * power)
  {
  }

  /** The n low bytes of a number, the least first. */
  function Digits(v: nat, n: nat): (d: seq<nat>)
    ensures |d| == n
  {
    if n == 0 then [] else [v % 0x100] + Digits(v / 0x100, n - 1)
  }

  /** and a number written out as its n bytes reads back as itself. */
  lemma {:induction false} WordOfDigits(bytes: seq<nat>, at: nat, n: nat, v: nat)
    requires at + n <= |bytes| && v < Pow256(n) && bytes[at..at + n] == Digits(v, n)
    ensures Word(bytes, at, n) == v
    decreases n
  {
    if n > 0 {
      assert bytes[at] == bytes[at..at + n][0] == v % 0x100;
      assert bytes[at + 1..at + n] == bytes[at..at + n][1..] == Digits(v / 0x100, n - 1);
      WordOfDigits(bytes, at + 1, n - 1, v / 0x100);
    }
  }

  // ---------------------------------------------------------------- overlap

  predicate Disjoint(a: Range, b: Range) { !(a.start < b.end && b.start < a.end) }

  predicate PairwiseDisjoint(ranges: seq<Range>) {
    forall i, j :: 0 <= i < j < |ranges| ==> Disjoint(ranges[i], ranges[j])
  }

  /** `reject_overlapping_ranges`. */
  method RejectOverlapping(ranges: seq<Range>) returns (ok: bool)
    ensures ok <==> PairwiseDisjoint(ranges)
  {
    for i := 0 to |ranges|
      invariant forall a, b :: 0 <= a < i && a < b < |ranges| ==> Disjoint(ranges[a], ranges[b])
    {
      for j := i + 1 to |ranges|
        invariant forall b :: i < b < j ==> Disjoint(ranges[i], ranges[b])
      {
        if ranges[i].start < ranges[j].end && ranges[j].start < ranges[i].end {
          assert !Disjoint(ranges[i], ranges[j]);
          return false;
        }
      }
    }
    return true;
  }

  // ---------------------------------------------------------------- mapping

  /** The load holds the whole virtual range. */
  predicate Backs(load: Load, address: nat, size: nat) {
    load.address <= address && address + size <= load.address + load.fileSize
  }

  /** Where the load puts it in the file, when that is inside. */
  function Candidate(load: Load, address: nat, size: nat, length: nat): Option<Range>
    requires load.address <= address
  {
    if load.fileOffset + (address - load.address) >= U64_LIMIT then None
    else CheckedRange(load.fileOffset + (address - load.address), size, length)
  }

  /** What one load says of a mapping: nothing, or this very range. */
  predicate LoadAgrees(load: Load, address: nat, size: nat, length: nat, r: Range) {
    && load.address + load.fileSize < U64_LIMIT
    && (Backs(load, address, size) ==> Candidate(load, address, size, length) == Some(r))
  }

  /** An accepted mapping, without reference to the order of the loads. */
  ghost predicate Maps(loads: seq<Load>, address: nat, size: nat, length: nat, r: Range) {
    && address + size < U64_LIMIT
    && (exists load :: load in loads && Backs(load, address, size))
    && (forall load :: load in loads ==> LoadAgrees(load, address, size, length, r))
  }

  /** `map_virtual_range`: it accepts exactly the mappings on which all backing segments agree. */
  method MapVirtualRange(loads: seq<Load>, address: nat, size: nat, length: nat) returns (mapped: Option<Range>)
    ensures mapped.Some? ==> Maps(loads, address, size, length, mapped.value)
    ensures mapped.None? ==> forall r :: !Maps(loads, address, size, length, r)
    ensures mapped.Some? ==> InFile(mapped.value, length) && mapped.value.end == mapped.value.start + size
  {
    if address + size >= U64_LIMIT { return None; }
    mapped := None;
    for k := 0 to |loads|
      invariant mapped.None? ==> forall i :: 0 <= i < k ==>
        loads[i].address + loads[i].fileSize < U64_LIMIT && !Backs(loads[i], address, size)
      invariant mapped.Some? ==> forall i :: 0 <= i < k ==> LoadAgrees(loads[i], address, size, length, mapped.value)
      invariant mapped.Some? ==> exists i :: 0 <= i < k && Backs(loads[i], address, size)
      invariant mapped.Some? ==> InFile(mapped.value, length) && mapped.value.end == mapped.value.start + size
    {
      var load := loads[k];
      if load.address + load.fileSize >= U64_LIMIT {
        forall r ensures !Maps(loads, address, size, length, r) {
          assert Maps(loads, address, size, length, r) ==> LoadAgrees(load, address, size, length, r);
        }
        return None;
      }
      if address < load.address || address + size > load.address + load.fileSize { continue; }
      var candidate := Candidate(load, address, size, length);
      if candidate.None? || (mapped.Some? && mapped != candidate) {
        ghost var i: nat := k;
        if mapped.Some? { i :| i < k && Backs(loads[i], address, size); }
        forall r ensures !Maps(loads, address, size, length, r) {
          assert Maps(loads, address, size, length, r) ==> LoadAgrees(load, address, size, length, r);
          assert Maps(loads, address, size, length, r) ==> LoadAgrees(loads[i], address, size, length, r);
        }
        return None;
      }
      mapped := candidate;
    }
    assert mapped.None? ==> forall load :: load in loads ==> !Backs(load, address, size);
  }

  /** So an accepted mapping does not depend on the order of the PT_LOAD segments. */
  lemma MappingIgnoresOrder(loads: seq<Load>, loads': seq<Load>, address: nat, size: nat, length: nat, r: Range)
    requires multiset(loads) == multiset(loads')
    ensures Maps(loads, address, size, length, r) <==> Maps(loads', address, size, length, r)
  {
    forall load: Load ensures load in loads <==> load in loads' {
      assert load in loads <==> load in multiset(loads);
      assert load in loads' <==> load in multiset(loads');
    }
  }

  /** and is the only one. */
  lemma MappingIsUnique(loads: seq<Load>, address: nat, size: nat, length: nat, r: Range, r': Range)
    requires Maps(loads, address, size, length, r) && Maps(loads, address, size, length, r')
    ensures r == r'
  {
    var load :| load in loads && Backs(load, address, size);
    assert LoadAgrees(load, address, size, length, r) && LoadAgrees(load, address, size, length, r');
  }

  /** A mapping is as long as asked and lies in the file; mappings of one address begin at the same byte. */
  lemma MappingFits(loads: seq<Load>, address: nat, size: nat, length: nat, r: Range)
    requires Maps(loads, address, size, length, r)
    ensures InFile(r, length) && r.end == r.start + size
  {
    var load :| load in loads && Backs(load, address, size);
    assert LoadAgrees(load, address, size, length, r);
  }

  lemma SameStart(loads: seq<Load>, address: nat, size: nat, size': nat, length: nat, r: Range, r': Range)
    requires size <= size' && Maps(loads, address, size, length, r) && Maps(loads, address, size', length, r')
    ensures r.start == r'.start
  {
    var load :| load in loads && Backs(load, address, size');
    assert LoadAgrees(load, address, size, length, r) && LoadAgrees(load, address, size', length, r');
  }

  predicate Covers(load: Load, address: nat) { load.address <= address < load.address + load.fileSize }

  /** What one load says of the bytes from an address on: nothing, or this file position and this many. */
  predicate LoadOffers(load: Load, address: nat, length: nat, at: nat, available: nat) {
    && load.address + load.fileSize < U64_LIMIT
    && (Covers(load, address) ==>
          && at == load.fileOffset + (address - load.address) < U64_LIMIT
          && available == load.fileSize - (address - load.address)
          && at + available <= length)
  }

  /** The file position of an address and the bytes held from there, as all segments that cover it agree. */
  ghost predicate Reaches(loads: seq<Load>, address: nat, length: nat, at: nat, available: nat) {
    && (exists load :: load in loads && Covers(load, address))
    && (forall load :: load in loads ==> LoadOffers(load, address, length, at, available))
  }

  /** `map_virtual_available`. */
  method MapVirtualAvailable(loads: seq<Load>, address: nat, length: nat) returns (mapped: Option<(nat, nat)>)
    ensures mapped.Some? ==> Reaches(loads, address, length, mapped.value.0, mapped.value.1)
    ensures mapped.None? ==> forall at, available :: !Reaches(loads, address, length, at, available)
  {
    mapped := None;
    for k := 0 to |loads|
      invariant mapped.None? ==> forall i :: 0 <= i < k ==>
        loads[i].address + loads[i].fileSize < U64_LIMIT && !Covers(loads[i], address)
      invariant mapped.Some? ==> forall i :: 0 <= i < k ==>
        LoadOffers(loads[i], address, length, mapped.value.0, mapped.value.1)
      invariant mapped.Some? ==> exists i :: 0 <= i < k && Covers(loads[i], address)
    {
      var load := loads[k];
      ghost var i: nat := k;
      if mapped.Some? { i :| i < k && Covers(loads[i], address); }
      forall at, available ensures Reaches(loads, address, length, at, available) ==>
        LoadOffers(load, address, length, at, available) && LoadOffers(loads[i], address, length, at, available) {
      }
      if load.address + load.fileSize >= U64_LIMIT { return None; }
      if address < load.address || address >= load.address + load.fileSize { continue; }
      var delta := address - load.address;
      if load.fileOffset + delta >= U64_LIMIT { return None; }
      var range := CheckedRange(load.fileOffset + delta, load.fileSize - delta, length);
      if range.None? { return None; }
      var candidate := Some((range.value.start, range.value.end - range.value.start));
      if mapped.Some? && mapped != candidate { return None; }
      mapped := candidate;
    }
    assert mapped.None? ==> forall load :: load in loads ==> !Covers(load, address);
  }

  /** It does not depend on the order of the segments either, and agrees with the mapping of a range there. */
  lemma ReachIgnoresOrder(loads: seq<Load>, loads': seq<Load>, address: nat, length: nat, at: nat, available: nat)
    requires multiset(loads) == multiset(loads')
    ensures Reaches(loads, address, length, at, available) <==> Reaches(loads', address, length, at, available)
  {
    forall load: Load ensures load in loads <==> load in loads' {
      assert load in loads <==> load in multiset(loads);
      assert load in loads' <==> load in multiset(loads');
    }
  }

  lemma ReachIsUnique(loads: seq<Load>, address: nat, length: nat, at: nat, available: nat, at': nat, available': nat)
    requires Reaches(loads, address, length, at, available) && Reaches(loads, address, length, at', available')
    ensures at == at' && available == available'
  {
    var load :| load in loads && Covers(load, address);
    assert LoadOffers(load, address, length, at, available) && LoadOffers(load, address, length, at', available');
  }

  lemma ReachIsMapping(loads: seq<Load>, address: nat, size: nat, length: nat, r: Range, at: nat, available: nat)
    requires size > 0 && Maps(loads, address, size, length, r) && Reaches(loads, address, length, at, available)
    ensures r.start == at
  {
    var load :| load in loads && Backs(load, address, size);
    assert LoadAgrees(load, address, size, length, r) && LoadOffers(load, address, length, at, available);
  }

  // ---------------------------------------------------------------- DT_HASH

  function Word32(bytes: seq<nat>, at: nat): nat
    requires at + 4 <= |bytes|
  {
    Word(bytes, at, 4)
  }

  /** A bucket or chain word: zero, or a symbol below the count. */
  predicate IndexOk(bytes: seq<nat>, at: nat, symbols: nat) {
    at + 4 <= |bytes| && (Word32(bytes, at) < symbols || Word32(bytes, at) == 0)
  }

  ghost predicate IndicesOk(bytes: seq<nat>, at: nat, count: nat, symbols: nat) {
    forall k :: 0 <= k < count ==> IndexOk(bytes, at + 8 + 4 * k, symbols)
  }

  function SysvSize(bytes: seq<nat>, at: nat): nat
    requires at + 8 <= |bytes|
  {
    (Word32(bytes, at) + Word32(bytes, at + 4) + 2) * 4
  }

  /** The header of a DT_HASH table is bounded. */
  predicate SysvCounts(bytes: seq<nat>, at: nat)
    requires at + 8 <= |bytes|
  {
    1 <= Word32(bytes, at) <= MAX_BUCKETS && 1 <= Word32(bytes, at + 4) <= MAX_SYMBOLS
  }

  /** There is an acceptable DT_HASH table at this address, with this symbol count and extent. */
  ghost predicate SysvTable(bytes: seq<nat>, loads: seq<Load>, address: nat, symbols: nat, table: Range) {
    && table.start + 8 <= |bytes|
    && Maps(loads, address, 8, |bytes|, Range(table.start, table.start + 8))
    && SysvCounts(bytes, table.start) && symbols == Word32(bytes, table.start + 4)
    && Maps(loads, address, SysvSize(bytes, table.start), |bytes|, table)
    && IndicesOk(bytes, table.start, Word32(bytes, table.start) + symbols, symbols)
  }

  /** `parse_sysv_hash`: it accepts exactly the acceptable tables. */
  method ParseSysvHash(bytes: seq<nat>, loads: seq<Load>, address: nat) returns (table: Option<(nat, Range)>)
    ensures table.Some? ==> SysvTable(bytes, loads, address, table.value.0, table.value.1)
    ensures table.None? ==> forall symbols, range :: !SysvTable(bytes, loads, address, symbols, range)
  {
    hide Word, Maps;
    var prefix := MapVirtualRange(loads, address, 8, |bytes|);
    if prefix.None? { return None; }
    var at := prefix.value.start;
    forall s, r | SysvTable(bytes, loads, address, s, r) ensures r.start == at {
      MappingIsUnique(loads, address, 8, |bytes|, prefix.value, Range(r.start, r.start + 8));
    }
    var buckets, symbols := Word32(bytes, at), Word32(bytes, at + 4);
    if buckets == 0 || buckets > MAX_BUCKETS || symbols == 0 || symbols > MAX_SYMBOLS { return None; }
    var range := MapVirtualRange(loads, address, (buckets + symbols + 2) * 4, |bytes|);
    if range.None? { return None; }
    SameStart(loads, address, 8, SysvSize(bytes, at), |bytes|, prefix.value, range.value);
    for index := 0 to buckets + symbols
      invariant IndicesOk(bytes, at, index, symbols)
    {
      var value := Word32(bytes, range.value.start + 8 + index * 4);
      if value >= symbols && value != 0 {
        assert !IndexOk(bytes, at + 8 + 4 * index, symbols);
        return None;
      }
    }
    return Some((symbols, range.value));
  }

  lemma SysvIsUnique(bytes: seq<nat>, loads: seq<Load>, address: nat, s: nat, r: Range, s': nat, r': Range)
    requires SysvTable(bytes, loads, address, s, r) && SysvTable(bytes, loads, address, s', r')
    ensures s == s' && r == r'
  {
    hide Word, Maps;
    MappingIsUnique(loads, address, 8, |bytes|, Range(r.start, r.start + 8), Range(r'.start, r'.start + 8));
    MappingIsUnique(loads, address, SysvSize(bytes, r.start), |bytes|, r, r');
  }

  lemma SysvFits(bytes: seq<nat>, loads: seq<Load>, address: nat, symbols: nat, table: Range)
    requires SysvTable(bytes, loads, address, symbols, table)
    ensures InFile(table, |bytes|) && 1 <= symbols <= MAX_SYMBOLS
  {
    hide Word;
    MappingFits(loads, address, SysvSize(bytes, table.start), |bytes|, table);
  }

  lemma SysvIgnoresOrder(bytes: seq<nat>, loads: seq<Load>, loads': seq<Load>, address: nat, symbols: nat, table: Range)
    requires multiset(loads) == multiset(loads') && SysvTable(bytes, loads, address, symbols, table)
    ensures SysvTable(bytes, loads', address, symbols, table)
  {
    hide Word, Maps, IndicesOk;
    MappingIgnoresOrder(loads, loads', address, 8, |bytes|, Range(table.start, table.start + 8));
    MappingIgnoresOrder(loads, loads', address, SysvSize(bytes, table.start), |bytes|, table);
  }

  // ---------------------------------------------------------------- DT_GNU_HASH

  /** The fixed part of a GNU hash table and where its chains begin. */
  datatype GnuHeader = GnuHeader(start: nat, available: nat, buckets: nat, firstSymbol: nat, bucketsAt: nat,
                                 chainsAt: nat)

  predicate GnuShape(h: GnuHeader, length: nat) {
    && h.start + h.available <= length && 1 <= h.buckets && 1 <= h.firstSymbol <= MAX_SYMBOLS
    && h.chainsAt == h.bucketsAt + 4 * h.buckets <= h.available
  }

  predicate PowerOfTwo(n: nat) { n == 1 || (n > 1 && n % 2 == 0 && PowerOfTwo(n / 2)) }

  function TwoTo(k: nat): nat { if k == 0 then 1 else 2 * TwoTo(k - 1) }

  /** The test by halving accepts the powers of two and nothing else. */
  lemma {:induction false} PowersOfTwo(n: nat)
    ensures PowerOfTwo(n) <==> exists k: nat :: TwoTo(k) == n
  {
    if n > 1 {
      PowersOfTwo(n / 2);
      if PowerOfTwo(n) {
        var k: nat :| TwoTo(k) == n / 2;
        assert TwoTo(k + 1) == n;
      }
      if k: nat :| TwoTo(k) == n {
        assert TwoTo(k - 1) == n / 2;
      }
    } else {
      assert TwoTo(0) == 1;
      if k: nat :| TwoTo(k) == n { PowerIsPositive(k); }
    }
  }

  lemma {:induction false} PowerIsPositive(k: nat)
    ensures TwoTo(k) > 0
  {
    if k > 0 { PowerIsPositive(k - 1); }
  }

  /** The header words at a position are bounded and say where buckets and chains are. */
  predicate GnuFields(bytes: seq<nat>, at: nat, h: GnuHeader)
    requires at + 16 <= |bytes|
  {
    var bloom := Word32(bytes, at + 8);
    && h.buckets == Word32(bytes, at) && 1 <= h.buckets <= MAX_BUCKETS
    && h.firstSymbol == Word32(bytes, at + 4) && 1 <= h.firstSymbol <= MAX_SYMBOLS
    && 1 <= bloom <= MAX_BUCKETS && PowerOfTwo(bloom) && Word32(bytes, at + 12) < 64
    && h.bucketsAt == 16 + bloom * 8 && h.chainsAt == h.bucketsAt + 4 * h.buckets
  }

  /** The header of an acceptable GNU hash table at this address. */
  ghost predicate GnuHeaderAt(bytes: seq<nat>, loads: seq<Load>, address: nat, h: GnuHeader) {
    && h.start + 16 <= |bytes|
    && Maps(loads, address, 16, |bytes|, Range(h.start, h.start + 16))
    && GnuFields(bytes, h.start, h)
    && Reaches(loads, address, |bytes|, h.start, h.available) && h.chainsAt <= h.available
  }

  lemma GnuHeaderFits(bytes: seq<nat>, loads: seq<Load>, address: nat, h: GnuHeader)
    requires GnuHeaderAt(bytes, loads, address, h)
    ensures GnuShape(h, |bytes|)
  {
    hide Word, PowerOfTwo;
    var load :| load in loads && Covers(load, address);
    assert LoadOffers(load, address, |bytes|, h.start, h.available);
  }

  lemma GnuHeaderIsUnique(bytes: seq<nat>, loads: seq<Load>, address: nat, h: GnuHeader, h': GnuHeader)
    requires GnuHeaderAt(bytes, loads, address, h) && GnuHeaderAt(bytes, loads, address, h')
    ensures h == h'
  {
    hide Word, PowerOfTwo, Maps;
    ReachIsUnique(loads, address, |bytes|, h.start, h.available, h'.start, h'.available);
  }

  /** The header checks of `parse_gnu_hash`. */
  method ReadGnuHeader(bytes: seq<nat>, loads: seq<Load>, address: nat) returns (h: Option<GnuHeader>)
    ensures h.Some? ==> GnuHeaderAt(bytes, loads, address, h.value)
    ensures h.None? ==> forall other :: !GnuHeaderAt(bytes, loads, address, other)
  {
    hide Word, PowerOfTwo, Maps, Reaches;
    var prefix := MapVirtualRange(loads, address, 16, |bytes|);
    if prefix.None? { return None; }
    var at := prefix.value.start;
    forall other | GnuHeaderAt(bytes, loads, address, other) ensures other.start == at && GnuFields(bytes, at, other) {
      MappingIsUnique(loads, address, 16, |bytes|, prefix.value, Range(other.start, other.start + 16));
    }
    var buckets, first := Word32(bytes, at), Word32(bytes, at + 4);
    var bloom, shift := Word32(bytes, at + 8), Word32(bytes, at + 12);
    if buckets == 0 || buckets > MAX_BUCKETS || first == 0 || first > MAX_SYMBOLS { return None; }
    if bloom == 0 || bloom > MAX_BUCKETS || !PowerOfTwo(bloom) || shift >= 64 { return None; }
    var chains := 16 + bloom * 8 + buckets * 4;
    var place := MapVirtualAvailable(loads, address, |bytes|);
    if place.None? { return None; }
    ReachIsMapping(loads, address, 16, |bytes|, prefix.value, place.value.0, place.value.1);
    if chains > place.value.1 {
      forall other | GnuHeaderAt(bytes, loads, address, other) ensures other.available == place.value.1 {
        ReachIsUnique(loads, address, |bytes|, place.value.0, place.value.1, other.start, other.available);
      }
      return None;
    }
    return Some(GnuHeader(place.value.0, place.value.1, buckets, first, 16 + bloom * 8, chains));
  }

  /** Position of a symbol's chain word relative to the table. */
  function ChainAt(h: GnuHeader, symbol: nat): nat
    requires h.firstSymbol <= symbol
  {
    h.chainsAt + 4 * (symbol - h.firstSymbol)
  }

  /** The symbol's chain word lies in the segment and its low bit is the given one. */
  predicate ChainBit(bytes: seq<nat>, h: GnuHeader, symbol: nat, bit: nat)
    requires GnuShape(h, |bytes|)
  {
    && h.firstSymbol <= symbol && ChainAt(h, symbol) + 4 <= h.available
    && Word32(bytes, h.start + ChainAt(h, symbol)) % 2 == bit
  }

  /** The chain from one symbol ends at another: only the last of its words has the low bit set. */
  predicate ChainEnds(bytes: seq<nat>, h: GnuHeader, symbol: nat, last: nat)
    requires GnuShape(h, |bytes|)
  {
    && h.firstSymbol <= symbol <= last < MAX_SYMBOLS
    && (forall k :: symbol <= k < last ==> ChainBit(bytes, h, k, 0))
    && ChainBit(bytes, h, last, 1)
  }

  lemma ChainEndIsUnique(bytes: seq<nat>, h: GnuHeader, symbol: nat, last: nat, last': nat)
    requires GnuShape(h, |bytes|) && ChainEnds(bytes, h, symbol, last) && ChainEnds(bytes, h, symbol, last')
    ensures last == last'
  {
    hide Word32;
    assert last < last' ==> ChainBit(bytes, h, last, 0);
    assert last' < last ==> ChainBit(bytes, h, last', 0);
  }

  /** Walk one chain: it finds the end exactly when there is one within the segment and the symbol bound. */
  method WalkChain(bytes: seq<nat>, h: GnuHeader, symbol: nat) returns (last: Option<nat>)
    requires GnuShape(h, |bytes|) && h.firstSymbol <= symbol
    ensures last.Some? ==> ChainEnds(bytes, h, symbol, last.value)
    ensures last.None? ==> forall e :: !ChainEnds(bytes, h, symbol, e)
  {
    hide Word32;
    var current := symbol;
    while true
      invariant symbol <= current
      invariant forall k :: symbol <= k < current ==> ChainBit(bytes, h, k, 0)
      decreases MAX_SYMBOLS - current
    {
      forall e: nat ensures ChainEnds(bytes, h, symbol, e) ==> current <= e < MAX_SYMBOLS {
        assert symbol <= e < current ==> ChainBit(bytes, h, e, 0);
      }
      if current >= MAX_SYMBOLS { return None; }
      var relative := h.chainsAt + (current - h.firstSymbol) * 4;
      if relative + 4 > h.available { return None; }
      var value := Word32(bytes, h.start + relative);
      if value % 2 != 0 { return Some(current); }
      current := current + 1;
    }
  }

  function Bucket(bytes: seq<nat>, h: GnuHeader, index: nat): nat
    requires GnuShape(h, |bytes|) && index < h.buckets
  {
    Word32(bytes, h.start + h.bucketsAt + 4 * index)
  }

  /** The bucket is empty, or its chain ends at or below the highest end. */
  ghost predicate BucketEnds(bytes: seq<nat>, h: GnuHeader, index: nat, highest: Option<nat>)
    requires GnuShape(h, |bytes|) && index < h.buckets
  {
    var symbol := Bucket(bytes, h, index);
    symbol == 0 || (highest.Some? && exists last: nat :: last <= highest.value && ChainEnds(bytes, h, symbol, last))
  }

  /** The chains of the first n buckets all end, the highest of them here; None when all are empty. */
  ghost predicate HighestEnd(bytes: seq<nat>, h: GnuHeader, n: nat, highest: Option<nat>)
    requires GnuShape(h, |bytes|) && n <= h.buckets
  {
    && (forall index :: 0 <= index < n ==> BucketEnds(bytes, h, index, highest))
    && (highest.Some? ==> exists index :: 0 <= index < n && Reached(bytes, h, index, highest.value))
  }

  /** The bucket's chain ends here. */
  predicate Reached(bytes: seq<nat>, h: GnuHeader, index: nat, last: nat)
    requires GnuShape(h, |bytes|) && index < h.buckets
  {
    Bucket(bytes, h, index) != 0 && ChainEnds(bytes, h, Bucket(bytes, h, index), last)
  }

  lemma HighestNotBelow(bytes: seq<nat>, h: GnuHeader, a: Option<nat>, b: Option<nat>)
    requires GnuShape(h, |bytes|) && HighestEnd(bytes, h, h.buckets, a) && HighestEnd(bytes, h, h.buckets, b)
    ensures a.Some? ==> b.Some? && a.value <= b.value
  {
    hide Bucket, ChainEnds;
    if a.Some? {
      var index :| 0 <= index < h.buckets && Reached(bytes, h, index, a.value);
      assert BucketEnds(bytes, h, index, b);
      var last: nat :| last <= b.value && ChainEnds(bytes, h, Bucket(bytes, h, index), last);
      ChainEndIsUnique(bytes, h, Bucket(bytes, h, index), a.value, last);
    }
  }

  /** One more bucket whose chain ends at `last` raises the highest end to it, or leaves it. */
  lemma NextBucket(bytes: seq<nat>, h: GnuHeader, index: nat, highest: Option<nat>, last: nat, highest': Option<nat>)
    requires GnuShape(h, |bytes|) && index < h.buckets && HighestEnd(bytes, h, index, highest)
    requires Reached(bytes, h, index, last)
    requires highest' == if highest.None? || highest.value < last then Some(last) else highest
    ensures HighestEnd(bytes, h, index + 1, highest')
  {
    hide Bucket, ChainEnds;
    forall i | 0 <= i < index + 1 ensures BucketEnds(bytes, h, i, highest') {
      if i < index {
        assert BucketEnds(bytes, h, i, highest);
      }
    }
  }

  /** The symbol count that a GNU hash table implies: one more than the highest chain end. */
  function GnuCount(h: GnuHeader, highest: Option<nat>): nat {
    if highest.Some? then highest.value + 1 else h.firstSymbol
  }

  /** Where the table ends: behind the highest chain word. */
  function GnuEnd(h: GnuHeader, highest: Option<nat>): nat {
    if highest.Some? && h.firstSymbol <= highest.value then ChainAt(h, highest.value) + 4 else h.chainsAt
  }

  ghost predicate GnuTableFrom(bytes: seq<nat>, loads: seq<Load>, address: nat, h: GnuHeader, highest: Option<nat>,
                               count: nat, table: Range) {
    && GnuHeaderAt(bytes, loads, address, h) && GnuShape(h, |bytes|) && HighestEnd(bytes, h, h.buckets, highest)
    && count == GnuCount(h, highest) && table == Range(h.start, h.start + GnuEnd(h, highest))
  }

  /** There is an acceptable GNU hash table at this address, with this derived symbol count and extent. */
  ghost predicate GnuTable(bytes: seq<nat>, loads: seq<Load>, address: nat, count: nat, table: Range) {
    exists h, highest :: GnuTableFrom(bytes, loads, address, h, highest, count, table)
  }

  lemma GnuIsUnique(bytes: seq<nat>, loads: seq<Load>, address: nat, count: nat, table: Range, count': nat,
                    table': Range)
    requires GnuTable(bytes, loads, address, count, table) && GnuTable(bytes, loads, address, count', table')
    ensures count == count' && table == table'
  {
    hide GnuHeaderAt, HighestEnd;
    var h, highest :| GnuTableFrom(bytes, loads, address, h, highest, count, table);
    var h', highest' :| GnuTableFrom(bytes, loads, address, h', highest', count', table');
    GnuHeaderIsUnique(bytes, loads, address, h, h');
    HighestNotBelow(bytes, h, highest, highest');
    HighestNotBelow(bytes, h, highest', highest);
  }

  lemma GnuIgnoresOrder(bytes: seq<nat>, loads: seq<Load>, loads': seq<Load>, address: nat, count: nat, table: Range)
    requires multiset(loads) == multiset(loads') && GnuTable(bytes, loads, address, count, table)
    ensures GnuTable(bytes, loads', address, count, table)
  {
    var h, highest :| GnuTableFrom(bytes, loads, address, h, highest, count, table);
    hide Word, Maps, Reaches, HighestEnd, PowerOfTwo;
    MappingIgnoresOrder(loads, loads', address, 16, |bytes|, Range(h.start, h.start + 16));
    ReachIgnoresOrder(loads, loads', address, |bytes|, h.start, h.available);
    assert GnuTableFrom(bytes, loads', address, h, highest, count, table);
  }

  /** What acceptance means: in the file, every chain ends below the derived count and inside the table. */
  lemma GnuTableIsBounded(bytes: seq<nat>, loads: seq<Load>, address: nat, count: nat, table: Range)
    returns (h: GnuHeader)
    requires GnuTable(bytes, loads, address, count, table)
    ensures GnuHeaderAt(bytes, loads, address, h) && GnuShape(h, |bytes|)
    ensures InFile(table, |bytes|) && table.start == h.start && 1 <= count <= MAX_SYMBOLS
    ensures forall index :: 0 <= index < h.buckets ==> ChainInside(bytes, h, index, count, table)
  {
    hide GnuHeaderAt, Bucket, ChainBit;
    var highest;
    h, highest :| GnuTableFrom(bytes, loads, address, h, highest, count, table);
    if highest.Some? {
      var index :| 0 <= index < h.buckets && Reached(bytes, h, index, highest.value);
      ChainEndFits(bytes, h, Bucket(bytes, h, index), highest.value);
    }
    forall index | 0 <= index < h.buckets ensures ChainInside(bytes, h, index, count, table) {
      assert BucketEnds(bytes, h, index, highest);
    }
  }

  lemma ChainEndFits(bytes: seq<nat>, h: GnuHeader, symbol: nat, last: nat)
    requires GnuShape(h, |bytes|) && ChainEnds(bytes, h, symbol, last)
    ensures h.firstSymbol <= symbol <= last < MAX_SYMBOLS && h.chainsAt < ChainAt(h, last) + 4 <= h.available
  {
    hide Word32;
  }

  /** The bucket is empty, or its chain ends with a set low bit below the count, in the table. */
  ghost predicate ChainInside(bytes: seq<nat>, h: GnuHeader, index: nat, count: nat, table: Range)
    requires GnuShape(h, |bytes|) && index < h.buckets
  {
    var symbol := Bucket(bytes, h, index);
    symbol == 0 || exists last: nat ::
      last < count && ChainEnds(bytes, h, symbol, last) && h.start + ChainAt(h, last) + 4 <= table.end
  }

  /**
   * `parse_gnu_hash`: walk every bucket's chain, and derive the symbol count and the extent of the
   * table; it accepts exactly the acceptable tables.
   */
  method ParseGnuHash(bytes: seq<nat>, loads: seq<Load>, address: nat) returns (table: Option<(nat, Range)>)
    ensures table.Some? ==> GnuTable(bytes, loads, address, table.value.0, table.value.1)
    ensures table.None? ==> forall count, range :: !GnuTable(bytes, loads, address, count, range)
  {
    hide Word32, ChainEnds, GnuHeaderAt;
    var header := ReadGnuHeader(bytes, loads, address);
    if header.None? { return None; }
    var h := header.value;
    GnuHeaderFits(bytes, loads, address, h);
    var highest: Option<nat> := None;
    var chainEnd := h.chainsAt;
    for index := 0 to h.buckets
      invariant HighestEnd(bytes, h, index, highest)
      invariant chainEnd == GnuEnd(h, highest)
      invariant highest.Some? ==> h.firstSymbol <= highest.value < MAX_SYMBOLS
    {
      var symbol := Bucket(bytes, h, index);
      if symbol == 0 { continue; }
      if symbol < h.firstSymbol || symbol >= MAX_SYMBOLS {
        NoEnd(bytes, h, symbol);
        BadBucket(bytes, loads, address, h, index);
        return None;
      }
      var last := WalkChain(bytes, h, symbol);
      if last.None? {
        BadBucket(bytes, loads, address, h, index);
        return None;
      }
      ChainEndFits(bytes, h, symbol, last.value);
      ghost var before := highest;
      if highest.None? || highest.value < last.value { highest := last; }
      if chainEnd < ChainAt(h, last.value) + 4 { chainEnd := ChainAt(h, last.value) + 4; }
      NextBucket(bytes, h, index, before, last.value, highest);
    }
    // The count is between 1 and the symbol bound: the source tests this once more.
    var count := if highest.Some? then highest.value + 1 else h.firstSymbol;
    table := Some((count, Range(h.start, h.start + chainEnd)));
    assert GnuTableFrom(bytes, loads, address, h, highest, table.value.0, table.value.1);
  }

  lemma NoEnd(bytes: seq<nat>, h: GnuHeader, symbol: nat)
    requires GnuShape(h, |bytes|) && (symbol < h.firstSymbol || symbol >= MAX_SYMBOLS)
    ensures forall e :: !ChainEnds(bytes, h, symbol, e)
  {
    hide Word32;
  }

  /** Every bucket of an acceptable table is empty or has a chain that ends. */
  lemma TableEnds(bytes: seq<nat>, loads: seq<Load>, address: nat, h: GnuHeader, index: nat, count: nat, table: Range)
    requires GnuHeaderAt(bytes, loads, address, h) && GnuShape(h, |bytes|) && index < h.buckets
    requires GnuTable(bytes, loads, address, count, table)
    ensures Bucket(bytes, h, index) == 0 || exists e: nat :: ChainEnds(bytes, h, Bucket(bytes, h, index), e)
  {
    hide GnuHeaderAt, ChainEnds, Bucket;
    var other, highest :| GnuTableFrom(bytes, loads, address, other, highest, count, table);
    GnuHeaderIsUnique(bytes, loads, address, h, other);
    assert BucketEnds(bytes, h, index, highest);
  }

  /** A chain without an end rules the table out. */
  lemma BadBucket(bytes: seq<nat>, loads: seq<Load>, address: nat, h: GnuHeader, index: nat)
    requires GnuHeaderAt(bytes, loads, address, h) && GnuShape(h, |bytes|) && index < h.buckets
    requires Bucket(bytes, h, index) != 0 && forall e :: !ChainEnds(bytes, h, Bucket(bytes, h, index), e)
    ensures forall count, range :: !GnuTable(bytes, loads, address, count, range)
  {
    hide *;
    forall count, range ensures !GnuTable(bytes, loads, address, count, range) {
      if GnuTable(bytes, loads, address, count, range) {
        TableEnds(bytes, loads, address, h, index, count, range);
      }
    }
  }
}
