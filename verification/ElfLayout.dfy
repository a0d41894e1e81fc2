/**
 * The bytes of an acceptable file, field by field (System V gABI, chapter 4, "ELF Header", "Symbol Table"
 * and "String Table", and chapter 5, "Program Header", "Dynamic Section" and "Hash Table"): every field is
 * at its own offset and its value is the sum of its bytes, the first counted once.  Nothing here uses the
 * reads of the validator; that an accepted file is laid out like this is proved of the validator.
 */
module ElfLayout {
  import opened ElfTables
  import opened ElfDynamic
  import opened Wrappers

  function U16(b: seq<nat>, at: nat): nat
    requires at + 2 <= |b|
  {
    b[at] + 0x100 * b[at + 1]
  }

  function U32(b: seq<nat>, at: nat): nat
    requires at + 4 <= |b|
  {
    b[at] + 0x100 * b[at + 1] + 0x1_0000 * b[at + 2] + 0x100_0000 * b[at + 3]
  }

  function U64(b: seq<nat>, at: nat): nat
    requires at + 8 <= |b|
  {
    b[at] + 0x100 * b[at + 1] + 0x1_0000 * b[at + 2] + 0x100_0000 * b[at + 3] + 0x1_0000_0000 * b[at + 4]
    + 0x100_0000_0000 * b[at + 5] + 0x1_0000_0000_0000 * b[at + 6] + 0x100_0000_0000_0000 * b[at + 7]
  }

  lemma WordIsU16(b: seq<nat>, at: nat)
    requires at + 2 <= |b|
    ensures Word(b, at, 2) == U16(b, at)
  {
    assert Word(b, at + 1, 1) == b[at + 1];
  }

  lemma WordIsU32(b: seq<nat>, at: nat)
    requires at + 4 <= |b|
    ensures Word(b, at, 4) == U32(b, at)
  {
    WordIsU16(b, at + 2);
    assert Word(b, at + 1, 3) == b[at + 1] + 0x100 * Word(b, at + 2, 2);
  }

  lemma WordIsU64(b: seq<nat>, at: nat)
    requires at + 8 <= |b|
    ensures Word(b, at, 8) == U64(b, at)
  {
    WordIsU32(b, at + 4);
    assert Word(b, at + 3, 5) == b[at + 3] + 0x100 * Word(b, at + 4, 4);
    assert Word(b, at + 2, 6) == b[at + 2] + 0x100 * Word(b, at + 3, 5);
    assert Word(b, at + 1, 7) == b[at + 1] + 0x100 * Word(b, at + 2, 6);
  }

  predicate Octets(b: seq<nat>) { forall k :: 0 <= k < |b| ==> b[k] < 0x100 }

  // ---------------------------------------------------------------- headers

  /** An acceptable ELF header: its fields, and its two tables within the file. */
  predicate HeaderFields(b: seq<nat>, machine: nat) {
    && 64 <= |b| && b[0..4] == [0x7F, 0x45, 0x4C, 0x46] && b[4..7] == [2, 1, 1] && b[7] in {0, 3}
    && b[8..16] == [0, 0, 0, 0, 0, 0, 0, 0]
    && U16(b, 16) == 3 && U16(b, 18) == machine && U32(b, 20) == 1
    && U16(b, 52) == 64 && U16(b, 54) == 56 && 1 <= U16(b, 56) <= 4096 && U64(b, 32) + 56 * U16(b, 56) <= |b|
    && if U64(b, 40) == 0 then U16(b, 60) == 0 && U16(b, 62) == 0 && U16(b, 58) in {0, 64}
       else U16(b, 58) == 64 && 1 <= U16(b, 60) <= 65_534 && (U16(b, 62) == 0 || U16(b, 62) < U16(b, 60))
            && U64(b, 40) + 64 * U16(b, 60) <= |b|
  }

  /** What the header and its tables take up. */
  function HeaderExtents(b: seq<nat>): seq<Range>
    requires 64 <= |b|
  {
    [Range(0, 64), Range(U64(b, 32), U64(b, 32) + 56 * U16(b, 56))]
    + if U64(b, 40) == 0 then [] else [Range(U64(b, 40), U64(b, 40) + 64 * U16(b, 60))]
  }

  predicate HeaderLaid(b: seq<nat>, machine: nat, ranges: seq<Range>) {
    HeaderFields(b, machine) && HeaderExtents(b) <= ranges
  }

  /** In octets the constant fields leave no choice. */
  predicate HeaderOctets(b: seq<nat>, machine: nat)
    requires 64 <= |b|
  {
    && b[16] == 3 && b[17] == 0 && b[20..24] == [1, 0, 0, 0] && b[52..56] == [64, 0, 56, 0]
    && b[18] == machine % 0x100 && b[19] == machine / 0x100
  }

  lemma OctetsOfHeader(b: seq<nat>, machine: nat, ranges: seq<Range>)
    requires Octets(b) && HeaderLaid(b, machine, ranges)
    ensures HeaderOctets(b, machine)
  {
  }

  /** Program header k of the table is of this type and has this file offset, address and file size. */
  predicate ProgramAt(b: seq<nat>, table: nat, k: nat, kind: nat, load: Load) {
    var at := table + 56 * k;
    && at + 56 <= |b| && U32(b, at) == kind && U64(b, at + 8) == load.fileOffset && U64(b, at + 16) == load.address
    && U64(b, at + 32) == load.fileSize
  }

  /** The PT_LOAD headers are the loads, and the one PT_DYNAMIC header is the dynamic segment. */
  ghost predicate ProgramsLaid(b: seq<nat>, loads: seq<Load>, segment: Load)
    requires 64 <= |b|
  {
    var table, count := U64(b, 32), U16(b, 56);
    && table + 56 * count <= |b|
    && (forall load :: load in loads ==> exists k :: 0 <= k < count && ProgramAt(b, table, k, 1, load))
    && (forall k, load :: 0 <= k < count && ProgramAt(b, table, k, 1, load) ==> load in loads)
    && (exists k :: 0 <= k < count && ProgramAt(b, table, k, 2, segment))
    && (forall k, other :: 0 <= k < count && ProgramAt(b, table, k, 2, other) ==> other == segment)
  }

  // ---------------------------------------------------------------- dynamic entries

  /** Entry k of the dynamic table has this tag and this value. */
  predicate EntryAt(b: seq<nat>, table: nat, k: nat, tag: nat, value: nat) {
    var at := table + 16 * k;
    at + 16 <= |b| && U64(b, at) == tag && U64(b, at + 8) == value
  }

  /** Entry e is the first with tag 0; those before it give the tags that occur once, and the string offsets. */
  ghost predicate EntriesLaid(b: seq<nat>, table: nat, e: nat, unique: map<nat, nat>, strings: seq<nat>) {
    && EntryAt(b, table, e, 0, 0)
    && (forall k, value :: 0 <= k < e ==> !EntryAt(b, table, k, 0, value))
    && (forall tag :: tag in unique ==> exists k :: 0 <= k < e && EntryAt(b, table, k, tag, unique[tag]))
    && (forall k, tag, value :: 0 <= k < e && EntryAt(b, table, k, tag, value) && SingleTag(tag) ==>
      tag in unique && unique[tag] == value)
    && StringsBelow(b, table, e, strings)
  }

  ghost predicate StringsBelow(b: seq<nat>, table: nat, n: nat, strings: seq<nat>) {
    && (forall v :: v in strings ==> exists k, tag :: 0 <= k < n && EntryAt(b, table, k, tag, v) && StringTag(tag))
    && (forall k, tag, v :: 0 <= k < n && EntryAt(b, table, k, tag, v) && StringTag(tag) ==> v in strings)
  }

  /** DT_NEEDED, DT_RPATH, DT_RUNPATH, DT_AUXILIARY, DT_FILTER. */
  predicate StringTag(tag: nat) { tag in {1, 15, 29, 0x7fff_fffd, 0x7fff_ffff} }

  /** DT_HASH, DT_STRTAB, DT_SYMTAB, DT_STRSZ, DT_SYMENT, DT_SONAME, DT_GNU_HASH. */
  predicate SingleTag(tag: nat) { tag in {4, 5, 6, 10, 11, 14, 0x6fff_fef5} }

  ghost predicate EntriesOf(bytes: seq<nat>, segment: Load, unique: map<nat, nat>, strings: seq<nat>) {
    exists e :: 0 <= e < segment.fileSize / 16 && EntriesLaid(bytes, segment.fileOffset, e, unique, strings)
  }

  // ---------------------------------------------------------------- tables

  /** A table of this size lies where a segment that holds it puts its address. */
  predicate LiesIn(load: Load, address: nat, size: nat, table: Range) {
    && load.address <= address && address + size <= load.address + load.fileSize
    && table.start + load.address == load.fileOffset + address && table.end == table.start + size
  }

  ghost predicate TableAt(loads: seq<Load>, address: nat, size: nat, table: Range) {
    exists load :: load in loads && LiesIn(load, address, size, table)
  }

  /** A zero-terminated string of bytes that are not zero. */
  predicate TextAt(b: seq<nat>, at: nat, text: seq<nat>) {
    at + |text| < |b| && b[at..at + |text|] == text && b[at + |text|] == 0 && 0 !in text
  }

  /** Symbol number `index` is exported under this name. */
  predicate SymbolAt(b: seq<nat>, table: nat, index: nat, strings: Range, name: seq<nat>) {
    var at := table + 24 * index;
    && at + 24 <= |b| && b[at + 4] / 16 in {1, 2} && b[at + 4] % 16 in {0, 2, 10} && b[at + 5] % 4 in {0, 3}
    && U16(b, at + 6) != 0 && TextAt(b, strings.start + U32(b, at), name)
    && strings.start + U32(b, at) + |name| < strings.end
  }

  /** The System V table: both counts, its extent, and every word below the symbol count. */
  ghost predicate SysvLaid(b: seq<nat>, count: nat, table: Range) {
    && table.start + 8 <= |b| && U32(b, table.start + 4) == count && 1 <= U32(b, table.start) <= 1_000_000
    && 1 <= count <= 1_000_000
    && table.end == table.start + 8 + 4 * (U32(b, table.start) + count) && table.end <= |b|
    && forall k :: 0 <= k < U32(b, table.start) + count ==> WordBelow(b, table.start + 8 + 4 * k, count)
  }

  predicate WordBelow(b: seq<nat>, at: nat, count: nat) { at + 4 <= |b| && U32(b, at) < count }

  /** The chain word of a symbol in the GNU table at this position, and whether it is the last of its chain. */
  predicate ChainWord(b: seq<nat>, at: nat, symbol: nat, end: nat, last: bool) {
    && at + 16 <= |b| && U32(b, at + 4) <= symbol
    && var word := at + 16 + 8 * U32(b, at + 8) + 4 * U32(b, at) + 4 * (symbol - U32(b, at + 4));
       && word + 4 <= end <= |b| && (last <==> b[word] % 2 == 1)
  }

  predicate ChainRuns(b: seq<nat>, at: nat, from: nat, to: nat, end: nat) {
    from <= to && ChainWord(b, at, to, end, true) && forall k :: from <= k < to ==> ChainWord(b, at, k, end, false)
  }

  /** The first symbol of a bucket, behind the header and the filter words. */
  predicate BucketAt(b: seq<nat>, at: nat, index: nat, symbol: nat) {
    && at + 16 <= |b| && at + 16 + 8 * U32(b, at + 8) + 4 * index + 4 <= |b|
    && U32(b, at + 16 + 8 * U32(b, at + 8) + 4 * index) == symbol
  }

  /** A bucket is empty, or its chain runs to a symbol below the count, within the table. */
  ghost predicate BucketLaid(b: seq<nat>, at: nat, index: nat, count: nat, end: nat) {
    BucketAt(b, at, index, 0)
    || exists symbol: nat, to: nat :: BucketAt(b, at, index, symbol) && to < count && ChainRuns(b, at, symbol, to, end)
  }

  /** The chain of this bucket ends at the last symbol below the count. */
  ghost predicate ChainReaches(b: seq<nat>, at: nat, index: nat, count: nat, end: nat) {
    exists symbol: nat ::
      symbol != 0 && BucketAt(b, at, index, symbol) && count > 0 && ChainRuns(b, at, symbol, count - 1, end)
  }

  /** The GNU table: every chain ends below the count, which is one more than the highest end. */
  ghost predicate GnuLaid(b: seq<nat>, count: nat, table: Range) {
    && table.start + 16 <= |b| && 1 <= U32(b, table.start) <= 1_000_000
    && 1 <= U32(b, table.start + 4) && U32(b, table.start + 12) < 64
    && (forall index :: 0 <= index < U32(b, table.start) ==> BucketLaid(b, table.start, index, count, table.end))
    && (if forall index :: 0 <= index < U32(b, table.start) ==> BucketAt(b, table.start, index, 0)
        then count == U32(b, table.start + 4)
        else exists index ::
          0 <= index < U32(b, table.start) && ChainReaches(b, table.start, index, count, table.end))
  }

  // ---------------------------------------------------------------- what the validator reads is there

  lemma FieldsAre(b: seq<nat>)
    requires 64 <= |b|
    ensures Word(b, 16, 2) == U16(b, 16) && Word(b, 18, 2) == U16(b, 18) && Word(b, 20, 4) == U32(b, 20)
    ensures Word(b, 52, 2) == U16(b, 52) && Word(b, 54, 2) == U16(b, 54) && Word(b, 56, 2) == U16(b, 56)
    ensures Word(b, 58, 2) == U16(b, 58) && Word(b, 60, 2) == U16(b, 60) && Word(b, 62, 2) == U16(b, 62)
    ensures Word(b, 32, 8) == U64(b, 32) && Word(b, 40, 8) == U64(b, 40)
  {
    hide Word, U16, U32, U64;
    WordIsU16(b, 16); WordIsU16(b, 18); WordIsU32(b, 20); WordIsU16(b, 52); WordIsU16(b, 54);
    WordIsU16(b, 56); WordIsU16(b, 58); WordIsU16(b, 60); WordIsU16(b, 62);
    WordIsU64(b, 32); WordIsU64(b, 40);
  }

  /** The header is read from exactly the files that begin with an acceptable one, and its extents are these. */
  lemma HeaderExactly(b: seq<nat>, machine: nat)
    ensures HeaderFields(b, machine) <==>
      ParseHeader(b, machine).Some? && HeaderRanges(ParseHeader(b, machine).value, |b|).Some?
    ensures HeaderFields(b, machine) ==>
      var h := ParseHeader(b, machine).value;
      && h.programOffset == U64(b, 32) && h.programCount == U16(b, 56)
      && HeaderRanges(h, |b|) == Some(HeaderExtents(b))
  {
    hide Word, U16, U32, U64;
    if 64 <= |b| {
      FieldsAre(b);
      IdentificationIs(b, machine);
      ExtentsAre(b);
    }
  }

  lemma ExtentsAre(b: seq<nat>)
    requires 64 <= |b|
    ensures var h := Header(U64(b, 32), U16(b, 56), U64(b, 40), U16(b, 60));
      HeaderRanges(h, |b|) ==
        if U64(b, 32) + 56 * U16(b, 56) <= |b| && (U64(b, 40) != 0 ==> U64(b, 40) + 64 * U16(b, 60) <= |b|)
        then Some(HeaderExtents(b)) else None
  {
    hide U16, U64;
    var programs := Range(U64(b, 32), U64(b, 32) + 56 * U16(b, 56));
    var sections := Range(U64(b, 40), U64(b, 40) + 64 * U16(b, 60));
    assert [Range(0, 64), programs] + [] == [Range(0, 64), programs];
    assert [Range(0, 64), programs] + [sections] == [Range(0, 64), programs, sections];
  }

  lemma IdentificationIs(b: seq<nat>, machine: nat)
    requires 64 <= |b|
    ensures IdentificationOk(b, machine) <==>
      && b[0..4] == [0x7F, 0x45, 0x4C, 0x46] && b[4..7] == [2, 1, 1] && b[7] in {0, 3}
      && b[8..16] == [0, 0, 0, 0, 0, 0, 0, 0]
      && Word(b, 16, 2) == 3 && Word(b, 18, 2) == machine && Word(b, 20, 4) == 1 && Word(b, 52, 2) == 64
  {
    hide Word;
    assert b[4..7] == [b[4], b[5], b[6]];
    var padding := b[8..16];
    assert forall k :: 0 <= k < 8 ==> padding[k] == b[8 + k];
    assert padding == [b[8], b[9], b[10], b[11], b[12], b[13], b[14], b[15]];
  }

  lemma HeaderIsLaid(bytes: seq<nat>, machine: nat, ranges: seq<Range>, head: seq<Range>)
    requires ParseHeader(bytes, machine).Some?
    requires HeaderRanges(ParseHeader(bytes, machine).value, |bytes|) == Some(head) && head <= ranges
    ensures HeaderLaid(bytes, machine, ranges)
    ensures ParseHeader(bytes, machine).value.programOffset == U64(bytes, 32)
    ensures ParseHeader(bytes, machine).value.programCount == U16(bytes, 56)
  {
    hide ParseHeader, HeaderRanges, HeaderFields, HeaderExtents, U16, U64;
    HeaderExactly(bytes, machine);
    HeaderLength(bytes, machine);
  }

  lemma ProgramIs(bytes: seq<nat>, start: nat, k: nat)
    requires HeadersIn(bytes, start, k + 1)
    ensures forall kind, load :: ProgramAt(bytes, start, k, kind, load) <==>
      Kind(bytes, start, k) == kind && Segment(bytes, start, k) == load
  {
    hide Word, U32, U64;
    var at := start + k * PROGRAM_HEADER_SIZE;
    WordIsU32(bytes, at); WordIsU64(bytes, at + 8); WordIsU64(bytes, at + 16); WordIsU64(bytes, at + 32);
  }

  lemma {:induction false} LoadsAre(bytes: seq<nat>, start: nat, n: nat)
    requires HeadersIn(bytes, start, n)
    ensures forall load :: load in Loads(bytes, start, n) ==>
      exists k :: 0 <= k < n && ProgramAt(bytes, start, k, PT_LOAD, load)
    ensures forall k, load :: 0 <= k < n && ProgramAt(bytes, start, k, PT_LOAD, load) ==>
      load in Loads(bytes, start, n)
  {
    hide Kind, Segment, ProgramAt;
    if n > 0 {
      LoadsAre(bytes, start, n - 1);
      ProgramIs(bytes, start, n - 1);
      forall load | load in Loads(bytes, start, n)
        ensures exists k :: 0 <= k < n && ProgramAt(bytes, start, k, PT_LOAD, load) {
        if load in Loads(bytes, start, n - 1) {
          var k :| 0 <= k < n - 1 && ProgramAt(bytes, start, k, PT_LOAD, load);
        } else {
          assert ProgramAt(bytes, start, n - 1, PT_LOAD, load);
        }
      }
    }
  }

  lemma ProgramsAreLaid(bytes: seq<nat>, loads: seq<Load>, segment: Load)
    requires 64 <= |bytes| && HeadersIn(bytes, U64(bytes, 32), U16(bytes, 56))
    requires SegmentsAre(bytes, U64(bytes, 32), U16(bytes, 56), Segments(loads, Some(segment)))
    ensures ProgramsLaid(bytes, loads, segment)
  {
    hide Kind, Segment, SegmentOk, ProgramAt, U16, U64, Loads;
    var start, n := U64(bytes, 32), U16(bytes, 56);
    LoadsAre(bytes, start, n);
    forall k | 0 <= k < n ensures HeadersIn(bytes, start, k + 1)
      && forall kind, load :: ProgramAt(bytes, start, k, kind, load) <==>
        Kind(bytes, start, k) == kind && Segment(bytes, start, k) == load {
      ProgramIs(bytes, start, k);
    }
    var k :| 0 <= k < n && OnlyDynamic(bytes, start, n, k, segment);
    assert ProgramAt(bytes, start, k, PT_DYNAMIC, segment);
    forall k, other | 0 <= k < n && ProgramAt(bytes, start, k, PT_DYNAMIC, other) ensures other == segment {
      assert Kind(bytes, start, k) == PT_DYNAMIC;
    }
  }

  lemma EntryIs(bytes: seq<nat>, start: nat, k: nat)
    requires EntriesIn(bytes, start, k + 1)
    ensures EntryAt(bytes, start, k, Tag(bytes, start, k), Value(bytes, start, k))
    ensures forall tag, value :: EntryAt(bytes, start, k, tag, value) ==>
      tag == Tag(bytes, start, k) && value == Value(bytes, start, k)
  {
    hide Word, U64;
    var at := start + k * DYNAMIC_ENTRY_SIZE;
    WordIsU64(bytes, at); WordIsU64(bytes, at + 8);
  }

  lemma EntriesAreLaid(bytes: seq<nat>, segment: Load, d: Dynamic)
    requires DynamicIs(bytes, Range(segment.fileOffset, segment.fileOffset + segment.fileSize), d)
    ensures EntriesOf(bytes, segment, d.unique, d.strings)
  {
    hide Tag, Value, EntryAt, OccursOnce, NamesString, StringValues, StringsBelow, StringTag;
    var start, n := segment.fileOffset, segment.fileSize / DYNAMIC_ENTRY_SIZE;
    var e: nat :| e < n && Terminated(bytes, start, n, e, d);
    forall k, value | 0 <= k < e ensures !EntryAt(bytes, start, k, 0, value) {
      EntryIs(bytes, start, k);
      assert Tag(bytes, start, k) != 0;
    }
    forall tag | tag in d.unique ensures exists k :: 0 <= k < e && EntryAt(bytes, start, k, tag, d.unique[tag]) {
      assert Occurs(bytes, start, e, tag);
      var k :| 0 <= k < e && Tag(bytes, start, k) == tag;
      assert Gives(d, tag, Value(bytes, start, k));
      EntryIs(bytes, start, k);
    }
    forall k, tag, value | 0 <= k < e && EntryAt(bytes, start, k, tag, value) && SingleTag(tag)
      ensures tag in d.unique && d.unique[tag] == value {
      EntryIs(bytes, start, k);
      SingleOccursOnce(tag);
      assert Gives(d, tag, Value(bytes, start, k));
    }
    EntryIs(bytes, start, e);
    assert Tag(bytes, start, e) == 0;
    StringsAreBelow(bytes, start, e);
    assert EntriesLaid(bytes, start, e, d.unique, d.strings);
  }

  lemma StringTagNames(tag: nat)
    ensures StringTag(tag) <==> NamesString(tag)
  {
  }

  lemma {:induction false} StringsAreBelow(bytes: seq<nat>, start: nat, n: nat)
    requires EntriesIn(bytes, start, n)
    ensures StringsBelow(bytes, start, n, StringValues(bytes, start, n))
  {
    hide Tag, Value, EntryAt, NamesString, StringsBelow;
    if n == 0 {
      NoStrings(bytes, start);
    } else {
      StringsAreBelow(bytes, start, n - 1);
      EntryIs(bytes, start, n - 1);
      NextString(bytes, start, n - 1, StringValues(bytes, start, n - 1), Tag(bytes, start, n - 1),
                 Value(bytes, start, n - 1));
      StringTagNames(Tag(bytes, start, n - 1));
    }
  }

  lemma NoStrings(bytes: seq<nat>, start: nat)
    ensures StringsBelow(bytes, start, 0, [])
  {
  }

  lemma NextString(bytes: seq<nat>, start: nat, n: nat, before: seq<nat>, tag: nat, value: nat)
    requires StringsBelow(bytes, start, n, before) && EntryAt(bytes, start, n, tag, value)
    ensures StringsBelow(bytes, start, n + 1, before + if StringTag(tag) then [value] else [])
  {
    SameEntry(bytes, start, n, tag, value);
    hide EntryAt, StringTag;
    var after := before + if StringTag(tag) then [value] else [];
    forall v | v in after
      ensures exists k, tag :: 0 <= k < n + 1 && EntryAt(bytes, start, k, tag, v) && StringTag(tag) {
      if v in before {
        var k, tag :| 0 <= k < n && EntryAt(bytes, start, k, tag, v) && StringTag(tag);
      }
    }
  }

  lemma SameEntry(bytes: seq<nat>, start: nat, k: nat, tag: nat, value: nat)
    requires EntryAt(bytes, start, k, tag, value)
    ensures forall t, v :: EntryAt(bytes, start, k, t, v) ==> t == tag && v == value
  {
  }

  lemma SingleOccursOnce(tag: nat)
    ensures SingleTag(tag) <==> OccursOnce(tag)
  {
  }

  lemma MappedLies(loads: seq<Load>, address: nat, size: nat, length: nat, r: Range)
    requires Maps(loads, address, size, length, r)
    ensures TableAt(loads, address, size, r)
  {
    var load :| load in loads && Backs(load, address, size);
    assert LoadAgrees(load, address, size, length, r);
    assert LiesIn(load, address, size, r);
  }

  lemma SysvIsLaid(bytes: seq<nat>, loads: seq<Load>, address: nat, symbols: nat, table: Range)
    requires SysvTable(bytes, loads, address, symbols, table)
    ensures SysvLaid(bytes, symbols, table) && TableAt(loads, address, table.end - table.start, table)
  {
    hide Word, Maps, TableAt, U32;
    var at := table.start;
    WordIsU32(bytes, at); WordIsU32(bytes, at + 4);
    MappedLies(loads, address, SysvSize(bytes, at), |bytes|, table);
    MappingFits(loads, address, SysvSize(bytes, at), |bytes|, table);
    forall k | 0 <= k < U32(bytes, at) + symbols ensures WordBelow(bytes, at + 8 + 4 * k, symbols) {
      assert IndexOk(bytes, at + 8 + 4 * k, symbols);
      WordIsU32(bytes, at + 8 + 4 * k);
    }
  }

  lemma LowBit(bytes: seq<nat>, at: nat)
    requires at + 4 <= |bytes|
    ensures Word32(bytes, at) % 2 == bytes[at] % 2
  {
    WordIsU32(bytes, at);
  }

  lemma GnuChainsAt(bytes: seq<nat>, h: GnuHeader)
    requires h.start + 16 <= |bytes| && GnuFields(bytes, h.start, h)
    ensures h.chainsAt == 16 + 8 * U32(bytes, h.start + 8) + 4 * U32(bytes, h.start)
    ensures h.bucketsAt == 16 + 8 * U32(bytes, h.start + 8) && h.firstSymbol == U32(bytes, h.start + 4)
  {
    hide Word, PowerOfTwo, U32;
    var at := h.start;
    WordIsU32(bytes, at); WordIsU32(bytes, at + 4); WordIsU32(bytes, at + 8);
  }

  /** A chain word that is within the table, by its low byte. */
  lemma ChainWordIs(bytes: seq<nat>, h: GnuHeader, symbol: nat, bit: nat, end: nat)
    requires GnuShape(h, |bytes|) && h.start + 16 <= |bytes| && GnuFields(bytes, h.start, h)
    requires ChainBit(bytes, h, symbol, bit) && bit < 2 && h.start + ChainAt(h, symbol) + 4 <= end <= |bytes|
    ensures ChainWord(bytes, h.start, symbol, end, bit == 1)
  {
    hide Word32, GnuFields, U32;
    GnuChainsAt(bytes, h);
    LowBit(bytes, h.start + ChainAt(h, symbol));
  }

  lemma ChainIs(bytes: seq<nat>, h: GnuHeader, symbol: nat, last: nat, end: nat)
    requires GnuShape(h, |bytes|) && h.start + 16 <= |bytes| && GnuFields(bytes, h.start, h)
    requires ChainEnds(bytes, h, symbol, last) && h.start + ChainAt(h, last) + 4 <= end <= |bytes|
    ensures ChainRuns(bytes, h.start, symbol, last, end)
  {
    hide GnuFields, ChainBit, ChainWord;
    ChainWordIs(bytes, h, last, 1, end);
    forall k | symbol <= k < last ensures ChainWord(bytes, h.start, k, end, false) {
      assert ChainBit(bytes, h, k, 0);
      ChainWordIs(bytes, h, k, 0, end);
    }
  }

  lemma BucketIs(bytes: seq<nat>, h: GnuHeader, index: nat)
    requires GnuShape(h, |bytes|) && h.start + 16 <= |bytes| && GnuFields(bytes, h.start, h) && index < h.buckets
    ensures forall symbol :: BucketAt(bytes, h.start, index, symbol) <==> symbol == Bucket(bytes, h, index)
  {
    hide Word, PowerOfTwo, U32;
    var at := h.start;
    WordIsU32(bytes, at + 8); WordIsU32(bytes, at + h.bucketsAt + 4 * index);
  }

  lemma GnuBucketsLaid(bytes: seq<nat>, h: GnuHeader, highest: Option<nat>, count: nat, end: nat)
    requires GnuShape(h, |bytes|) && h.start + 16 <= |bytes| && GnuFields(bytes, h.start, h)
    requires HighestEnd(bytes, h, h.buckets, highest)
    requires count == GnuCount(h, highest) && end == h.start + GnuEnd(h, highest) && end <= |bytes|
    ensures forall index :: 0 <= index < h.buckets ==> BucketLaid(bytes, h.start, index, count, end)
    ensures highest.Some? ==> exists index :: 0 <= index < h.buckets && ChainReaches(bytes, h.start, index, count, end)
    ensures highest.Some? ==> exists index :: 0 <= index < h.buckets && !BucketAt(bytes, h.start, index, 0)
    ensures highest.None? ==> forall index :: 0 <= index < h.buckets ==> BucketAt(bytes, h.start, index, 0)
  {
    hide Word32, GnuFields, Bucket, BucketAt, ChainBit, ChainRuns;
    forall index | 0 <= index < h.buckets
      ensures BucketLaid(bytes, h.start, index, count, end) && (highest.None? ==> BucketAt(bytes, h.start, index, 0)) {
      BucketIs(bytes, h, index);
      assert BucketEnds(bytes, h, index, highest);
      var symbol := Bucket(bytes, h, index);
      if symbol != 0 {
        var last: nat :| last <= highest.value && ChainEnds(bytes, h, symbol, last);
        ChainIs(bytes, h, symbol, last, end);
      }
    }
    if highest.Some? {
      var index :| 0 <= index < h.buckets && Reached(bytes, h, index, highest.value);
      BucketIs(bytes, h, index);
      var symbol := Bucket(bytes, h, index);
      ChainIs(bytes, h, symbol, highest.value, end);
      assert BucketAt(bytes, h.start, index, symbol) && count - 1 == highest.value;
      assert ChainReaches(bytes, h.start, index, count, end);
      assert !BucketAt(bytes, h.start, index, 0);
    }
  }

  lemma GnuIsLaid(bytes: seq<nat>, loads: seq<Load>, address: nat, count: nat, table: Range)
    requires GnuTable(bytes, loads, address, count, table)
    ensures GnuLaid(bytes, count, table)
    ensures TableAt(loads, address, 16, Range(table.start, table.start + 16))
  {
    hide *;
    var h, highest := GnuParts(bytes, loads, address, count, table);
    var at := h.start;
    GnuFieldsAre(bytes, h);
    MappedLies(loads, address, 16, |bytes|, Range(at, at + 16));
    GnuBucketsLaid(bytes, h, highest, count, table.end);
    CountOf(bytes, h, highest, count, table);
  }

  lemma GnuParts(bytes: seq<nat>, loads: seq<Load>, address: nat, count: nat, table: Range)
    returns (h: GnuHeader, highest: Option<nat>)
    requires GnuTable(bytes, loads, address, count, table)
    ensures GnuShape(h, |bytes|) && h.start + 16 <= |bytes| && GnuFields(bytes, h.start, h)
    ensures Maps(loads, address, 16, |bytes|, Range(h.start, h.start + 16))
    ensures HighestEnd(bytes, h, h.buckets, highest) && count == GnuCount(h, highest)
    ensures table.start == h.start && table.end == h.start + GnuEnd(h, highest) && table.end <= |bytes|
  {
    hide Word32, GnuFields, Maps, Reaches, HighestEnd;
    h, highest :| GnuTableFrom(bytes, loads, address, h, highest, count, table);
    HighestFits(bytes, h, highest);
  }

  lemma HighestFits(bytes: seq<nat>, h: GnuHeader, highest: Option<nat>)
    requires GnuShape(h, |bytes|) && HighestEnd(bytes, h, h.buckets, highest)
    ensures h.start + GnuEnd(h, highest) <= |bytes|
  {
    hide Bucket, ChainEnds;
    if highest.Some? {
      var index :| 0 <= index < h.buckets && Reached(bytes, h, index, highest.value);
      ChainEndFits(bytes, h, Bucket(bytes, h, index), highest.value);
    }
  }

  lemma GnuFieldsAre(bytes: seq<nat>, h: GnuHeader)
    requires h.start + 16 <= |bytes| && GnuFields(bytes, h.start, h)
    ensures h.buckets == U32(bytes, h.start) && 1 <= h.buckets <= 1_000_000
    ensures 1 <= U32(bytes, h.start + 4) == h.firstSymbol && U32(bytes, h.start + 12) < 64
  {
    hide Word, PowerOfTwo, U32;
    var at := h.start;
    WordIsU32(bytes, at); WordIsU32(bytes, at + 4); WordIsU32(bytes, at + 12);
  }

  lemma CountOf(bytes: seq<nat>, h: GnuHeader, highest: Option<nat>, count: nat, table: Range)
    requires h.start + 16 <= |bytes| && table.start == h.start && count == GnuCount(h, highest)
    requires h.buckets == U32(bytes, h.start) && 1 <= h.buckets <= 1_000_000
    requires 1 <= U32(bytes, h.start + 4) == h.firstSymbol && U32(bytes, h.start + 12) < 64
    requires forall index :: 0 <= index < h.buckets ==> BucketLaid(bytes, h.start, index, count, table.end)
    requires highest.Some? ==>
      exists index :: 0 <= index < h.buckets && ChainReaches(bytes, h.start, index, count, table.end)
    requires highest.Some? ==> exists index :: 0 <= index < h.buckets && !BucketAt(bytes, h.start, index, 0)
    requires highest.None? ==> forall index :: 0 <= index < h.buckets ==> BucketAt(bytes, h.start, index, 0)
    ensures GnuLaid(bytes, count, table)
  {
    hide U32, BucketAt, BucketLaid, ChainReaches;
  }

  lemma HeaderLength(bytes: seq<nat>, machine: nat)
    requires HeaderFields(bytes, machine)
    ensures |bytes| >= 64
  {
  }
}
