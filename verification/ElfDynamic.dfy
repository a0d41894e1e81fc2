/**
 * The headers and the dynamic table of native/deltafin-curl-sys-direct/build_support.rs (System V gABI,
 * chapter 4, "ELF Header", and chapter 5, "Program Header" and "Dynamic Section"): what an acceptable
 * table says, and loops that accept exactly the acceptable ones.
 */
module ElfDynamic {
  import opened ElfTables
  import opened Wrappers

  const HEADER_SIZE: nat := 64
  const PROGRAM_HEADER_SIZE: nat := 56
  const SECTION_HEADER_SIZE: nat := 64
  const DYNAMIC_ENTRY_SIZE: nat := 16
  const MAX_PROGRAM_HEADERS: nat := 4_096
  const MAX_SECTION_HEADERS: nat := 65_534
  const MAX_DYNAMIC_ENTRIES: nat := 65_536

  // ---------------------------------------------------------------- the header

  datatype Header = Header(programOffset: nat, programCount: nat, sectionOffset: nat, sectionCount: nat)

  predicate IdentificationOk(bytes: seq<nat>, machine: nat) {
    && HEADER_SIZE <= |bytes|
    && bytes[0..4] == [0x7F, 0x45, 0x4C, 0x46]
    && bytes[4] == 2 && bytes[5] == 1 && bytes[6] == 1 && (bytes[7] == 0 || bytes[7] == 3) && bytes[8] == 0
    && (forall k :: 9 <= k < 16 ==> bytes[k] == 0)
    && Word(bytes, 16, 2) == 3 && Word(bytes, 18, 2) == machine && Word(bytes, 20, 4) == 1
      && Word(bytes, 52, 2) == HEADER_SIZE
  }

  /** Program and section header counts and entry sizes. */
  predicate CountsOk(h: Header, programEntry: nat, sectionEntry: nat, sectionNames: nat) {
    && programEntry == PROGRAM_HEADER_SIZE && 1 <= h.programCount <= MAX_PROGRAM_HEADERS
    && if h.sectionOffset == 0 then
         h.sectionCount == 0 && sectionNames == 0 && (sectionEntry == 0 || sectionEntry == SECTION_HEADER_SIZE)
       else
         sectionEntry == SECTION_HEADER_SIZE && 1 <= h.sectionCount <= MAX_SECTION_HEADERS
         && (sectionNames == 0 || sectionNames < h.sectionCount)
  }

  function ParseHeader(bytes: seq<nat>, machine: nat): (h: Option<Header>)
    ensures h.Some? ==> 1 <= h.value.programCount <= MAX_PROGRAM_HEADERS
  {
    if !IdentificationOk(bytes, machine) then None else
      var h := Header(Word(bytes, 32, 8), Word(bytes, 56, 2), Word(bytes, 40, 8), Word(bytes, 60, 2));
      if CountsOk(h, Word(bytes, 54, 2), Word(bytes, 58, 2), Word(bytes, 62, 2)) then Some(h) else None
  }

  /** The header ranges: the ELF header, the program headers, and the section headers if there are any. */
  function HeaderRanges(h: Header, length: nat): Option<seq<Range>> {
    var programs := CheckedRange(h.programOffset, h.programCount * PROGRAM_HEADER_SIZE, length);
    var sections := CheckedRange(h.sectionOffset, h.sectionCount * SECTION_HEADER_SIZE, length);
    if programs.None? then None
    else if h.sectionOffset == 0 then Some([Range(0, HEADER_SIZE), programs.value])
    else if sections.None? then None
    else Some([Range(0, HEADER_SIZE), programs.value, sections.value])
  }

  // ---------------------------------------------------------------- program headers

  const PT_LOAD: nat := 1
  const PT_DYNAMIC: nat := 2

  datatype Segments = Segments(loads: seq<Load>, dynamic: Option<Load>)

  /** Program headers 0 .. n - 1 of a table are in the file. */
  predicate HeadersIn(bytes: seq<nat>, start: nat, n: nat) { start + n * PROGRAM_HEADER_SIZE <= |bytes| }

  function Kind(bytes: seq<nat>, start: nat, k: nat): nat
    requires HeadersIn(bytes, start, k + 1)
  {
    Word(bytes, start + k * PROGRAM_HEADER_SIZE, 4)
  }

  function Segment(bytes: seq<nat>, start: nat, k: nat): Load
    requires HeadersIn(bytes, start, k + 1)
  {
    var at := start + k * PROGRAM_HEADER_SIZE;
    Load(Word(bytes, at + 8, 8), Word(bytes, at + 16, 8), Word(bytes, at + 32, 8))
  }

  /** A program header is bounded, congruently aligned, and not larger in the file than in memory. */
  predicate SegmentOk(bytes: seq<nat>, start: nat, k: nat)
    requires HeadersIn(bytes, start, k + 1)
  {
    var at := start + k * PROGRAM_HEADER_SIZE;
    var kind, segment := Kind(bytes, start, k), Segment(bytes, start, k);
    var memorySize, alignment := Word(bytes, at + 40, 8), Word(bytes, at + 48, 8);
    && (segment.fileSize != 0 ==> segment.fileOffset + segment.fileSize <= |bytes|)
    && (alignment > 1 ==> PowerOfTwo(alignment) && segment.fileOffset % alignment == segment.address % alignment)
    && (kind == PT_LOAD || kind == PT_DYNAMIC ==> segment.fileSize <= memorySize)
    && (kind == PT_DYNAMIC ==> DynamicSizeOk(segment.fileSize))
  }

  predicate DynamicSizeOk(size: nat) {
    0 < size && size % DYNAMIC_ENTRY_SIZE == 0 && size / DYNAMIC_ENTRY_SIZE <= MAX_DYNAMIC_ENTRIES
  }

  /** The PT_LOAD segments among the first n, in table order. */
  function Loads(bytes: seq<nat>, start: nat, n: nat): seq<Load>
    requires HeadersIn(bytes, start, n)
  {
    if n == 0 then [] else
      Loads(bytes, start, n - 1) + if Kind(bytes, start, n - 1) == PT_LOAD then [Segment(bytes, start, n - 1)] else []
  }

  /** The dynamic segment is the one PT_DYNAMIC among the first n, if there is one. */
  ghost predicate DynamicAmong(bytes: seq<nat>, start: nat, n: nat, dynamic: Option<Load>)
    requires HeadersIn(bytes, start, n)
  {
    match dynamic
    case None => forall k :: 0 <= k < n ==> Kind(bytes, start, k) != PT_DYNAMIC
    case Some(segment) => exists k :: 0 <= k < n && OnlyDynamic(bytes, start, n, k, segment)
  }

  ghost predicate OnlyDynamic(bytes: seq<nat>, start: nat, n: nat, k: nat, segment: Load)
    requires HeadersIn(bytes, start, n) && k < n
  {
    && segment == Segment(bytes, start, k)
    && forall j :: 0 <= j < n ==> (Kind(bytes, start, j) == PT_DYNAMIC <==> j == k)
  }

  ghost predicate SegmentsAre(bytes: seq<nat>, start: nat, n: nat, segments: Segments)
    requires HeadersIn(bytes, start, n)
  {
    && (forall k :: 0 <= k < n ==> SegmentOk(bytes, start, k))
    && segments.loads == Loads(bytes, start, n) && DynamicAmong(bytes, start, n, segments.dynamic)
  }

  lemma SegmentsAreUnique(bytes: seq<nat>, start: nat, n: nat, a: Segments, b: Segments)
    requires HeadersIn(bytes, start, n) && SegmentsAre(bytes, start, n, a) && SegmentsAre(bytes, start, n, b)
    ensures a == b
  {
    hide Kind, Segment, SegmentOk;
    SameDynamic(bytes, start, n, a.dynamic, b.dynamic);
    SameDynamic(bytes, start, n, b.dynamic, a.dynamic);
  }

  lemma SameDynamic(bytes: seq<nat>, start: nat, n: nat, a: Option<Load>, b: Option<Load>)
    requires HeadersIn(bytes, start, n) && DynamicAmong(bytes, start, n, a) && DynamicAmong(bytes, start, n, b)
    ensures a.Some? ==> b == a
  {
    hide Kind, Segment;
    if a.Some? {
      var k :| 0 <= k < n && OnlyDynamic(bytes, start, n, k, a.value);
      assert Kind(bytes, start, k) == PT_DYNAMIC;
    }
  }

  /** There is no dynamic segment to be had from two. */
  lemma TwoDynamics(bytes: seq<nat>, start: nat, n: nat, j: nat, k: nat)
    requires HeadersIn(bytes, start, n) && j < k < n && Kind(bytes, start, j) == Kind(bytes, start, k) == PT_DYNAMIC
    ensures forall dynamic :: !DynamicAmong(bytes, start, n, dynamic)
  {
    hide Kind, Segment;
  }

  /** The loop over the program headers: it accepts exactly the tables in which every header is acceptable. */
  method ReadSegments(bytes: seq<nat>, start: nat, count: nat) returns (segments: Option<Segments>)
    requires HeadersIn(bytes, start, count)
    ensures segments.Some? ==> SegmentsAre(bytes, start, count, segments.value)
    ensures segments.None? ==> forall other :: !SegmentsAre(bytes, start, count, other)
  {
    hide Word, PowerOfTwo;
    var loads: seq<Load>, dynamic: Option<Load> := [], None;
    for k := 0 to count
      invariant SegmentsAre(bytes, start, k, Segments(loads, dynamic))
    {
      var at := start + k * PROGRAM_HEADER_SIZE;
      var kind, offset, address := Word(bytes, at, 4), Word(bytes, at + 8, 8), Word(bytes, at + 16, 8);
      var fileSize, memorySize, alignment := Word(bytes, at + 32, 8), Word(bytes, at + 40, 8), Word(bytes, at + 48, 8);
      ghost var before := dynamic;
      var ok := fileSize == 0 || offset + fileSize <= |bytes|;
      ok := ok && (alignment <= 1 || PowerOfTwo(alignment));
      ok := ok && (alignment <= 1 || offset % alignment == address % alignment);
      if kind == PT_LOAD {
        ok := ok && fileSize <= memorySize;
        loads := loads + [Load(offset, address, fileSize)];
      } else if kind == PT_DYNAMIC {
        ok := ok && dynamic.None? && fileSize != 0 && fileSize <= memorySize;
        ok := ok && fileSize % DYNAMIC_ENTRY_SIZE == 0 && fileSize / DYNAMIC_ENTRY_SIZE <= MAX_DYNAMIC_ENTRIES;
        dynamic := Some(Load(offset, address, fileSize));
      }
      NextSegment(bytes, start, count, k, before, ok, dynamic);
      if !ok { return None; }
    }
    return Some(Segments(loads, dynamic));
  }

  /** One more header: the dynamic segment stays the only one, or no reading of the whole table exists. */
  lemma NextSegment(bytes: seq<nat>, start: nat, count: nat, k: nat, before: Option<Load>, ok: bool,
                    after: Option<Load>)
    requires HeadersIn(bytes, start, count) && k < count && HeadersIn(bytes, start, k)
    requires DynamicAmong(bytes, start, k, before)
    requires ok <==> SegmentOk(bytes, start, k) && (Kind(bytes, start, k) == PT_DYNAMIC ==> before.None?)
    requires after == if Kind(bytes, start, k) == PT_DYNAMIC then Some(Segment(bytes, start, k)) else before
    ensures ok ==> HeadersIn(bytes, start, k + 1) && DynamicAmong(bytes, start, k + 1, after)
    ensures !ok ==> forall other :: !SegmentsAre(bytes, start, count, other)
  {
    hide Kind, Segment, SegmentOk;
    if ok && after.Some? {
      var j: nat;
      if Kind(bytes, start, k) == PT_DYNAMIC {
        j := k;
      } else {
        j :| j < k && OnlyDynamic(bytes, start, k, j, before.value);
      }
      assert OnlyDynamic(bytes, start, k + 1, j, after.value);
    }
    if Kind(bytes, start, k) == PT_DYNAMIC && before.Some? {
      var j: nat :| j < k && OnlyDynamic(bytes, start, k, j, before.value);
      assert Kind(bytes, start, j) == PT_DYNAMIC;
      TwoDynamics(bytes, start, count, j, k);
    }
  }

  // ---------------------------------------------------------------- the dynamic table

  const DT_HASH: nat := 4
  const DT_STRTAB: nat := 5
  const DT_SYMTAB: nat := 6
  const DT_STRSZ: nat := 10
  const DT_SYMENT: nat := 11
  const DT_SONAME: nat := 14
  const DT_GNU_HASH: nat := 0x6fff_fef5

  /** Tags that may occur once, and tags whose values are string offsets. */
  predicate OccursOnce(tag: nat) {
    tag in {DT_HASH, DT_STRTAB, DT_SYMTAB, DT_STRSZ, DT_SYMENT, DT_SONAME, DT_GNU_HASH}
  }

  predicate NamesString(tag: nat) { tag in {1, 15, 29, 0x7fff_fffd, 0x7fff_ffff} }

  datatype Dynamic = Dynamic(unique: map<nat, nat>, strings: seq<nat>)

  predicate EntriesIn(bytes: seq<nat>, start: nat, n: nat) { start + n * DYNAMIC_ENTRY_SIZE <= |bytes| }

  function Tag(bytes: seq<nat>, start: nat, k: nat): nat
    requires EntriesIn(bytes, start, k + 1)
  {
    Word(bytes, start + k * DYNAMIC_ENTRY_SIZE, 8)
  }

  function Value(bytes: seq<nat>, start: nat, k: nat): nat
    requires EntriesIn(bytes, start, k + 1)
  {
    Word(bytes, start + k * DYNAMIC_ENTRY_SIZE + 8, 8)
  }

  /** The values of the string tags among the first n entries, in table order. */
  function StringValues(bytes: seq<nat>, start: nat, n: nat): seq<nat>
    requires EntriesIn(bytes, start, n)
  {
    if n == 0 then [] else
      StringValues(bytes, start, n - 1) + if NamesString(Tag(bytes, start, n - 1)) then [Value(bytes, start, n - 1)]
        else []
  }

  /** Entry e is the first DT_NULL, and from there on everything is zero. */
  predicate NullAt(bytes: seq<nat>, start: nat, n: nat, e: nat)
    requires EntriesIn(bytes, start, n)
  {
    && (forall k :: 0 <= k < e && k < n ==> Tag(bytes, start, k) != 0)
    && (forall k :: e <= k < n ==> Tag(bytes, start, k) == 0 && Value(bytes, start, k) == 0)
  }

  /** The first n entries read as a map of the tags that may occur once, and a list of string offsets. */
  ghost predicate Collected(bytes: seq<nat>, start: nat, n: nat, d: Dynamic)
    requires EntriesIn(bytes, start, n)
  {
    && (forall j, k :: 0 <= j < k < n && OccursOnce(Tag(bytes, start, j)) ==>
      Tag(bytes, start, j) != Tag(bytes, start, k))
    && (forall tag :: tag in d.unique ==> OccursOnce(tag) && Occurs(bytes, start, n, tag))
    && (forall k :: 0 <= k < n && OccursOnce(Tag(bytes, start, k)) ==>
      Gives(d, Tag(bytes, start, k), Value(bytes, start, k)))
    && d.strings == StringValues(bytes, start, n)
  }

  ghost predicate Occurs(bytes: seq<nat>, start: nat, n: nat, tag: nat)
    requires EntriesIn(bytes, start, n)
  {
    exists k :: 0 <= k < n && Tag(bytes, start, k) == tag
  }

  predicate Gives(d: Dynamic, tag: nat, value: nat) { tag in d.unique && d.unique[tag] == value }

  /** What the whole dynamic table says: its entries up to the first DT_NULL. */
  ghost predicate DynamicIs(bytes: seq<nat>, table: Range, d: Dynamic) {
    var n := (table.end - table.start) / DYNAMIC_ENTRY_SIZE;
    InFile(table, |bytes|) && EntriesIn(bytes, table.start, n) && exists e ::
      0 <= e < n && Terminated(bytes, table.start, n, e, d)
  }

  ghost predicate Terminated(bytes: seq<nat>, start: nat, n: nat, e: nat, d: Dynamic)
    requires EntriesIn(bytes, start, n)
  {
    e < n && NullAt(bytes, start, n, e) && Collected(bytes, start, e, d)
  }

  lemma DynamicIsUnique(bytes: seq<nat>, table: Range, d: Dynamic, d': Dynamic)
    requires DynamicIs(bytes, table, d) && DynamicIs(bytes, table, d')
    ensures d == d'
  {
    hide Tag, Value, Collected, NullAt;
    var n := (table.end - table.start) / DYNAMIC_ENTRY_SIZE;
    var e: nat :| e < n && Terminated(bytes, table.start, n, e, d);
    var e': nat :| e' < n && Terminated(bytes, table.start, n, e', d');
    NullIsUnique(bytes, table.start, n, e, e');
    SameUnique(bytes, table.start, e, d, d');
    SameUnique(bytes, table.start, e, d', d);
    assert d.unique == d'.unique;
  }

  lemma NullIsUnique(bytes: seq<nat>, start: nat, n: nat, e: nat, e': nat)
    requires EntriesIn(bytes, start, n) && e < n && e' < n && NullAt(bytes, start, n, e) && NullAt(bytes, start, n, e')
    ensures e == e'
  {
    hide Tag, Value, OccursOnce, NamesString;
    assert Tag(bytes, start, e) == 0 && Tag(bytes, start, e') == 0;
  }

  lemma SameUnique(bytes: seq<nat>, start: nat, n: nat, d: Dynamic, d': Dynamic)
    requires EntriesIn(bytes, start, n) && Collected(bytes, start, n, d) && Collected(bytes, start, n, d')
    ensures forall tag :: tag in d.unique ==> tag in d'.unique && d'.unique[tag] == d.unique[tag]
    ensures d.strings == d'.strings
  {
    hide Tag, Value, StringValues, OccursOnce, NamesString;
    forall tag | tag in d.unique ensures Gives(d', tag, d.unique[tag]) {
      assert Occurs(bytes, start, n, tag);
      var k :| 0 <= k < n && Tag(bytes, start, k) == tag;
      assert Gives(d, tag, Value(bytes, start, k)) && Gives(d', tag, Value(bytes, start, k));
    }
  }

  /** What one entry before the first DT_NULL adds. */
  function AddEntry(d: Dynamic, tag: nat, value: nat): Dynamic {
    if OccursOnce(tag) then d.(unique := d.unique[tag := value])
    else if NamesString(tag) then d.(strings := d.strings + [value])
    else d
  }

  /** The loop over the dynamic table: it accepts exactly the terminated tables without repeated tags. */
  method ReadDynamic(bytes: seq<nat>, table: Range) returns (dynamic: Option<Dynamic>)
    requires InFile(table, |bytes|)
    ensures dynamic.Some? ==> DynamicIs(bytes, table, dynamic.value)
    ensures dynamic.None? ==> forall other :: !DynamicIs(bytes, table, other)
  {
    hide Word, AddEntry, NullAt, Collected, OccursOnce, NamesString;
    var start, n := table.start, (table.end - table.start) / DYNAMIC_ENTRY_SIZE;
    var d, terminated := Dynamic(map[], []), false;
    ghost var e: nat := 0;
    NothingCollected(bytes, start);
    for k := 0 to n
      invariant if terminated then e < k else e == k
      invariant NullAt(bytes, start, k, e) && Collected(bytes, start, e, d)
    {
      var at := start + k * DYNAMIC_ENTRY_SIZE;
      var tag, value := Word(bytes, at, 8), Word(bytes, at + 8, 8);
      ghost var before, end := d, e;
      var ok;
      if terminated {
        ok := tag == 0 && value == 0;
      } else if tag == 0 {
        ok := value == 0;
        terminated := true;
      } else {
        ok := !(OccursOnce(tag) && tag in d.unique);
        d, e := AddEntry(d, tag, value), k + 1;
      }
      NextEntry(bytes, table, n, k, before, end, ok, d, e);
      if !ok { return None; }
    }
    if !terminated {
      NotTerminated(bytes, table, n);
      return None;
    }
    assert Terminated(bytes, start, n, e, d);
    return Some(d);
  }

  lemma NothingCollected(bytes: seq<nat>, start: nat)
    requires start <= |bytes|
    ensures NullAt(bytes, start, 0, 0) && Collected(bytes, start, 0, Dynamic(map[], []))
  {
  }

  /** Any reading of the table ends where the DT_NULL seen so far says, or later than what has been seen. */
  lemma EndOf(bytes: seq<nat>, table: Range, n: nat, k: nat, e: nat, d: Dynamic) returns (end: nat)
    requires n == (table.end - table.start) / DYNAMIC_ENTRY_SIZE && DynamicIs(bytes, table, d)
    requires e <= k <= n && NullAt(bytes, table.start, k, e)
    ensures end < n && Terminated(bytes, table.start, n, end, d) && if e < k then end == e else k <= end
  {
    hide Tag, Value, Collected;
    end :| end < n && Terminated(bytes, table.start, n, end, d);
    assert Tag(bytes, table.start, end) == 0;
    assert e < k ==> Tag(bytes, table.start, e) == 0;
  }

  /** One more entry of the table: it extends what is collected, or no reading of the whole table exists. */
  lemma NextEntry(bytes: seq<nat>, table: Range, n: nat, k: nat, d: Dynamic, e: nat, ok: bool, d': Dynamic, e': nat)
    requires InFile(table, |bytes|) && n == (table.end - table.start) / DYNAMIC_ENTRY_SIZE && k < n && e <= k
    requires NullAt(bytes, table.start, k, e) && Collected(bytes, table.start, e, d)
    requires var tag, value := Tag(bytes, table.start, k), Value(bytes, table.start, k);
      if e < k || tag == 0 then d' == d && e' == e && (ok <==> tag == 0 && value == 0)
      else d' == AddEntry(d, tag, value) && e' == k + 1 && (ok <==> !(OccursOnce(tag) && tag in d.unique))
    ensures ok ==> NullAt(bytes, table.start, k + 1, e') && Collected(bytes, table.start, e', d')
    ensures !ok ==> forall other :: !DynamicIs(bytes, table, other)
  {
    hide Tag, Value, OccursOnce, NamesString;
    if ok {
      if e' == k + 1 { EntryCollected(bytes, table.start, k, d); }
    } else {
      forall other ensures !DynamicIs(bytes, table, other) {
        if DynamicIs(bytes, table, other) {
          var end := EndOf(bytes, table, n, k, e, other);
          RepeatedTag(bytes, table.start, k, d, end, other);
        }
      }
    }
  }

  /** A tag that may occur once and did occur is not met again before the end. */
  lemma RepeatedTag(bytes: seq<nat>, start: nat, k: nat, d: Dynamic, end: nat, other: Dynamic)
    requires EntriesIn(bytes, start, k + 1) && EntriesIn(bytes, start, end)
    requires k < end && Collected(bytes, start, end, other) && Collected(bytes, start, k, d)
    ensures OccursOnce(Tag(bytes, start, k)) ==> Tag(bytes, start, k) !in d.unique
  {
    hide Tag, Value, StringValues, OccursOnce, NamesString;
  }

  lemma EntryCollected(bytes: seq<nat>, start: nat, k: nat, d: Dynamic)
    requires EntriesIn(bytes, start, k + 1) && Collected(bytes, start, k, d)
    requires OccursOnce(Tag(bytes, start, k)) ==> Tag(bytes, start, k) !in d.unique
    ensures Collected(bytes, start, k + 1, AddEntry(d, Tag(bytes, start, k), Value(bytes, start, k)))
  {
    hide Tag, Value, StringValues, AddEntry, OccursOnce, NamesString;
    EntryStrings(bytes, start, k, d);
    EntryIsNew(bytes, start, k, d);
    EntryGiven(bytes, start, k, d);
  }

  lemma EntryStrings(bytes: seq<nat>, start: nat, k: nat, d: Dynamic)
    requires EntriesIn(bytes, start, k + 1) && d.strings == StringValues(bytes, start, k)
    ensures AddEntry(d, Tag(bytes, start, k), Value(bytes, start, k)).strings == StringValues(bytes, start, k + 1)
  {
    OnceOrString(Tag(bytes, start, k));
    hide Tag, Value, OccursOnce, NamesString;
  }

  lemma EntryIsNew(bytes: seq<nat>, start: nat, k: nat, d: Dynamic)
    requires EntriesIn(bytes, start, k + 1) && Collected(bytes, start, k, d)
    requires OccursOnce(Tag(bytes, start, k)) ==> Tag(bytes, start, k) !in d.unique
    ensures forall i :: 0 <= i < k && OccursOnce(Tag(bytes, start, i)) ==> Tag(bytes, start, i) != Tag(bytes, start, k)
  {
    hide Tag, Value, StringValues, OccursOnce;
    forall i | 0 <= i < k && OccursOnce(Tag(bytes, start, i)) ensures Tag(bytes, start, i) != Tag(bytes, start, k) {
      assert Gives(d, Tag(bytes, start, i), Value(bytes, start, i));
    }
  }

  lemma EntryGiven(bytes: seq<nat>, start: nat, k: nat, d: Dynamic)
    requires EntriesIn(bytes, start, k + 1) && Collected(bytes, start, k, d)
    requires OccursOnce(Tag(bytes, start, k)) ==> Tag(bytes, start, k) !in d.unique
    ensures var next := AddEntry(d, Tag(bytes, start, k), Value(bytes, start, k));
      && (forall tag :: tag in next.unique ==> OccursOnce(tag) && Occurs(bytes, start, k + 1, tag))
      && (forall j :: 0 <= j < k + 1 && OccursOnce(Tag(bytes, start, j)) ==>
        Gives(next, Tag(bytes, start, j), Value(bytes, start, j)))
  {
    hide Tag, Value, StringValues, OccursOnce, NamesString;
    var next := AddEntry(d, Tag(bytes, start, k), Value(bytes, start, k));
    forall tag | tag in next.unique ensures OccursOnce(tag) && Occurs(bytes, start, k + 1, tag) {
      assert tag in d.unique ==> Occurs(bytes, start, k, tag);
    }
    hide Occurs;
    forall j | 0 <= j < k + 1 && OccursOnce(Tag(bytes, start, j))
      ensures Gives(next, Tag(bytes, start, j), Value(bytes, start, j)) {
      assert j < k ==> Gives(d, Tag(bytes, start, j), Value(bytes, start, j));
    }
  }

  lemma OnceOrString(tag: nat)
    ensures !(OccursOnce(tag) && NamesString(tag))
  {
  }

  lemma NotTerminated(bytes: seq<nat>, table: Range, n: nat)
    requires InFile(table, |bytes|) && n == (table.end - table.start) / DYNAMIC_ENTRY_SIZE
    requires NullAt(bytes, table.start, n, n)
    ensures forall other :: !DynamicIs(bytes, table, other)
  {
    hide *;
    forall other ensures !DynamicIs(bytes, table, other) {
      if DynamicIs(bytes, table, other) {
        var end := EndOf(bytes, table, n, n, n, other);
      }
    }
  }
}
