/**
 * `validate_elf64_shared_object` of native/deltafin-curl-sys-direct/build_support.rs (System V gABI,
 * chapter 4, "ELF Header", and chapter 5).  Where the source returns Ok, the model returns a record of
 * the tables it accepted, so that what acceptance guarantees can be stated.  Error texts are dropped.
 */
module ElfImage {
  import opened ElfTables
  import opened ElfDynamic
  import opened ElfLayout
  import opened Wrappers

  const SYMBOL_SIZE: nat := 24
  const MAX_FILE: nat := 128 * 1024 * 1024
  const MAX_STRINGS: nat := 32 * 1024 * 1024

  // ---------------------------------------------------------------- strings and symbols

  /** The string table holds this NUL-terminated string at an offset. */
  predicate StringAt(bytes: seq<nat>, table: Range, offset: nat, name: seq<nat>) {
    && table.end <= |bytes| && table.start + offset + |name| < table.end
    && bytes[table.start + offset..table.start + offset + |name|] == name && 0 !in name
    && bytes[table.start + offset + |name|] == 0
  }

  /** `nul_terminated_bytes`. */
  method ReadString(bytes: seq<nat>, table: Range, offset: nat) returns (name: Option<seq<nat>>)
    requires InFile(table, |bytes|)
    ensures name.Some? ==> StringAt(bytes, table, offset, name.value)
    ensures name.None? ==> forall s :: !StringAt(bytes, table, offset, s)
  {
    var from := table.start + offset;
    var to := from;
    while to < table.end && bytes[to] != 0
      invariant from <= to && (to <= table.end || to == from)
      invariant forall k :: from <= k < to ==> bytes[k] != 0
    {
      to := to + 1;
    }
    if to >= table.end {
      forall s ensures !StringAt(bytes, table, offset, s) {
        if from + |s| < table.end {
          assert bytes[from + |s|] != 0;
        }
      }
      return None;
    }
    return Some(bytes[from..to]);
  }

  /** A global or weak symbol with an acceptable type, defined in a section and visible. */
  predicate Exported(bytes: seq<nat>, at: nat)
    requires at + SYMBOL_SIZE <= |bytes|
  {
    && (bytes[at + 4] / 16 == 1 || bytes[at + 4] / 16 == 2)
    && (bytes[at + 4] % 16 == 0 || bytes[at + 4] % 16 == 2 || bytes[at + 4] % 16 == 10)
    && Word(bytes, at + 6, 2) != 0
    && (bytes[at + 5] % 4 == 0 || bytes[at + 5] % 4 == 3)
  }

  predicate SymbolsIn(bytes: seq<nat>, symbols: Range, count: nat) {
    InFile(symbols, |bytes|) && symbols.end == symbols.start + count * SYMBOL_SIZE
  }

  /** Symbol number `index` is exported under a name. */
  predicate Defines(bytes: seq<nat>, symbols: Range, count: nat, strings: Range, index: nat, name: seq<nat>)
    requires SymbolsIn(bytes, symbols, count) && index < count
  {
    && Exported(bytes, symbols.start + index * SYMBOL_SIZE)
    && StringAt(bytes, strings, Word(bytes, symbols.start + index * SYMBOL_SIZE, 4), name)
  }

  ghost predicate DefinedBelow(bytes: seq<nat>, symbols: Range, count: nat, strings: Range, n: nat, name: seq<nat>)
    requires SymbolsIn(bytes, symbols, count) && n <= count
  {
    exists index :: 0 <= index < n && Defines(bytes, symbols, count, strings, index, name)
  }

  /** Two strings at one offset are the same. */
  lemma StringIsUnique(bytes: seq<nat>, table: Range, offset: nat, a: seq<nat>, b: seq<nat>)
    requires StringAt(bytes, table, offset, a) && StringAt(bytes, table, offset, b)
    ensures a == b
  {
    var from := table.start + offset;
    StringNotShorter(bytes, table, offset, a, b);
    StringNotShorter(bytes, table, offset, b, a);
  }

  lemma StringNotShorter(bytes: seq<nat>, table: Range, offset: nat, a: seq<nat>, b: seq<nat>)
    requires StringAt(bytes, table, offset, a) && StringAt(bytes, table, offset, b)
    ensures |a| >= |b|
  {
  }

  /** The symbol loop: None when a name is not terminated, else which required names are exported. */
  method FindRequired(bytes: seq<nat>, symbols: Range, count: nat, strings: Range, required: seq<seq<nat>>)
    returns (found: Option<seq<bool>>)
    requires SymbolsIn(bytes, symbols, count) && InFile(strings, |bytes|)
    ensures found.Some? ==> |found.value| == |required|
    ensures found.Some? ==> forall k :: 0 <= k < |required| ==>
      (found.value[k] <==> DefinedBelow(bytes, symbols, count, strings, count, required[k]))
    ensures found.Some? <==> forall index :: 0 <= index < count ==> Named(bytes, symbols, count, strings, index)
  {
    hide Word, Exported, StringAt;
    var seen := seq(|required|, _ => false);
    for index := 0 to count
      invariant |seen| == |required|
      invariant forall k :: 0 <= k < |required| ==>
        (seen[k] <==> DefinedBelow(bytes, symbols, count, strings, index, required[k]))
      invariant forall i :: 0 <= i < index ==> Named(bytes, symbols, count, strings, i)
    {
      var at := symbols.start + index * SYMBOL_SIZE;
      var name := ReadString(bytes, strings, Word(bytes, at, 4));
      if name.None? {
        assert !Named(bytes, symbols, count, strings, index);
        return None;
      }
      assert HasString(bytes, strings, Word(bytes, at, 4));
      assert Named(bytes, symbols, count, strings, index);
      seen := MarkFound(bytes, symbols, count, strings, required, seen, index, name.value);
    }
    return Some(seen);
  }

  ghost predicate HasString(bytes: seq<nat>, strings: Range, offset: nat) {
    exists name :: StringAt(bytes, strings, offset, name)
  }

  ghost predicate Named(bytes: seq<nat>, symbols: Range, count: nat, strings: Range, index: nat)
    requires SymbolsIn(bytes, symbols, count) && index < count
  {
    HasString(bytes, strings, Word(bytes, symbols.start + index * SYMBOL_SIZE, 4))
  }

  /** One symbol: tick off the required names it exports. */
  method MarkFound(bytes: seq<nat>, symbols: Range, count: nat, strings: Range, required: seq<seq<nat>>,
                   seen: seq<bool>, index: nat, name: seq<nat>)
    returns (after: seq<bool>)
    requires SymbolsIn(bytes, symbols, count) && index < count && |seen| == |required|
    requires StringAt(bytes, strings, Word(bytes, symbols.start + index * SYMBOL_SIZE, 4), name)
    requires forall k :: 0 <= k < |required| ==>
      (seen[k] <==> DefinedBelow(bytes, symbols, count, strings, index, required[k]))
    ensures |after| == |required|
    ensures forall k :: 0 <= k < |required| ==>
      (after[k] <==> DefinedBelow(bytes, symbols, count, strings, index + 1, required[k]))
  {
    hide Word, Exported, StringAt;
    after := seen;
    var exported := Exported(bytes, symbols.start + index * SYMBOL_SIZE);
    for k := 0 to |required|
      invariant |after| == |required|
      invariant forall j :: 0 <= j < k ==>
        (after[j] <==> DefinedBelow(bytes, symbols, count, strings, index + 1, required[j]))
      invariant forall j :: k <= j < |required| ==> after[j] == seen[j]
    {
      if exported && name == required[k] { after := after[k := true]; }
      OneMoreSymbol(bytes, symbols, count, strings, index, name, required[k]);
    }
  }

  lemma OneMoreSymbol(bytes: seq<nat>, symbols: Range, count: nat, strings: Range, index: nat, name: seq<nat>,
                      wanted: seq<nat>)
    requires SymbolsIn(bytes, symbols, count) && index < count
    requires StringAt(bytes, strings, Word(bytes, symbols.start + index * SYMBOL_SIZE, 4), name)
    ensures DefinedBelow(bytes, symbols, count, strings, index + 1, wanted) <==>
      DefinedBelow(bytes, symbols, count, strings, index, wanted)
        || (Exported(bytes, symbols.start + index * SYMBOL_SIZE) && name == wanted)
  {
    var offset := Word(bytes, symbols.start + index * SYMBOL_SIZE, 4);
    if StringAt(bytes, strings, offset, wanted) {
      StringIsUnique(bytes, strings, offset, name, wanted);
    }
    hide Word, Exported, StringAt;
    assert Defines(bytes, symbols, count, strings, index, wanted) <==>
           Exported(bytes, symbols.start + index * SYMBOL_SIZE) && StringAt(bytes, strings, offset, wanted);
  }

  // ---------------------------------------------------------------- the whole image

  /** The tables of an accepted file; `ranges` holds all of them and the headers. */
  datatype Image = Image(ranges: seq<Range>, loads: seq<Load>, segment: Load, dynamic: Dynamic, strings: Range,
                         symbols: Range,
                         count: nat, sysv: Option<(nat, Range)>, gnu: Option<(nat, Range)>)

  /** The string table is mapped, begins with the empty string, and holds the object's name and all named strings. */
  ghost predicate StringsOk(bytes: seq<nat>, loads: seq<Load>, d: Dynamic, soname: seq<nat>, strings: Range) {
    && DT_STRTAB in d.unique && DT_STRSZ in d.unique && 1 <= d.unique[DT_STRSZ] <= MAX_STRINGS
    && Maps(loads, d.unique[DT_STRTAB], d.unique[DT_STRSZ], |bytes|, strings)
    && strings.start < |bytes| && bytes[strings.start] == 0
    && DT_SONAME in d.unique && StringAt(bytes, strings, d.unique[DT_SONAME], soname)
    && forall k :: 0 <= k < |d.strings| ==> HasString(bytes, strings, d.strings[k])
  }

  ghost predicate SysvFound(bytes: seq<nat>, loads: seq<Load>, d: Dynamic, sysv: Option<(nat, Range)>) {
    match sysv
    case None => DT_HASH !in d.unique
    case Some(t) => DT_HASH in d.unique && SysvTable(bytes, loads, d.unique[DT_HASH], t.0, t.1)
  }

  ghost predicate GnuFound(bytes: seq<nat>, loads: seq<Load>, d: Dynamic, gnu: Option<(nat, Range)>) {
    match gnu
    case None => DT_GNU_HASH !in d.unique
    case Some(t) => DT_GNU_HASH in d.unique && GnuTable(bytes, loads, d.unique[DT_GNU_HASH], t.0, t.1)
  }

  /** The hash tables bound the symbol table: DT_HASH decides when it is there, and holds all of DT_GNU_HASH. */
  predicate CountAgrees(sysv: Option<(nat, Range)>, gnu: Option<(nat, Range)>, count: nat) {
    match (sysv, gnu)
    case (Some(s), Some(g)) => count == s.0 && g.0 <= s.0
    case (Some(s), None) => count == s.0
    case (None, Some(g)) => count == g.0
    case (None, None) => false
  }

  /** The symbol table is mapped, every symbol in it has a name, and every required name is exported. */
  ghost predicate SymbolsOk(bytes: seq<nat>, loads: seq<Load>, d: Dynamic, strings: Range, required: seq<seq<nat>>,
                            count: nat, symbols: Range) {
    && DT_SYMENT in d.unique && d.unique[DT_SYMENT] == SYMBOL_SIZE && DT_SYMTAB in d.unique
    && Maps(loads, d.unique[DT_SYMTAB], count * SYMBOL_SIZE, |bytes|, symbols) && SymbolsIn(bytes, symbols, count)
    && (forall index :: 0 <= index < count ==> Named(bytes, symbols, count, strings, index))
    && (forall k :: 0 <= k < |required| ==> DefinedBelow(bytes, symbols, count, strings, count, required[k]))
  }

  function Listed(table: Option<(nat, Range)>): seq<Range> { if table.Some? then [table.value.1] else [] }

  function Place(segment: Load): Range { Range(segment.fileOffset, segment.fileOffset + segment.fileSize) }

  /** The tables reached from the dynamic segment are acceptable, and disjoint with each other and the headers. */
  ghost predicate Linked(bytes: seq<nat>, head: seq<Range>, loads: seq<Load>, segment: Load, soname: seq<nat>,
                         required: seq<seq<nat>>, image: Image) {
    && image.loads == loads && image.segment == segment
    && Maps(loads, segment.address, segment.fileSize, |bytes|, Place(segment))
    && DynamicIs(bytes, Place(segment), image.dynamic)
    && StringsOk(bytes, loads, image.dynamic, soname, image.strings)
    && SysvFound(bytes, loads, image.dynamic, image.sysv) && GnuFound(bytes, loads, image.dynamic, image.gnu)
    && CountAgrees(image.sysv, image.gnu, image.count)
    && SymbolsOk(bytes, loads, image.dynamic, image.strings, required, image.count, image.symbols)
    && image.ranges == head + [Place(segment), image.strings] + Listed(image.sysv) + Listed(image.gnu) + [image.symbols]
    && PairwiseDisjoint(image.ranges)
  }

  /** The file is an acceptable shared object for this machine, and these are its tables. */
  ghost predicate Accepted(bytes: seq<nat>, machine: nat, soname: seq<nat>, required: seq<seq<nat>>, image: Image) {
    var header := ParseHeader(bytes, machine);
    && |bytes| <= MAX_FILE && header.Some? && HeaderRanges(header.value, |bytes|).Some?
    && HeadersIn(bytes, header.value.programOffset, header.value.programCount)
    && SegmentsAre(bytes, header.value.programOffset, header.value.programCount,
                   Segments(image.loads, Some(image.segment)))
    && image.loads != []
    && Linked(bytes, HeaderRanges(header.value, |bytes|).value, image.loads, image.segment, soname, required, image)
  }

  /** The string table with the shared-object name and all referenced strings. */
  method ReadStrings(bytes: seq<nat>, loads: seq<Load>, d: Dynamic, soname: seq<nat>) returns (strings: Option<Range>)
    ensures strings.Some? ==> StringsOk(bytes, loads, d, soname, strings.value) && InFile(strings.value, |bytes|)
    ensures strings.None? ==> forall other :: !StringsOk(bytes, loads, d, soname, other)
  {
    hide Maps, StringAt;
    if DT_STRTAB !in d.unique || DT_STRSZ !in d.unique { return None; }
    var size := d.unique[DT_STRSZ];
    if size == 0 || size > MAX_STRINGS { return None; }
    strings := MapVirtualRange(loads, d.unique[DT_STRTAB], size, |bytes|);
    if strings.None? { return; }
    var table := strings.value;
    forall other | StringsOk(bytes, loads, d, soname, other) ensures other == table {
      MappingIsUnique(loads, d.unique[DT_STRTAB], size, |bytes|, table, other);
    }
    if bytes[table.start] != 0 || DT_SONAME !in d.unique { return None; }
    var name := ReadString(bytes, table, d.unique[DT_SONAME]);
    if name != Some(soname) {
      if name.Some? { OnlyString(bytes, table, d.unique[DT_SONAME], name.value, soname); }
      return None;
    }
    for k := 0 to |d.strings|
      invariant forall j :: 0 <= j < k ==> HasString(bytes, table, d.strings[j])
    {
      var text := ReadString(bytes, table, d.strings[k]);
      if text.None? { return None; }
    }
  }

  lemma OnlyString(bytes: seq<nat>, table: Range, offset: nat, name: seq<nat>, other: seq<nat>)
    requires StringAt(bytes, table, offset, name) && other != name
    ensures !StringAt(bytes, table, offset, other)
  {
    if StringAt(bytes, table, offset, other) {
      StringIsUnique(bytes, table, offset, name, other);
    }
  }

  /** Either hash table, and the symbol count they agree on. */
  method ReadHashes(bytes: seq<nat>, loads: seq<Load>, d: Dynamic)
    returns (count: Option<nat>, sysv: Option<(nat, Range)>, gnu: Option<(nat, Range)>)
    ensures count.Some? ==>
      SysvFound(bytes, loads, d, sysv) && GnuFound(bytes, loads, d, gnu) && CountAgrees(sysv, gnu, count.value)
    ensures count.None? ==>
      forall s, g, n :: !(SysvFound(bytes, loads, d, s) && GnuFound(bytes, loads, d, g) && CountAgrees(s, g, n))
  {
    hide SysvTable, GnuTable;
    count, sysv, gnu := None, None, None;
    if DT_HASH in d.unique {
      sysv := ParseSysvHash(bytes, loads, d.unique[DT_HASH]);
      if sysv.None? { return; }
    }
    if DT_GNU_HASH in d.unique {
      gnu := ParseGnuHash(bytes, loads, d.unique[DT_GNU_HASH]);
      if gnu.None? { return; }
    }
    HashesAreUnique(bytes, loads, d, sysv, gnu);
    if sysv.Some? && gnu.Some? && gnu.value.0 > sysv.value.0 { return; }
    if sysv.None? && gnu.None? { return; }
    count := Some(if sysv.Some? then sysv.value.0 else gnu.value.0);
  }

  lemma HashesAreUnique(bytes: seq<nat>, loads: seq<Load>, d: Dynamic, sysv: Option<(nat, Range)>,
                        gnu: Option<(nat, Range)>)
    requires SysvFound(bytes, loads, d, sysv) && GnuFound(bytes, loads, d, gnu)
    ensures forall s :: SysvFound(bytes, loads, d, s) ==> s == sysv
    ensures forall g :: GnuFound(bytes, loads, d, g) ==> g == gnu
  {
    hide SysvTable, GnuTable;
    forall s | SysvFound(bytes, loads, d, s) ensures s == sysv {
      if s.Some? { SysvIsUnique(bytes, loads, d.unique[DT_HASH], s.value.0, s.value.1, sysv.value.0, sysv.value.1); }
    }
    forall g | GnuFound(bytes, loads, d, g) ensures g == gnu {
      if g.Some? { GnuIsUnique(bytes, loads, d.unique[DT_GNU_HASH], g.value.0, g.value.1, gnu.value.0, gnu.value.1); }
    }
  }

  /** The symbol table the hash tables bound, with every required name. */
  method ReadSymbols(bytes: seq<nat>, loads: seq<Load>, d: Dynamic, strings: Range, required: seq<seq<nat>>, count: nat)
    returns (symbols: Option<Range>)
    requires InFile(strings, |bytes|)
    ensures symbols.Some? ==> SymbolsOk(bytes, loads, d, strings, required, count, symbols.value)
    ensures symbols.None? ==> forall other :: !SymbolsOk(bytes, loads, d, strings, required, count, other)
  {
    hide Maps, Named, DefinedBelow;
    if DT_SYMENT !in d.unique || d.unique[DT_SYMENT] != SYMBOL_SIZE || DT_SYMTAB !in d.unique { return None; }
    symbols := MapVirtualRange(loads, d.unique[DT_SYMTAB], count * SYMBOL_SIZE, |bytes|);
    if symbols.None? { return; }
    var table := symbols.value;
    forall other | SymbolsOk(bytes, loads, d, strings, required, count, other) ensures other == table {
      MappingIsUnique(loads, d.unique[DT_SYMTAB], count * SYMBOL_SIZE, |bytes|, table, other);
    }
    var found := FindRequired(bytes, table, count, strings, required);
    if found.None? { return None; }
    for k := 0 to |required|
      invariant forall j :: 0 <= j < k ==> found.value[j]
    {
      if !found.value[k] { return None; }
    }
  }

  /** Everything that is reached from the dynamic segment. */
  method ReadLinked(bytes: seq<nat>, head: seq<Range>, loads: seq<Load>, segment: Load, soname: seq<nat>,
                    required: seq<seq<nat>>)
    returns (image: Option<Image>)
    ensures image.Some? ==> Linked(bytes, head, loads, segment, soname, required, image.value)
    ensures image.None? ==> forall other :: !Linked(bytes, head, loads, segment, soname, required, other)
  {
    hide Maps, DynamicIs, StringsOk, SysvFound, GnuFound, CountAgrees, SymbolsOk, PairwiseDisjoint;
    var place := Place(segment);
    var mapped := MapVirtualRange(loads, segment.address, segment.fileSize, |bytes|);
    if mapped != Some(place) {
      if mapped.Some? { OnlyMapping(loads, segment.address, segment.fileSize, |bytes|, mapped.value, place); }
      return None;
    }
    var apart := RejectOverlapping(head + [place]);
    if !apart {
      NotDisjoint(head + [place]);
      forall other
        ensures Linked(bytes, head, loads, segment, soname, required, other) ==> !PairwiseDisjoint(other.ranges) {
        var more := [other.strings] + Listed(other.sysv) + Listed(other.gnu) + [other.symbols];
        assert head + [place] + more == head + [place, other.strings] + Listed(other.sysv) + Listed(other.gnu)
          + [other.symbols];
      }
      return None;
    }
    var dynamic := ReadDynamic(bytes, place);
    if dynamic.None? { return None; }
    var d := dynamic.value;
    forall other | Linked(bytes, head, loads, segment, soname, required, other) ensures other.dynamic == d {
      DynamicIsUnique(bytes, place, other.dynamic, d);
    }
    var strings := ReadStrings(bytes, loads, d, soname);
    if strings.None? { return None; }
    forall other | Linked(bytes, head, loads, segment, soname, required, other) ensures other.strings == strings.value {
      StringsAreUnique(bytes, loads, d, soname, other.strings, strings.value);
    }
    var count, sysv, gnu := ReadHashes(bytes, loads, d);
    if count.None? { return None; }
    HashesAreUnique(bytes, loads, d, sysv, gnu);
    forall other | Linked(bytes, head, loads, segment, soname, required, other) ensures other.count == count.value {
      CountIsUnique(sysv, gnu, other.count, count.value);
    }
    var symbols := ReadSymbols(bytes, loads, d, strings.value, required, count.value);
    if symbols.None? { return None; }
    forall other | Linked(bytes, head, loads, segment, soname, required, other) ensures other.symbols == symbols.value {
      SymbolsAreUnique(bytes, loads, d, strings.value, required, count.value, other.symbols, symbols.value);
    }
    var ranges := head + [place, strings.value] + Listed(sysv) + Listed(gnu) + [symbols.value];
    apart := RejectOverlapping(ranges);
    if !apart { return None; }
    image := Some(Image(ranges, loads, segment, d, strings.value, symbols.value, count.value, sysv, gnu));
  }

  lemma OnlyMapping(loads: seq<Load>, address: nat, size: nat, length: nat, r: Range, other: Range)
    requires Maps(loads, address, size, length, r) && other != r
    ensures !Maps(loads, address, size, length, other)
  {
    if Maps(loads, address, size, length, other) {
      MappingIsUnique(loads, address, size, length, r, other);
    }
  }

  /** Overlapping ranges overlap in every longer list. */
  lemma NotDisjoint(ranges: seq<Range>)
    requires !PairwiseDisjoint(ranges)
    ensures forall more :: !PairwiseDisjoint(ranges + more)
  {
    forall more ensures !PairwiseDisjoint(ranges + more) {
      var i, j :| 0 <= i < j < |ranges| && !Disjoint(ranges[i], ranges[j]);
      assert !Disjoint((ranges + more)[i], (ranges + more)[j]);
    }
  }

  lemma StringsAreUnique(bytes: seq<nat>, loads: seq<Load>, d: Dynamic, soname: seq<nat>, a: Range, b: Range)
    requires StringsOk(bytes, loads, d, soname, a) && StringsOk(bytes, loads, d, soname, b)
    ensures a == b
  {
    hide Maps, StringAt;
    MappingIsUnique(loads, d.unique[DT_STRTAB], d.unique[DT_STRSZ], |bytes|, a, b);
  }

  lemma CountIsUnique(sysv: Option<(nat, Range)>, gnu: Option<(nat, Range)>, a: nat, b: nat)
    requires CountAgrees(sysv, gnu, a) && CountAgrees(sysv, gnu, b)
    ensures a == b
  {
  }

  lemma SymbolsAreUnique(bytes: seq<nat>, loads: seq<Load>, d: Dynamic, strings: Range, required: seq<seq<nat>>,
                         count: nat, a: Range, b: Range)
    requires SymbolsOk(bytes, loads, d, strings, required, count, a)
    requires SymbolsOk(bytes, loads, d, strings, required, count, b)
    ensures a == b
  {
    hide Maps, Named, DefinedBelow;
    MappingIsUnique(loads, d.unique[DT_SYMTAB], count * SYMBOL_SIZE, |bytes|, a, b);
  }

  // ---------------------------------------------------------------- the bytes of an accepted file

  /** The tables of the image, read off the bytes without the validator's own reads. */
  ghost predicate Laid(bytes: seq<nat>, machine: nat, soname: seq<nat>, required: seq<seq<nat>>, image: Image) {
    && |bytes| <= 134_217_728 && HeaderLaid(bytes, machine, image.ranges)
    && (Octets(bytes) ==> HeaderOctets(bytes, machine))
    && ProgramsLaid(bytes, image.loads, image.segment)
    && EntriesOf(bytes, image.segment, image.dynamic.unique, image.dynamic.strings)
    && NamesLaid(bytes, image.loads, image.dynamic, soname, image.strings)
    && HashesLaid(bytes, image.loads, image.dynamic.unique, image.sysv, image.gnu, image.count)
    && SymbolsLaid(bytes, image.loads, image.dynamic.unique, required, image.strings, image.symbols, image.count)
  }

  /** The string table begins with the empty string and holds the object's name. */
  ghost predicate NamesLaid(bytes: seq<nat>, loads: seq<Load>, d: Dynamic, soname: seq<nat>, strings: Range) {
    var unique := d.unique;
    && 5 in unique && 10 in unique && 14 in unique && unique[10] <= 33_554_432
    && TableAt(loads, unique[5], unique[10], strings)
    && strings.start < strings.end <= |bytes| && bytes[strings.start] == 0
    && TextAt(bytes, strings.start + unique[14], soname) && unique[14] + |soname| < unique[10]
    && forall v :: v in d.strings ==> HoldsText(bytes, strings, v)
  }

  ghost predicate HoldsText(bytes: seq<nat>, strings: Range, offset: nat) {
    exists text :: TextAt(bytes, strings.start + offset, text) && strings.start + offset + |text| < strings.end
  }

  /** Each hash table lies where its tag says, and they bound the symbol table. */
  ghost predicate HashesLaid(bytes: seq<nat>, loads: seq<Load>, unique: map<nat, nat>, sysv: Option<(nat, Range)>,
                             gnu: Option<(nat, Range)>, count: nat) {
    && (4 in unique <==> sysv.Some?) && (0x6fff_fef5 in unique <==> gnu.Some?) && (sysv.Some? || gnu.Some?)
    && (sysv.Some? ==>
          var table := sysv.value.1;
          && SysvLaid(bytes, sysv.value.0, table) && TableAt(loads, unique[4], table.end - table.start, table)
          && count == sysv.value.0)
    && (gnu.Some? ==>
          var table := gnu.value.1;
          && GnuLaid(bytes, gnu.value.0, table)
          && TableAt(loads, unique[0x6fff_fef5], 16, Range(table.start, table.start + 16))
          && gnu.value.0 <= count && (sysv.None? ==> count == gnu.value.0))
  }

  /** Every required name is exported by a symbol of the table. */
  ghost predicate SymbolsLaid(bytes: seq<nat>, loads: seq<Load>, unique: map<nat, nat>, required: seq<seq<nat>>,
                              strings: Range, symbols: Range, count: nat) {
    && 6 in unique && 11 in unique && unique[11] == 24 && TableAt(loads, unique[6], 24 * count, symbols)
    && forall k :: 0 <= k < |required| ==> ExportedAs(bytes, symbols.start, count, strings, required[k])
  }

  ghost predicate ExportedAs(bytes: seq<nat>, table: nat, count: nat, strings: Range, name: seq<nat>) {
    exists index :: 0 <= index < count && SymbolAt(bytes, table, index, strings, name)
  }

  lemma StringIsText(bytes: seq<nat>, strings: Range, offset: nat)
    requires HasString(bytes, strings, offset)
    ensures HoldsText(bytes, strings, offset)
  {
    var name :| StringAt(bytes, strings, offset, name);
    assert TextAt(bytes, strings.start + offset, name);
  }

  lemma NamesAreLaid(bytes: seq<nat>, loads: seq<Load>, d: Dynamic, soname: seq<nat>, strings: Range)
    requires StringsOk(bytes, loads, d, soname, strings)
    ensures NamesLaid(bytes, loads, d, soname, strings)
  {
    hide Maps, TableAt, HasString, HoldsText;
    forall v | v in d.strings ensures HoldsText(bytes, strings, v) {
      StringIsText(bytes, strings, v);
    }
    MappedLies(loads, d.unique[DT_STRTAB], d.unique[DT_STRSZ], |bytes|, strings);
    MappingFits(loads, d.unique[DT_STRTAB], d.unique[DT_STRSZ], |bytes|, strings);
  }

  /** A symbol is exported under a name exactly when its bytes say so. */
  lemma SymbolIs(bytes: seq<nat>, symbols: Range, count: nat, strings: Range, index: nat, name: seq<nat>)
    requires SymbolsIn(bytes, symbols, count) && index < count
    ensures Defines(bytes, symbols, count, strings, index, name) <==>
      SymbolAt(bytes, symbols.start, index, strings, name) && strings.end <= |bytes|
  {
    hide Word, U16, U32;
    var at := symbols.start + index * SYMBOL_SIZE;
    WordIsU32(bytes, at); WordIsU16(bytes, at + 6);
  }

  lemma SymbolsAreLaid(bytes: seq<nat>, loads: seq<Load>, d: Dynamic, strings: Range, required: seq<seq<nat>>,
                       count: nat, symbols: Range)
    requires SymbolsOk(bytes, loads, d, strings, required, count, symbols)
    ensures SymbolsLaid(bytes, loads, d.unique, required, strings, symbols, count)
  {
    hide Maps, TableAt, Named, Defines, SymbolAt;
    MappedLies(loads, d.unique[DT_SYMTAB], count * SYMBOL_SIZE, |bytes|, symbols);
    forall k | 0 <= k < |required| ensures ExportedAs(bytes, symbols.start, count, strings, required[k]) {
      assert DefinedBelow(bytes, symbols, count, strings, count, required[k]);
      var index :| 0 <= index < count && Defines(bytes, symbols, count, strings, index, required[k]);
      SymbolIs(bytes, symbols, count, strings, index, required[k]);
    }
  }

  lemma HashesAreLaid(bytes: seq<nat>, loads: seq<Load>, d: Dynamic, sysv: Option<(nat, Range)>,
                      gnu: Option<(nat, Range)>, count: nat)
    requires SysvFound(bytes, loads, d, sysv) && GnuFound(bytes, loads, d, gnu) && CountAgrees(sysv, gnu, count)
    ensures HashesLaid(bytes, loads, d.unique, sysv, gnu, count)
  {
    hide SysvTable, GnuTable, SysvLaid, GnuLaid, TableAt;
    if sysv.Some? { SysvIsLaid(bytes, loads, d.unique[DT_HASH], sysv.value.0, sysv.value.1); }
    if gnu.Some? { GnuIsLaid(bytes, loads, d.unique[DT_GNU_HASH], gnu.value.0, gnu.value.1); }
  }

  lemma LinkedIsLaid(bytes: seq<nat>, head: seq<Range>, loads: seq<Load>, segment: Load, soname: seq<nat>,
                     required: seq<seq<nat>>, image: Image)
    requires Linked(bytes, head, loads, segment, soname, required, image)
    ensures EntriesOf(bytes, segment, image.dynamic.unique, image.dynamic.strings)
    ensures NamesLaid(bytes, loads, image.dynamic, soname, image.strings)
    ensures HashesLaid(bytes, loads, image.dynamic.unique, image.sysv, image.gnu, image.count)
    ensures SymbolsLaid(bytes, loads, image.dynamic.unique, required, image.strings, image.symbols, image.count)
    ensures head <= image.ranges
  {
    hide Maps, DynamicIs, StringsOk, SysvFound, GnuFound, CountAgrees, SymbolsOk, PairwiseDisjoint;
    hide EntriesOf, NamesLaid, HashesLaid, SymbolsLaid;
    EntriesAreLaid(bytes, segment, image.dynamic);
    NamesAreLaid(bytes, loads, image.dynamic, soname, image.strings);
    HashesAreLaid(bytes, loads, image.dynamic, image.sysv, image.gnu, image.count);
    SymbolsAreLaid(bytes, loads, image.dynamic, image.strings, required, image.count, image.symbols);
  }

  /** An accepted file is laid out as its image says. */
  lemma AcceptedIsLaid(bytes: seq<nat>, machine: nat, soname: seq<nat>, required: seq<seq<nat>>, image: Image)
    requires Accepted(bytes, machine, soname, required, image)
    ensures Laid(bytes, machine, soname, required, image)
  {
    hide *;
    var head := HeadOf(bytes, machine, soname, required, image);
    LinkedIsLaid(bytes, head, image.loads, image.segment, soname, required, image);
    HeaderIsLaid(bytes, machine, image.ranges, head);
    LaidLength(bytes, machine, image.ranges);
    AcceptedSegments(bytes, machine, soname, required, image);
    ProgramsAreLaid(bytes, image.loads, image.segment);
    if Octets(bytes) { OctetsOfHeader(bytes, machine, image.ranges); }
    AllLaid(bytes, machine, soname, required, image);
  }

  lemma LaidLength(bytes: seq<nat>, machine: nat, ranges: seq<Range>)
    requires HeaderLaid(bytes, machine, ranges)
    ensures |bytes| >= 64
  {
  }

  lemma HeadOf(bytes: seq<nat>, machine: nat, soname: seq<nat>, required: seq<seq<nat>>, image: Image)
    returns (head: seq<Range>)
    requires Accepted(bytes, machine, soname, required, image)
    ensures ParseHeader(bytes, machine).Some? && |bytes| <= 134_217_728
    ensures HeaderRanges(ParseHeader(bytes, machine).value, |bytes|) == Some(head)
    ensures Linked(bytes, head, image.loads, image.segment, soname, required, image)
  {
    hide ParseHeader, HeaderRanges, SegmentsAre, Linked;
    head := HeaderRanges(ParseHeader(bytes, machine).value, |bytes|).value;
  }

  lemma AcceptedSegments(bytes: seq<nat>, machine: nat, soname: seq<nat>, required: seq<seq<nat>>, image: Image)
    requires Accepted(bytes, machine, soname, required, image) && ParseHeader(bytes, machine).Some?
    requires 64 <= |bytes| && ParseHeader(bytes, machine).value.programOffset == U64(bytes, 32)
    requires ParseHeader(bytes, machine).value.programCount == U16(bytes, 56)
    ensures HeadersIn(bytes, U64(bytes, 32), U16(bytes, 56))
    ensures SegmentsAre(bytes, U64(bytes, 32), U16(bytes, 56), Segments(image.loads, Some(image.segment)))
  {
    hide ParseHeader, HeaderRanges, SegmentsAre, Linked, U16, U64;
  }

  lemma AllLaid(bytes: seq<nat>, machine: nat, soname: seq<nat>, required: seq<seq<nat>>, image: Image)
    requires 64 <= |bytes| <= 134_217_728 && HeaderLaid(bytes, machine, image.ranges)
    requires Octets(bytes) ==> HeaderOctets(bytes, machine)
    requires ProgramsLaid(bytes, image.loads, image.segment)
    requires EntriesOf(bytes, image.segment, image.dynamic.unique, image.dynamic.strings)
    requires NamesLaid(bytes, image.loads, image.dynamic, soname, image.strings)
    requires HashesLaid(bytes, image.loads, image.dynamic.unique, image.sysv, image.gnu, image.count)
    requires SymbolsLaid(bytes, image.loads, image.dynamic.unique, required, image.strings, image.symbols, image.count)
    ensures Laid(bytes, machine, soname, required, image)
  {
    hide HeaderLaid, HeaderOctets, ProgramsLaid, EntriesOf, NamesLaid, HashesLaid, SymbolsLaid, Octets;
  }

  /**
   * The whole validation.  It accepts exactly the files that are acceptable, and where the source
   * returns Ok the model returns the tables that make them so.
   */
  method Validate(bytes: seq<nat>, machine: nat, soname: seq<nat>, required: seq<seq<nat>>)
    returns (image: Option<Image>)
    ensures image.Some? ==> Accepted(bytes, machine, soname, required, image.value)
    ensures image.None? ==> forall other :: !Accepted(bytes, machine, soname, required, other)
    ensures image.Some? ==> Laid(bytes, machine, soname, required, image.value)
  {
    hide Laid, Linked, SegmentsAre, ParseHeader, PairwiseDisjoint;
    if |bytes| > MAX_FILE { return None; }
    var header := ParseHeader(bytes, machine);
    if header.None? { return None; }
    var h := header.value;
    var head := HeaderRanges(h, |bytes|);
    if head.None? { return None; }
    var apart := RejectOverlapping(head.value);
    if !apart {
      HeadNotDisjoint(bytes, head.value, soname, required);
      return None;
    }
    var segments := ReadSegments(bytes, h.programOffset, h.programCount);
    if segments.None? { return None; }
    forall other | Accepted(bytes, machine, soname, required, other)
      ensures Segments(other.loads, Some(other.segment)) == segments.value
    {
      SegmentsAreUnique(bytes, h.programOffset, h.programCount, segments.value,
                        Segments(other.loads, Some(other.segment)));
    }
    if segments.value.loads == [] || segments.value.dynamic.None? { return None; }
    image := ReadLinked(bytes, head.value, segments.value.loads, segments.value.dynamic.value, soname, required);
    LinkedParts(bytes, head.value, segments.value.loads, segments.value.dynamic.value, soname, required, image);
    if image.Some? { AcceptedIsLaid(bytes, machine, soname, required, image.value); }
  }

  lemma LinkedParts(bytes: seq<nat>, head: seq<Range>, loads: seq<Load>, segment: Load, soname: seq<nat>,
                    required: seq<seq<nat>>, image: Option<Image>)
    requires image.Some? ==> Linked(bytes, head, loads, segment, soname, required, image.value)
    ensures image.Some? ==> image.value.loads == loads && image.value.segment == segment
  {
  }

  lemma HeadNotDisjoint(bytes: seq<nat>, head: seq<Range>, soname: seq<nat>, required: seq<seq<nat>>)
    requires !PairwiseDisjoint(head)
    ensures forall loads, segment, image :: !Linked(bytes, head, loads, segment, soname, required, image)
  {
    hide PairwiseDisjoint, Maps, DynamicIs, StringsOk, SysvFound, GnuFound, CountAgrees, SymbolsOk;
    NotDisjoint(head);
    forall loads, segment, image ensures !Linked(bytes, head, loads, segment, soname, required, image) {
      var more := [Place(segment), image.strings] + Listed(image.sysv) + Listed(image.gnu) + [image.symbols];
      assert head + more == head + [Place(segment), image.strings] + Listed(image.sysv) + Listed(image.gnu)
        + [image.symbols];
    }
  }

  // ---------------------------------------------------------------- what acceptance means

  /** The order of the PT_LOAD segments does not matter to anything reached through them. */
  lemma LoadOrderDoesNotMatter(bytes: seq<nat>, head: seq<Range>, loads: seq<Load>, loads': seq<Load>, segment: Load,
                               soname: seq<nat>,
                               required: seq<seq<nat>>, image: Image)
    requires multiset(loads) == multiset(loads') && Linked(bytes, head, loads, segment, soname, required, image)
    ensures Linked(bytes, head, loads', segment, soname, required, image.(loads := loads'))
  {
    var d := image.dynamic;
    hide Maps, DynamicIs, SysvTable, GnuTable, StringAt, HasString, Named, DefinedBelow, PairwiseDisjoint;
    MappingIgnoresOrder(loads, loads', segment.address, segment.fileSize, |bytes|, Place(segment));
    MappingIgnoresOrder(loads, loads', d.unique[DT_STRTAB], d.unique[DT_STRSZ], |bytes|, image.strings);
    MappingIgnoresOrder(loads, loads', d.unique[DT_SYMTAB], image.count * SYMBOL_SIZE, |bytes|, image.symbols);
    if image.sysv.Some? {
      SysvIgnoresOrder(bytes, loads, loads', d.unique[DT_HASH], image.sysv.value.0, image.sysv.value.1);
    }
    if image.gnu.Some? {
      GnuIgnoresOrder(bytes, loads, loads', d.unique[DT_GNU_HASH], image.gnu.value.0, image.gnu.value.1);
    }
  }

  lemma HeadInFile(bytes: seq<nat>, machine: nat)
    requires ParseHeader(bytes, machine).Some? && HeaderRanges(ParseHeader(bytes, machine).value, |bytes|).Some?
    ensures forall r :: r in HeaderRanges(ParseHeader(bytes, machine).value, |bytes|).value ==> InFile(r, |bytes|)
  {
    hide Word, CountsOk;
  }

  lemma ListedInFile(head: seq<Range>, place: Range, strings: Range, sysv: Option<(nat, Range)>,
                     gnu: Option<(nat, Range)>, symbols: Range, length: nat)
    requires forall r :: r in head ==> InFile(r, length)
    requires InFile(place, length) && InFile(strings, length) && InFile(symbols, length)
    requires (sysv.Some? ==> InFile(sysv.value.1, length)) && (gnu.Some? ==> InFile(gnu.value.1, length))
    ensures var ranges := head + [place, strings] + Listed(sysv) + Listed(gnu) + [symbols];
      && (forall r :: r in ranges ==> InFile(r, length)) && strings in ranges && symbols in ranges
      && (sysv.Some? ==> sysv.value.1 in ranges) && (gnu.Some? ==> gnu.value.1 in ranges)
  {
    hide InFile;
  }

  /**
   * Every table of an accepted file lies in it, apart from all the others and the headers, and every
   * required name is the name of an exported symbol of the symbol table.
   */
  lemma AcceptedIsSound(bytes: seq<nat>, machine: nat, soname: seq<nat>, required: seq<seq<nat>>, image: Image)
    requires Accepted(bytes, machine, soname, required, image)
    ensures PairwiseDisjoint(image.ranges) && forall r :: r in image.ranges ==> InFile(r, |bytes|)
    ensures image.strings in image.ranges && image.symbols in image.ranges
    ensures image.sysv.Some? ==> image.sysv.value.1 in image.ranges && image.count == image.sysv.value.0
    ensures image.gnu.Some? ==> image.gnu.value.1 in image.ranges && image.gnu.value.0 <= image.count
    ensures SymbolsIn(bytes, image.symbols, image.count)
    ensures forall k :: 0 <= k < |required| ==>
      DefinedBelow(bytes, image.symbols, image.count, image.strings, image.count, required[k])
  {
    HeadInFile(bytes, machine);
    var head := HeaderRanges(ParseHeader(bytes, machine).value, |bytes|).value;
    hide ParseHeader, HeaderRanges, SegmentsAre, Maps, DynamicIs, SysvTable, GnuTable, StringsOk, Named, DefinedBelow,
         PairwiseDisjoint, Listed;
    TablesInFile(bytes, head, image.loads, image.segment, soname, required, image);
    ListedInFile(head, Place(image.segment), image.strings, image.sysv, image.gnu, image.symbols, |bytes|);
  }

  lemma TablesInFile(bytes: seq<nat>, head: seq<Range>, loads: seq<Load>, segment: Load, soname: seq<nat>,
                     required: seq<seq<nat>>, image: Image)
    requires Linked(bytes, head, loads, segment, soname, required, image)
    ensures InFile(Place(segment), |bytes|) && InFile(image.strings, |bytes|)
    ensures image.sysv.Some? ==> InFile(image.sysv.value.1, |bytes|)
    ensures image.gnu.Some? ==> InFile(image.gnu.value.1, |bytes|)
  {
    var d := image.dynamic;
    hide Maps, DynamicIs, SysvTable, GnuTable, StringAt, HasString, Named, DefinedBelow, PairwiseDisjoint, Listed;
    MappingFits(loads, segment.address, segment.fileSize, |bytes|, Place(segment));
    MappingFits(loads, d.unique[DT_STRTAB], d.unique[DT_STRSZ], |bytes|, image.strings);
    if image.sysv.Some? { SysvFits(bytes, loads, d.unique[DT_HASH], image.sysv.value.0, image.sysv.value.1); }
    if image.gnu.Some? {
      var h := GnuTableIsBounded(bytes, loads, d.unique[DT_GNU_HASH], image.gnu.value.0, image.gnu.value.1);
    }
  }
}
