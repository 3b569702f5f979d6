/**
 * Two inputs on which drgn_module_parse_orc, as written, stores a table that does not keep
 * its promises, each next to the corrected behaviour on the same input.
 */
module OrcFindings {
  import opened OrcFormat
  import opened OrcSort
  import opened OrcFdes
  import opened OrcModule

  /** Three distinct, ordinary entries (SP-based, type REGS) of the version 3 layout. */
  const EXAMPLE_ENTRIES: seq<Entry> := [Entry(8, 0, 0x0201), Entry(16, 0, 0x0201), Entry(24, 0, 0x0201)]

  /** An unsorted table: slot 0 at 0x100, slot 1 at 0x0 (offset -4), slot 2 at 0x180. */
  function UnsortedTable(): (raw: RawOrc)
    ensures raw.Valid()
  {
    RawOrc(0, [0x100, 0xFFFF_FFFC, 0x178], EXAMPLE_ENTRIES, 3, false)
  }

  /** One FDE describing [0, 0x80). */
  const EXAMPLE_FDES: seq<Fde> := [Fde(0, 0x80)]

  /** The raw PCs and keys of UnsortedTable. */
  lemma UnsortedTableKeys()
    ensures RawPc(UnsortedTable(), 0) == 0x100 && RawPc(UnsortedTable(), 1) == 0 && RawPc(UnsortedTable(), 2) == 0x180
    ensures Keys(UnsortedTable()) == [0x201, 1, 0x301]
  {
    var raw := UnsortedTable();
    assert RawOffset(raw, 0) == 0x100 && RawOffset(raw, 1) == -4 && RawOffset(raw, 2) == 0x178;
    assert RawPc(raw, 0) == 0x100 && RawPc(raw, 1) == 0 && RawPc(raw, 2) == 0x180;
    assert RawFlags(raw, 0) == 0x0201 && RawFlags(raw, 1) == 0x0201 && RawFlags(raw, 2) == 0x0201;
    assert !IsTerminatorFlags(0x0201, 3);
    var keys := Keys(raw);
    assert keys[0] == 0x201 && keys[1] == 1 && keys[2] == 0x301;
  }

  /** The sorted order of UnsortedTable. */
  lemma UnsortedTableOrder()
    ensures RawPc(UnsortedTable(), 0) == 0x100 && RawPc(UnsortedTable(), 1) == 0 && RawPc(UnsortedTable(), 2) == 0x180
    ensures IsSortedPermutation([1, 0, 2], Keys(UnsortedTable()))
  {
    UnsortedTableKeys();
    var keys: seq<int> := [0x201, 1, 0x301];
    var order: seq<nat> := [1, 0, 2];
    assert InRange(order, |keys|);
    assert SortedBy(order, keys);
    assert Identity(3) == [0, 1, 2];
    assert multiset(order) == multiset(Identity(3));
  }

  /**
   * As written, FDE removal reads raw slot i while keeping indices[i]: entry 1, ranging over
   * [0, 0x100), is dropped although address 0x80 of that range is in no FDE.
   */
  lemma PositionViewDropsUncoveredEntry()
    ensures RemoveFdes(PositionView(UnsortedTable(), 0, [1, 0, 2]), EXAMPLE_FDES, EXAMPLE_ENTRIES, false).0 == [0, 2]
    ensures RawPc(UnsortedTable(), 1) <= 0x80 < RawPc(UnsortedTable(), 0)
    ensures !InFde(EXAMPLE_FDES, 0, 0x80)
  {
    UnsortedTableOrder();
    var raw := UnsortedTable();
    var v := PositionView(raw, 0, [1, 0, 2]);
    assert v.pcs == [0x100, 0, 0x180];
    assert v.preferred == [false, false, false];
    var s0 := Scan(v, EXAMPLE_FDES, EXAMPLE_ENTRIES, 0);
    assert s0 == ScanState(0, [], []);
    assert Advance(EXAMPLE_FDES, 0, 0x100) == 0;
    assert Cover(EXAMPLE_FDES, 0, 0) == (0, false);
    assert !Considered(v, EXAMPLE_FDES, s0, 0);
    var s1 := Scan(v, EXAMPLE_FDES, EXAMPLE_ENTRIES, 1);
    assert s1.kept == [];
    assert Advance(EXAMPLE_FDES, s1.fde, 0) == 0;
    assert Cover(EXAMPLE_FDES, 0, 0x180) == (0, true);
    var s2 := Scan(v, EXAMPLE_FDES, EXAMPLE_ENTRIES, 2);
    assert s2.kept == [0];
    assert Advance(EXAMPLE_FDES, s2.fde, 0x180) == 0;
    assert Cover(EXAMPLE_FDES, 0, U64_MAX) == (0, true);
    var s3 := Scan(v, EXAMPLE_FDES, EXAMPLE_ENTRIES, 3);
    assert s3.kept == [0, 2];
  }

  /** The loop columns when each position reads the entry it keeps. */
  lemma SortedViewOfUnsortedTable()
    ensures SortedView(UnsortedTable(), 0, [1, 0, 2]) == View([0, 0x100, 0x180], [false, false, false], [1, 0, 2])
  {
    UnsortedTableOrder();
    var raw := UnsortedTable();
    assert RawFlags(raw, 0) == 0x0201 && RawFlags(raw, 1) == 0x0201 && RawFlags(raw, 2) == 0x0201;
    var v := SortedView(raw, 0, [1, 0, 2]);
    assert v.pcs == [0, 0x100, 0x180];
    assert v.preferred == [false, false, false];
  }

  /** Reading slot indices[i] instead keeps all three entries of the same input. */
  lemma SortedViewKeepsUncoveredEntry()
    ensures RemoveFdes(SortedView(UnsortedTable(), 0, [1, 0, 2]), EXAMPLE_FDES, EXAMPLE_ENTRIES, false).0 == [1, 0, 2]
  {
    SortedViewOfUnsortedTable();
    var v := View([0, 0x100, 0x180], [false, false, false], [1, 0, 2]);
    var s0 := Scan(v, EXAMPLE_FDES, EXAMPLE_ENTRIES, 0);
    assert s0 == ScanState(0, [], []);
    assert Advance(EXAMPLE_FDES, 0, 0) == 0;
    assert Cover(EXAMPLE_FDES, 0, 0x100) == (0, true);
    var s1 := Scan(v, EXAMPLE_FDES, EXAMPLE_ENTRIES, 1);
    assert s1.kept == [1];
    assert Advance(EXAMPLE_FDES, s1.fde, 0x100) == 0;
    assert Cover(EXAMPLE_FDES, 0, 0x180) == (0, true);
    var s2 := Scan(v, EXAMPLE_FDES, EXAMPLE_ENTRIES, 2);
    assert s2.kept == [1, 0];
    assert Advance(EXAMPLE_FDES, s2.fde, 0x180) == 0;
    assert Cover(EXAMPLE_FDES, 0, U64_MAX) == (0, true);
    var s3 := Scan(v, EXAMPLE_FDES, EXAMPLE_ENTRIES, 3);
    assert s3.kept == [1, 0, 2];
  }

  /** Two slots whose offsets are 1 and 0 in the other byte order: true PCs 0x0100_0000 and 4. */
  function SwappedSections(): (s: OrcSections)
    ensures s.Valid()
  {
    OrcSections(0, [1, 0], [Entry(8, 0, 0x0201), Entry(16, 0, 0x0201)], 3)
  }

  /**
   * As written, sorting reads the stale byte order (no swap) and sees PCs 1 and 4 in order,
   * so the table keeps its order; normalised with the program's byte order its PCs are
   * 0x0100_0000 and 4, out of order for the binary search.
   */
  lemma StaleBswapLeavesTableUnsorted()
    ensures var table := ParsedTableAsWritten(SwappedSections(), 0, false, true, 0, [], false);
      OrcPc(0, table.0, 0) == 0x0100_0000 && OrcPc(0, table.0, 1) == 4
  {
    var sections := SwappedSections();
    var stale := RawOrc(0, sections.pcOffsets, sections.entries, 3, false);
    assert RawPc(stale, 0) == 1 && RawPc(stale, 1) == 4;
    var keys := Keys(stale);
    assert Identity(2) == [0, 1];
    assert AdjacentSorted(Identity(2), keys);
    var table := ParsedTableAsWritten(sections, 0, false, true, 0, [], false);
    var swapped := stale.(bswap := true);
    assert Bswap32(1) == 0x0100_0000 && Bswap32(0) == 0;
    assert table.0 == NormalizedOffsets(swapped, [0, 1]);
    assert table.0 == [0x0100_0000, 0];
  }

  /** The table in the program's byte order: PCs 0x0100_0000 and 4, sorted order [1, 0]. */
  function SwappedTable(): (raw: RawOrc)
    ensures raw.Valid()
  {
    RawOrc(0, [1, 0], [Entry(8, 0, 0x0201), Entry(16, 0, 0x0201)], 3, true)
  }

  lemma SwappedTableOrder()
    ensures RawOffset(SwappedTable(), 0) == 0x0100_0000 && RawOffset(SwappedTable(), 1) == 0
    ensures IsSortedPermutation([1, 0], Keys(SwappedTable()))
  {
    var raw := SwappedTable();
    SwappedTablePcs();
    assert Identity(2) == [0, 1];
    var keys := Keys(raw);
    assert keys[1] < keys[0];
    var order: seq<nat> := [1, 0];
    assert SortedBy(order, keys);
    assert multiset(order) == multiset(Identity(2));
  }

  lemma SwappedTablePcs()
    ensures RawOffset(SwappedTable(), 0) == 0x0100_0000 && RawOffset(SwappedTable(), 1) == 0
    ensures RawPc(SwappedTable(), 0) == 0x0100_0000 && RawPc(SwappedTable(), 1) == 4
  {
    assert Bswap32(1) == 0x0100_0000 && Bswap32(0) == 0;
  }

  /** With the program's byte order throughout, the same input is sorted to [1, 0] and stored in PC order. */
  lemma ProgramBswapSortsTable()
    ensures var table := ParsedTable(SwappedTable(), 0, [], false, [1, 0]);
      OrcPc(0, table.0, 0) == 4 && OrcPc(0, table.0, 1) == 0x0100_0000
  {
    var offsets := SwappedTableOffsets();
    assert Int32(4) == 4 && Int32(0x00FF_FFFC) == 0x00FF_FFFC;
    assert OrcPc(0, offsets, 0) == 4;
    assert OrcPc(0, offsets, 1) == 0x0100_0000;
  }

  lemma SwappedTableOffsets() returns (offsets: seq<u32>)
    ensures offsets == ParsedTable(SwappedTable(), 0, [], false, [1, 0]).0
    ensures offsets == [4, 0x00FF_FFFC]
  {
    SwappedTableKept();
    offsets := SwappedTableNormalized();
  }

  lemma SwappedTableKept()
    ensures RemoveFdes(SortedView(SwappedTable(), 0, [1, 0]), [], SwappedTable().entries, false).0 == [1, 0]
  {
    SwappedTableOrder();
  }

  lemma SwappedTableNormalized() returns (offsets: seq<u32>)
    ensures offsets == NormalizedOffsets(SwappedTable(), [1, 0]) == [4, 0x00FF_FFFC]
  {
    SwappedTablePcs();
    offsets := NormalizedOffsets(SwappedTable(), [1, 0]);
    assert RebasedOffset(0, 1, 0) == 4 && RebasedOffset(0x0100_0000, 0, 1) == 0x00FF_FFFC;
    assert offsets[0] == 4 && offsets[1] == 0x00FF_FFFC;
  }
}
