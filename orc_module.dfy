/**
 * The ORC state of a module (struct drgn_module_orc_info) and the operations on it in
 * libdrgn/orc_info.c: drgn_module_parse_orc, which turns the tables as read into a sorted,
 * FDE-pruned, version 3 table, and the two lookups that binary search it.
 */
module OrcModule {
  import opened Results
  import opened OrcFormat
  import opened OrcSort
  import opened OrcFdes

  /**
   * What drgn_read_orc_sections or drgn_read_builtin_orc leave behind: the PC base, the two
   * parallel arrays in the file's byte order and the layout version.
   */
  datatype OrcSections = OrcSections(pcBase: u64, pcOffsets: seq<u32>, entries: seq<Entry>, version: int)
  {
    predicate Valid() {
      |pcOffsets| == |entries| <= UINT_MAX
    }
  }

  /**
   * The loop columns of remove_fdes_from_orc when position i reads the entry it keeps,
   * indices[i]: its PC minus the bias and whether it is SP_INDIRECT.
   */
  function SortedView(raw: RawOrc, bias: u64, order: seq<nat>): (v: View)
    requires raw.Valid() && InRange(order, |raw.entries|)
    ensures v.Valid(|raw.entries|) && v.ids == order
    ensures forall i :: 0 <= i < |order| ==> v.pcs[i] == Wrap64(RawPc(raw, order[i]) - bias)
  {
    View(seq(|order|, i requires 0 <= i < |order| => Wrap64(RawPc(raw, order[i]) - bias)),
         seq(|order|, i requires 0 <= i < |order| => RawIsPreferred(raw, order[i])),
         order)
  }

  /**
   * The loop columns as remove_fdes_from_orc computes them: drgn_raw_orc_pc(module, i) and
   * drgn_raw_orc_entry_is_preferred(module, i) read raw slot i, whichever index indices[i] holds.
   */
  function PositionView(raw: RawOrc, bias: u64, order: seq<nat>): (v: View)
    requires raw.Valid() && |order| == |raw.entries| && InRange(order, |raw.entries|)
    ensures v.Valid(|raw.entries|) && v.ids == order
  {
    View(seq(|order|, i requires 0 <= i < |order| => Wrap64(RawPc(raw, i) - bias)),
         seq(|order|, i requires 0 <= i < |order| => RawIsPreferred(raw, i)),
         order)
  }

  /** The rebased PC offsets of the kept entries: new slot i takes raw entry kept[i]. */
  function NormalizedOffsets(raw: RawOrc, kept: seq<nat>): (offsets: seq<u32>)
    requires raw.Valid() && InRange(kept, |raw.entries|)
    ensures |offsets| == |kept|
  {
    seq(|kept|, i requires 0 <= i < |kept| => RebasedOffset(RawOffset(raw, kept[i]), kept[i], i))
  }

  /** The kept entries in host byte order and the version 3 flag layout. */
  function NormalizedEntries(raw: RawOrc, kept: seq<nat>): (entries: seq<Entry>)
    requires raw.Valid() && InRange(kept, |raw.entries|)
    ensures |entries| == |kept|
  {
    seq(|kept|, i requires 0 <= i < |kept| => NormalizeEntry(raw.entries[kept[i]], raw.bswap, raw.version))
  }

  /** The table parse_orc stores for a sorted order: PC offsets, entries and preferred ranges. */
  function ParsedTable(raw: RawOrc, bias: u64, fdes: seq<Fde>, preferOrc: bool, order: seq<nat>): (seq<u32>, seq<Entry>, seq<Range>)
    requires raw.Valid() && InRange(order, |raw.entries|)
  {
    var (kept, ranges) := RemoveFdes(SortedView(raw, bias, order), fdes, raw.entries, preferOrc);
    (NormalizedOffsets(raw, kept), NormalizedEntries(raw, kept), ranges)
  }

  /** Slot PCs in nondecreasing order: what binary search over the table relies on. */
  predicate PcsSorted(pcBase: u64, pcOffsets: seq<u32>) {
    forall i, j :: 0 <= i < j < |pcOffsets| ==> OrcPc(pcBase, pcOffsets, i) <= OrcPc(pcBase, pcOffsets, j)
  }

  /** No rebased offset of the kept entries is truncated by the store into an int32_t. */
  predicate OffsetsFit(raw: RawOrc, kept: seq<nat>)
    requires raw.Valid() && InRange(kept, |raw.entries|)
  {
    forall i :: 0 <= i < |kept| ==> -0x8000_0000 <= 4 * kept[i] + RawOffset(raw, kept[i]) - 4 * i < 0x8000_0000
  }

  /**
   * Each slot of the normalised table has the PC of the raw entry it came from: in the low
   * 32 bits always, and exactly when the rebased offset fits.
   */
  lemma NormalizedPcIsRawPc(raw: RawOrc, kept: seq<nat>, i: nat)
    requires raw.Valid() && InRange(kept, |raw.entries|) && i < |kept|
    ensures OrcPc(raw.pcBase, NormalizedOffsets(raw, kept), i) % U32_MOD == RawPc(raw, kept[i]) % U32_MOD
    ensures -0x8000_0000 <= 4 * kept[i] + RawOffset(raw, kept[i]) - 4 * i < 0x8000_0000 ==>
      OrcPc(raw.pcBase, NormalizedOffsets(raw, kept), i) == RawPc(raw, kept[i])
  {
    RebasePreservesPc(raw, kept[i], i);
    Mod64Mod32(raw.pcBase + 4 * i + Int32(NormalizedOffsets(raw, kept)[i]));
  }

  /** A strictly increasing choice of positions of b that spells a. */
  lemma {:induction false} SubsequencePositions(a: seq<nat>, b: seq<nat>) returns (pos: seq<nat>)
    requires IsSubsequence(a, b)
    ensures |pos| == |a|
    ensures forall k :: 0 <= k < |a| ==> pos[k] < |b| && a[k] == b[pos[k]]
    ensures forall k, l :: 0 <= k < l < |a| ==> pos[k] < pos[l]
    decreases |b|
  {
    if |b| == 0 {
      pos := [];
    } else if |a| > 0 && a[|a| - 1] == b[|b| - 1] && IsSubsequence(a[..|a| - 1], b[..|b| - 1]) {
      var p := SubsequencePositions(a[..|a| - 1], b[..|b| - 1]);
      pos := p + [|b| - 1];
    } else {
      pos := SubsequencePositions(a, b[..|b| - 1]);
    }
  }

  /** Removing elements keeps a sorted sequence sorted. */
  lemma SubsequenceSorted(a: seq<nat>, b: seq<nat>, keys: seq<int>)
    requires IsSubsequence(a, b) && InRange(b, |keys|) && SortedBy(b, keys)
    ensures InRange(a, |keys|) && SortedBy(a, keys)
  {
    var pos := SubsequencePositions(a, b);
    forall k, l | 0 <= k < l < |a| ensures keys[a[k]] <= keys[a[l]] {
      assert keys[b[pos[k]]] <= keys[b[pos[l]]];
    }
  }

  /**
   * The stored table is sorted by PC when the indices were a sorted permutation and no
   * rebased offset is truncated, so the lookups' binary searches are sound.
   */
  lemma ParsedTableSorted(raw: RawOrc, bias: u64, fdes: seq<Fde>, preferOrc: bool, order: seq<nat>)
    requires raw.Valid() && IsSortedPermutation(order, Keys(raw))
    requires OffsetsFit(raw, RemoveFdes(SortedView(raw, bias, order), fdes, raw.entries, preferOrc).0)
    ensures PcsSorted(raw.pcBase, ParsedTable(raw, bias, fdes, preferOrc, order).0)
  {
    var v := SortedView(raw, bias, order);
    var kept := RemoveFdes(v, fdes, raw.entries, preferOrc).0;
    var offsets := NormalizedOffsets(raw, kept);
    RemoveFdesOutcomes(v, fdes, raw.entries, preferOrc);
    SubsequenceSorted(kept, order, Keys(raw));
    forall i, j | 0 <= i < j < |offsets| ensures OrcPc(raw.pcBase, offsets, i) <= OrcPc(raw.pcBase, offsets, j) {
      NormalizedPcIsRawPc(raw, kept, i);
      NormalizedPcIsRawPc(raw, kept, j);
      assert SortKey(raw, kept[i]) <= SortKey(raw, kept[j]);
    }
  }

  /**
   * The preferred ranges parse_orc stores start in nondecreasing order, as the binary search
   * of drgn_module_should_prefer_orc_cfi needs, when the indices were a sorted permutation and
   * subtracting the bias wraps no entry's PC.
   */
  lemma ParsedRangesSorted(raw: RawOrc, bias: u64, fdes: seq<Fde>, preferOrc: bool, order: seq<nat>)
    requires raw.Valid() && IsSortedPermutation(order, Keys(raw))
    requires forall i :: 0 <= i < |raw.entries| ==> bias <= RawPc(raw, i)
    ensures var ranges := ParsedTable(raw, bias, fdes, preferOrc, order).2;
      forall k, l :: 0 <= k < l < |ranges| ==> ranges[k].start <= ranges[l].start
  {
    if !preferOrc && |fdes| > 0 {
      var v := SortedView(raw, bias, order);
      forall a, b | 0 <= a < b < |v.pcs| ensures v.pcs[a] <= v.pcs[b] {
        assert SortKey(raw, order[a]) <= SortKey(raw, order[b]);
      }
      RangesArePreferred(v, fdes, raw.entries, |v.ids|);
      PreferredRangesSorted(v, |v.ids|);
    }
  }

  /**
   * With the getters reading slot indices[i], an entry is dropped only when FDEs cover the
   * addresses from its PC up to the PC of the next entry in sorted order.
   */
  lemma SortedViewDropsOnlyCovered(raw: RawOrc, bias: u64, fdes: seq<Fde>, order: seq<nat>, i: nat, a: int)
    requires raw.Valid() && InRange(order, |raw.entries|) && |fdes| > 0 && FdesSorted(fdes) && i < |order|
    requires !Considered(SortedView(raw, bias, order), fdes, Scan(SortedView(raw, bias, order), fdes, raw.entries, i), i)
    requires Wrap64(RawPc(raw, order[i]) - bias) <= a
    requires a < if i + 1 < |order| then Wrap64(RawPc(raw, order[i + 1]) - bias) else U64_MAX
    ensures exists g :: 0 <= g < |fdes| && InFde(fdes, g, a)
  {
    DroppedEntryIsCovered(SortedView(raw, bias, order), fdes, raw.entries, i, a);
  }

  /** binary_search_gt: the first index whose element is greater than key. */
  method BinarySearchGt(a: seq<int>, key: int) returns (i: nat)
    requires forall k, l :: 0 <= k < l < |a| ==> a[k] <= a[l]
    ensures i <= |a|
    ensures forall k :: 0 <= k < i ==> a[k] <= key
    ensures forall k :: i <= k < |a| ==> key < a[k]
  {
    var lo, hi := 0, |a|;
    while lo < hi
      invariant 0 <= lo <= hi <= |a|
      invariant forall k :: 0 <= k < lo ==> a[k] <= key
      invariant forall k :: hi <= k < |a| ==> key < a[k]
    {
      var mid := lo + (hi - lo) / 2;
      if key < a[mid] {
        hi := mid;
      } else {
        lo := mid + 1;
      }
    }
    return lo;
  }

  /** The ORC part of a module. */
  class OrcModule {
    var pcBase: u64
    var pcOffsets: seq<u32>
    var entries: seq<Entry>
    var version: int
    /** Whether the stored tables still need byte swapping. */
    var bswap: bool
    /** Unbiased address ranges where ORC is preferred over DWARF CFI. */
    var preferred: seq<Range>
    const debugFileBias: u64
    /** The module's `.debug_frame` FDEs. */
    const fdes: seq<Fde>

    predicate Valid()
      reads this
    {
      |pcOffsets| == |entries|
    }

    /** A module with no ORC loaded. */
    constructor(debugFileBias: u64, fdes: seq<Fde>)
      ensures Valid() && this.debugFileBias == debugFileBias && this.fdes == fdes
      ensures pcOffsets == [] && entries == [] && preferred == [] && !bswap
    {
      this.debugFileBias := debugFileBias;
      this.fdes := fdes;
      pcBase := 0;
      pcOffsets := [];
      entries := [];
      version := 0;
      bswap := false;
      preferred := [];
    }

    /** The PC of each slot of the stored table. */
    function Pcs(): (pcs: seq<int>)
      requires Valid()
      reads this
      ensures |pcs| == |entries|
      ensures forall i :: 0 <= i < |pcs| ==> pcs[i] == OrcPc(pcBase, pcOffsets, i)
    {
      var base, offsets := pcBase, pcOffsets;
      seq(|offsets|, i requires 0 <= i < |offsets| => OrcPc(base, offsets, i))
    }

    /** The start of each preferred range. */
    function Starts(): (starts: seq<int>)
      reads this
      ensures |starts| == |preferred|
      ensures forall i :: 0 <= i < |starts| ==> starts[i] == preferred[i].start
    {
      var ranges := preferred;
      seq(|ranges|, i requires 0 <= i < |ranges| => ranges[i].start)
    }

    /**
     * drgn_module_parse_orc, given what reading produced (isX86_64: whether the program is
     * x86-64; useBuiltin: whether the tables came from vmlinux memory, whose PC base is
     * already biased). Indices are ordered, entries FDEs cover are dropped, and the kept
     * entries are normalised; `order` is the sorted index permutation qsort_arg chose.
     * The byte order used throughout is the program's.
     */
    method ParseOrc(isX86_64: bool, useBuiltin: bool, read: Result<OrcSections, OrcError>,
                    programBswap: bool, preferOrc: bool) returns (err: Option<OrcError>, ghost order: seq<nat>)
      requires Valid() && (read.Ok? ==> read.value.Valid())
      modifies this
      ensures Valid()
      ensures !isX86_64 ==> err.None? && unchanged(this)
      ensures isX86_64 && read.Err? ==> err == Some(read.error) && pcOffsets == [] && entries == []
      ensures isX86_64 && read.Err? ==> pcBase == old(pcBase) && version == old(version)
      ensures isX86_64 && read.Ok? ==> err.None?
      ensures isX86_64 && (read.Err? || |read.value.entries| == 0) ==> preferred == old(preferred) && bswap == old(bswap)
      ensures isX86_64 && read.Ok? ==>
        && pcBase == (if useBuiltin then read.value.pcBase else Wrap64(read.value.pcBase + debugFileBias))
        && version == read.value.version
      ensures isX86_64 && read.Ok? && |read.value.entries| == 0 ==> pcOffsets == [] && entries == []
      ensures isX86_64 && read.Ok? && |read.value.entries| > 0 ==>
        var raw := RawOrc(pcBase, read.value.pcOffsets, read.value.entries, read.value.version, programBswap);
        && pcBase == (if useBuiltin then read.value.pcBase else Wrap64(read.value.pcBase + debugFileBias))
        && version == read.value.version && bswap == programBswap
        && IsSortedPermutation(order, Keys(raw))
        && (order == Identity(|read.value.entries|) <==> AdjacentSorted(Identity(|read.value.entries|), Keys(raw)))
        && (pcOffsets, entries, preferred) == ParsedTable(raw, debugFileBias, fdes, preferOrc, order)
    {
      order := [];
      if !isX86_64 {
        return None, order;
      }
      if read.Err? {
        pcOffsets := [];
        entries := [];
        return Some(read.error), order;
      }
      var sections := read.value;
      pcBase := if useBuiltin then sections.pcBase else Wrap64(sections.pcBase + debugFileBias);
      version := sections.version;
      if |sections.entries| == 0 {
        pcOffsets := [];
        entries := [];
        return None, order;
      }
      var raw := RawOrc(pcBase, sections.pcOffsets, sections.entries, sections.version, programBswap);
      var newOffsets, newEntries, ranges;
      newOffsets, newEntries, ranges, order := BuildTable(raw, debugFileBias, fdes, preferOrc);
      preferred := ranges;
      pcOffsets := newOffsets;
      entries := newEntries;
      bswap := programBswap;
      err := None;
    }

    /**
     * drgn_module_find_orc_cfi's choice of entry: None when pc is below the first PC (or the
     * table is empty), otherwise the last slot whose PC is at most pc.
     */
    method FindOrcCfi(pc: u64) returns (r: Option<nat>)
      requires Valid() && PcsSorted(pcBase, pcOffsets)
      ensures r.None? <==> |entries| == 0 || pc < OrcPc(pcBase, pcOffsets, 0)
      ensures r.Some? ==> r.value < |entries| && OrcPc(pcBase, pcOffsets, r.value) <= pc
      ensures r.Some? ==> forall j :: r.value < j < |entries| ==> pc < OrcPc(pcBase, pcOffsets, j)
    {
      var pcs := Pcs();
      var i := BinarySearchGt(pcs, pc);
      if i == 0 {
        return None;
      }
      return Some(i - 1);
    }

    /**
     * drgn_module_should_prefer_orc_cfi: whether pc - bias lies before the end of the last
     * preferred range that starts at or below it.
     */
    method ShouldPreferOrcCfi(pc: u64) returns (b: bool)
      requires forall k, l :: 0 <= k < l < |preferred| ==> preferred[k].start <= preferred[l].start
      ensures var unbiased := Wrap64(pc - debugFileBias);
        b <==> exists k :: 0 <= k < |preferred| && preferred[k].start <= unbiased < preferred[k].end
                           && forall l :: k < l < |preferred| ==> unbiased < preferred[l].start
    {
      var unbiased := Wrap64(pc - debugFileBias);
      var starts := Starts();
      var i := BinarySearchGt(starts, unbiased);
      b := i > 0 && preferred[i - 1].end > unbiased;
    }
  }

  /**
   * The work of parse_orc on a non-empty table: order the indices, drop entries FDEs cover,
   * then normalise what is kept.
   */
  method BuildTable(raw: RawOrc, bias: u64, fdes: seq<Fde>, preferOrc: bool)
    returns (pcOffsets: seq<u32>, entries: seq<Entry>, preferred: seq<Range>, ghost order: seq<nat>)
    requires raw.Valid() && |raw.entries| > 0
    ensures IsSortedPermutation(order, Keys(raw))
    ensures order == Identity(|raw.entries|) <==> AdjacentSorted(Identity(|raw.entries|), Keys(raw))
    ensures (pcOffsets, entries, preferred) == ParsedTable(raw, bias, fdes, preferOrc, order)
  {
    var indices := OrderIndices(raw);
    order := indices[..];
    var view := SortedView(raw, bias, indices[..]);
    var numEntries;
    numEntries, preferred := RemoveFdesFromOrc(view, fdes, raw.entries, preferOrc, indices);
    RemoveFdesOutcomes(view, fdes, raw.entries, preferOrc);
    pcOffsets, entries := NormalizeEntries(raw, indices, numEntries);
  }

  /**
   * The upgrade and rebase loop of parse_orc: new slot i takes raw entry indices[i],
   * byte-swapped and upgraded, with its PC offset rebased to slot i.
   */
  method NormalizeEntries(raw: RawOrc, indices: array<nat>, numEntries: nat) returns (pcOffsets: seq<u32>, entries: seq<Entry>)
    requires raw.Valid() && numEntries <= indices.Length && InRange(indices[..numEntries], |raw.entries|)
    ensures pcOffsets == NormalizedOffsets(raw, indices[..numEntries])
    ensures entries == NormalizedEntries(raw, indices[..numEntries])
  {
    var newOffsets := new u32[numEntries];
    var newEntries := new Entry[numEntries];
    ghost var kept := indices[..numEntries];
    var i := 0;
    while i < numEntries
      invariant 0 <= i <= numEntries
      invariant forall k :: 0 <= k < i ==> newOffsets[k] == NormalizedOffsets(raw, kept)[k]
      invariant forall k :: 0 <= k < i ==> newEntries[k] == NormalizedEntries(raw, kept)[k]
    {
      var index := indices[i];
      assert index == kept[i];
      var offset := raw.pcOffsets[index];
      var entry := raw.entries[index];
      if raw.bswap {
        offset := Bswap32(offset);
        entry := Entry(Bswap16(entry.spOffset), Bswap16(entry.bpOffset), Bswap16(entry.flags));
      }
      entry := entry.(flags := UpgradeFlags(entry.flags, raw.version));
      newEntries[i] := entry;
      newOffsets[i] := Low32(4 * index + Int32(offset) - 4 * i);
      i := i + 1;
    }
    pcOffsets := newOffsets[..];
    entries := newEntries[..];
  }

  // ---------------------------------------------------------------------------------------
  // drgn_module_parse_orc as written

  /**
   * The order the check loop and qsort_arg leave the indices in: the identity when no
   * neighbouring pair compares greater, a key-sorted permutation otherwise.
   */
  function CheckedOrder(raw: RawOrc): (order: seq<nat>)
    requires raw.Valid()
    ensures IsSortedPermutation(order, Keys(raw))
    ensures order == Identity(|raw.entries|) <==> AdjacentSorted(Identity(|raw.entries|), Keys(raw))
  {
    var n := |raw.entries|;
    if AdjacentSorted(Identity(n), Keys(raw)) then
      AdjacentSortedIsSorted(Identity(n), Keys(raw));
      Identity(n)
    else
      SortByKey(Identity(n), Keys(raw))
  }

  /**
   * The table the source stores: the raw getters read module->orc.bswap, which still holds
   * its previous value (`staleBswap`) until the end of parse_orc, and remove_fdes_from_orc
   * reads raw position i rather than indices[i]. The check loop and qsort_arg order the
   * indices by the stale key.
   */
  function ParsedTableAsWritten(sections: OrcSections, pcBase: u64, staleBswap: bool, programBswap: bool,
                                bias: u64, fdes: seq<Fde>, preferOrc: bool): (r: (seq<u32>, seq<Entry>, seq<Range>))
    requires sections.Valid()
    ensures |r.0| == |r.1| <= |sections.entries|
  {
    var raw := RawOrc(pcBase, sections.pcOffsets, sections.entries, sections.version, staleBswap);
    var order := CheckedOrder(raw);
    var (kept, ranges) := RemoveFdes(PositionView(raw, bias, order), fdes, raw.entries, preferOrc);
    RemoveFdesOutcomes(PositionView(raw, bias, order), fdes, raw.entries, preferOrc);
    var normalizing := raw.(bswap := programBswap);
    (NormalizedOffsets(normalizing, kept), NormalizedEntries(normalizing, kept), ranges)
  }

  /**
   * The table as written is the corrected one whenever the stale byte order is the
   * program's and either the FDE pass keeps everything (the prefer-ORC switch, no FDEs) or
   * the check loop leaves the indices in place.
   */
  lemma AsWrittenAgrees(sections: OrcSections, pcBase: u64, programBswap: bool, bias: u64, fdes: seq<Fde>, preferOrc: bool)
    requires sections.Valid()
    ensures var raw := RawOrc(pcBase, sections.pcOffsets, sections.entries, sections.version, programBswap);
      preferOrc || |fdes| == 0 || AdjacentSorted(Identity(|sections.entries|), Keys(raw)) ==>
      ParsedTableAsWritten(sections, pcBase, programBswap, programBswap, bias, fdes, preferOrc)
        == ParsedTable(raw, bias, fdes, preferOrc, CheckedOrder(raw))
  {
    var raw := RawOrc(pcBase, sections.pcOffsets, sections.entries, sections.version, programBswap);
    if preferOrc || |fdes| == 0 || AdjacentSorted(Identity(|sections.entries|), Keys(raw)) {
      var order := CheckedOrder(raw);
      PositionViewAgrees(raw, bias, fdes, preferOrc, order);
      assert raw.(bswap := programBswap) == raw;
    }
  }

  /**
   * Reading raw position i instead of indices[i] changes nothing when the indices are the
   * identity, or when the FDE pass does not look at the columns.
   */
  lemma PositionViewAgrees(raw: RawOrc, bias: u64, fdes: seq<Fde>, preferOrc: bool, order: seq<nat>)
    requires raw.Valid() && |order| == |raw.entries| && InRange(order, |raw.entries|)
    requires preferOrc || |fdes| == 0 || order == Identity(|raw.entries|)
    ensures RemoveFdes(PositionView(raw, bias, order), fdes, raw.entries, preferOrc)
         == RemoveFdes(SortedView(raw, bias, order), fdes, raw.entries, preferOrc)
  {
    if !preferOrc && |fdes| > 0 {
      assert PositionView(raw, bias, order) == SortedView(raw, bias, order);
    }
  }
}
