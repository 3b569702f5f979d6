/**
 * Dropping ORC entries that DWARF CFI already describes (remove_fdes_from_orc and
 * keep_orc_entry in libdrgn/orc_info.c).
 *
 * The loop visits the table in order. At loop position i the entry spans
 * [pcs[i], pcs[i+1]) (the last one runs to UINT64_MAX), ids[i] is the index stored in
 * indices[i], and preferred[i] says whether the entry uses the SP_INDIRECT pattern. A View
 * holds those three columns as the raw getters deliver them, with the debug file bias
 * already subtracted; which slot the getters read is chosen by the caller (see OrcModule).
 *
 * The loop is specified by Scan, a prefix recursion over positions: the state after
 * positions [0, i) is the current FDE, the kept indices and the appended ranges.
 */
module OrcFdes {
  import opened OrcFormat
  import opened OrcSort

  /** A DWARF FDE: it describes [initialLocation, initialLocation + addressRange). */
  datatype Fde = Fde(initialLocation: u64, addressRange: u64)

  /** A half-open address range of struct uint64_range. */
  datatype Range = Range(start: u64, end: u64)

  /** The columns the loop reads at each position. */
  datatype View = View(pcs: seq<u64>, preferred: seq<bool>, ids: seq<nat>)
  {
    predicate Valid(numEntries: nat) {
      |pcs| == |ids| && |preferred| == |ids| && InRange(ids, numEntries)
    }
  }

  /** The loop state after a prefix of the positions. */
  datatype ScanState = ScanState(fde: nat, kept: seq<nat>, ranges: seq<Range>)

  /**
   * keep_orc_entry on the kept prefix: entry id is merged into the last kept entry when the
   * two are byte-identical, and appended otherwise.
   */
  function Keep(entries: seq<Entry>, kept: seq<nat>, id: nat): (r: seq<nat>)
    requires (|kept| > 0 ==> kept[|kept| - 1] < |entries|) && id < |entries|
    ensures InRange(kept, |entries|) ==> InRange(r, |entries|)
    ensures r == kept <==> |kept| > 0 && entries[kept[|kept| - 1]] == entries[id]
    ensures r != kept ==> r == kept + [id]
    ensures |r| > 0 && entries[r[|r| - 1]] == entries[id]
  {
    if |kept| > 0 && entries[kept[|kept| - 1]] == entries[id] then kept else kept + [id]
  }

  /** No two neighbouring kept entries are byte-identical. */
  predicate NoAdjacentDuplicates(entries: seq<Entry>, kept: seq<nat>)
    requires InRange(kept, |entries|)
  {
    forall k :: 0 < k < |kept| ==> entries[kept[k - 1]] != entries[kept[k]]
  }

  /** The end of the entry at position i: the next PC, or UINT64_MAX for the last one. */
  function EndAt(v: View, i: nat): u64
    requires i < |v.pcs|
  {
    if i < |v.pcs| - 1 then v.pcs[i + 1] else U64_MAX
  }

  /** The first loop: move to the last FDE that starts at or before start. */
  function Advance(fdes: seq<Fde>, f: nat, start: u64): (r: nat)
    requires f < |fdes|
    ensures f <= r < |fdes|
    ensures fdes[f].initialLocation <= start ==> fdes[r].initialLocation <= start
    decreases |fdes| - f
  {
    if f != |fdes| - 1 && fdes[f + 1].initialLocation <= start then Advance(fdes, f + 1, start) else f
  }

  /**
   * The second loop: walk FDEs while the current one does not reach end. The result is the
   * FDE the loop stops at and whether the entry is kept (an FDE gap or the last FDE exposes it).
   */
  function Cover(fdes: seq<Fde>, f: nat, end: u64): (r: (nat, bool))
    requires f < |fdes|
    ensures f <= r.0 < |fdes|
    decreases |fdes| - f
  {
    if Sub64(end, fdes[f].initialLocation) > fdes[f].addressRange then
      if f == |fdes| - 1
         || Sub64(fdes[f + 1].initialLocation, fdes[f].initialLocation) > fdes[f].addressRange then (f, true)
      else Cover(fdes, f + 1, end)
    else (f, false)
  }

  /** Whether the loop hands position i to keep_orc_entry. */
  predicate Considered(v: View, fdes: seq<Fde>, st: ScanState, i: nat)
    requires i < |v.pcs| && |v.preferred| == |v.pcs| && st.fde < |fdes|
  {
    || v.preferred[i]
    || v.pcs[i] < fdes[st.fde].initialLocation
    || Cover(fdes, Advance(fdes, st.fde, v.pcs[i]), EndAt(v, i)).1
  }

  /** One iteration of the loop. */
  function Step(v: View, fdes: seq<Fde>, entries: seq<Entry>, st: ScanState, i: nat): (r: ScanState)
    requires v.Valid(|entries|) && i < |v.ids| && st.fde < |fdes| && InRange(st.kept, |entries|)
    ensures r.fde < |fdes| && InRange(r.kept, |entries|)
    ensures r.kept == if Considered(v, fdes, st, i) then Keep(entries, st.kept, v.ids[i]) else st.kept
    ensures r.ranges == st.ranges + if v.preferred[i] then [Range(v.pcs[i], EndAt(v, i))] else []
  {
    var start := v.pcs[i];
    var end := EndAt(v, i);
    if v.preferred[i] then
      ScanState(st.fde, Keep(entries, st.kept, v.ids[i]), st.ranges + [Range(start, end)])
    else if start < fdes[st.fde].initialLocation then
      ScanState(st.fde, Keep(entries, st.kept, v.ids[i]), st.ranges)
    else
      var (f, keep) := Cover(fdes, Advance(fdes, st.fde, start), end);
      ScanState(f, if keep then Keep(entries, st.kept, v.ids[i]) else st.kept, st.ranges)
  }

  /** The loop state after positions [0, i). */
  function Scan(v: View, fdes: seq<Fde>, entries: seq<Entry>, i: nat): (r: ScanState)
    requires v.Valid(|entries|) && |fdes| > 0 && i <= |v.ids|
    ensures r.fde < |fdes| && InRange(r.kept, |entries|)
  {
    if i == 0 then ScanState(0, [], [])
    else Step(v, fdes, entries, Scan(v, fdes, entries, i - 1), i - 1)
  }

  lemma ScanNext(v: View, fdes: seq<Fde>, entries: seq<Entry>, i: nat)
    requires v.Valid(|entries|) && |fdes| > 0 && i < |v.ids|
    ensures Scan(v, fdes, entries, i + 1) == Step(v, fdes, entries, Scan(v, fdes, entries, i), i)
  {
  }

  /** The FDE one iteration of the loop leaves the walk at. */
  lemma StepFde(v: View, fdes: seq<Fde>, entries: seq<Entry>, st: ScanState, i: nat)
    requires v.Valid(|entries|) && i < |v.ids| && st.fde < |fdes| && InRange(st.kept, |entries|)
    ensures Step(v, fdes, entries, st, i).fde ==
      if v.preferred[i] || v.pcs[i] < fdes[st.fde].initialLocation then st.fde
      else Cover(fdes, Advance(fdes, st.fde, v.pcs[i]), EndAt(v, i)).0
  {
  }

  /**
   * remove_fdes_from_orc: the kept indices (the new indices[..num_entries]) and the ranges
   * appended to the preferred vector.
   */
  function RemoveFdes(v: View, fdes: seq<Fde>, entries: seq<Entry>, preferOrc: bool): (r: (seq<nat>, seq<Range>))
    requires v.Valid(|entries|)
    ensures InRange(r.0, |entries|)
  {
    if preferOrc then (v.ids, [Range(0, U64_MAX)])
    else if |fdes| == 0 then (v.ids, [])
    else
      var st := Scan(v, fdes, entries, |v.ids|);
      (st.kept, st.ranges)
  }

  // ---------------------------------------------------------------------------------------
  // Properties of the specification

  /** a is a subsequence of b: b with some elements removed, order kept. */
  predicate IsSubsequence(a: seq<nat>, b: seq<nat>)
    decreases |b|
  {
    if |b| == 0 then |a| == 0
    else
      || (|a| > 0 && a[|a| - 1] == b[|b| - 1] && IsSubsequence(a[..|a| - 1], b[..|b| - 1]))
      || IsSubsequence(a, b[..|b| - 1])
  }

  lemma {:induction false} SubsequenceLength(a: seq<nat>, b: seq<nat>)
    requires IsSubsequence(a, b)
    ensures |a| <= |b|
    decreases |b|
  {
    if |b| > 0 {
      if |a| > 0 && a[|a| - 1] == b[|b| - 1] && IsSubsequence(a[..|a| - 1], b[..|b| - 1]) {
        SubsequenceLength(a[..|a| - 1], b[..|b| - 1]);
      } else {
        SubsequenceLength(a, b[..|b| - 1]);
      }
    }
  }

  lemma {:induction false} SubsequenceReflexive(a: seq<nat>)
    ensures IsSubsequence(a, a)
    decreases |a|
  {
    if |a| > 0 {
      SubsequenceReflexive(a[..|a| - 1]);
    }
  }

  /** A subsequence stays one when b grows, whether or not a grows by the same element. */
  lemma SubsequenceSnoc(a: seq<nat>, b: seq<nat>, x: nat)
    requires IsSubsequence(a, b)
    ensures IsSubsequence(a, b + [x]) && IsSubsequence(a + [x], b + [x])
  {
    assert (b + [x])[..|b|] == b;
    assert (a + [x])[..|a|] == a;
  }

  /** The kept indices after any prefix are a subsequence of that prefix of ids. */
  lemma {:induction false} KeptIsSubsequence(v: View, fdes: seq<Fde>, entries: seq<Entry>, i: nat)
    requires v.Valid(|entries|) && |fdes| > 0 && i <= |v.ids|
    ensures IsSubsequence(Scan(v, fdes, entries, i).kept, v.ids[..i])
  {
    if i > 0 {
      KeptIsSubsequence(v, fdes, entries, i - 1);
      var before := Scan(v, fdes, entries, i - 1).kept;
      var after := Scan(v, fdes, entries, i).kept;
      assert v.ids[..i] == v.ids[..i - 1] + [v.ids[i - 1]];
      SubsequenceSnoc(before, v.ids[..i - 1], v.ids[i - 1]);
    }
  }

  /** Neighbouring kept entries always differ: merging leaves no identical pair behind. */
  lemma {:induction false} KeptHasNoAdjacentDuplicates(v: View, fdes: seq<Fde>, entries: seq<Entry>, i: nat)
    requires v.Valid(|entries|) && |fdes| > 0 && i <= |v.ids|
    ensures NoAdjacentDuplicates(entries, Scan(v, fdes, entries, i).kept)
  {
    if i > 0 {
      KeptHasNoAdjacentDuplicates(v, fdes, entries, i - 1);
      var st := Scan(v, fdes, entries, i - 1);
      if Considered(v, fdes, st, i - 1) {
        KeepNoAdjacentDuplicates(entries, st.kept, v.ids[i - 1]);
      }
    }
  }

  /** Keep preserves the absence of identical neighbours. */
  lemma KeepNoAdjacentDuplicates(entries: seq<Entry>, kept: seq<nat>, id: nat)
    requires InRange(kept, |entries|) && id < |entries| && NoAdjacentDuplicates(entries, kept)
    ensures NoAdjacentDuplicates(entries, Keep(entries, kept, id))
  {
    var r := Keep(entries, kept, id);
    if r != kept {
      forall k | 0 < k < |r| ensures entries[r[k - 1]] != entries[r[k]] {
        if k < |kept| {
          assert r[k - 1] == kept[k - 1] && r[k] == kept[k];
        }
      }
    }
  }

  /** The preferred ranges of the first i positions, in position order. */
  function PreferredRanges(v: View, i: nat): seq<Range>
    requires i <= |v.pcs| && |v.preferred| == |v.pcs|
  {
    if i == 0 then []
    else PreferredRanges(v, i - 1) + (if v.preferred[i - 1] then [Range(v.pcs[i - 1], EndAt(v, i - 1))] else [])
  }

  /** The ranges appended are exactly those of the SP_INDIRECT positions, in order. */
  lemma {:induction false} RangesArePreferred(v: View, fdes: seq<Fde>, entries: seq<Entry>, i: nat)
    requires v.Valid(|entries|) && |fdes| > 0 && i <= |v.ids|
    ensures Scan(v, fdes, entries, i).ranges == PreferredRanges(v, i)
  {
    if i > 0 {
      RangesArePreferred(v, fdes, entries, i - 1);
    }
  }

  /** Ranges, once appended, stay: a later prefix extends an earlier one. */
  lemma {:induction false} PreferredRangesGrow(v: View, i: nat, j: nat)
    requires i <= j <= |v.pcs| && |v.preferred| == |v.pcs|
    ensures PreferredRanges(v, i) <= PreferredRanges(v, j)
    decreases j
  {
    if i < j {
      PreferredRangesGrow(v, i, j - 1);
    }
  }

  /**
   * An SP_INDIRECT entry is considered kept, and its range [pcs[i], EndAt(i)) is among those
   * remove_fdes_from_orc returns.
   */
  lemma PreferredEntryKept(v: View, fdes: seq<Fde>, entries: seq<Entry>, i: nat)
    requires v.Valid(|entries|) && |fdes| > 0 && i < |v.ids| && v.preferred[i]
    ensures Considered(v, fdes, Scan(v, fdes, entries, i), i)
    ensures Range(v.pcs[i], EndAt(v, i)) in RemoveFdes(v, fdes, entries, false).1
  {
    var n := |v.ids|;
    var rs := PreferredRanges(v, i + 1);
    assert rs[|rs| - 1] == Range(v.pcs[i], EndAt(v, i));
    PreferredRangesGrow(v, i + 1, n);
    assert Range(v.pcs[i], EndAt(v, i)) in PreferredRanges(v, n);
    RangesArePreferred(v, fdes, entries, n);
  }

  /** FDEs sorted by start address, as the DWARF CFI reader leaves them. */
  predicate FdesSorted(fdes: seq<Fde>) {
    forall a, b :: 0 <= a < b < |fdes| ==> fdes[a].initialLocation <= fdes[b].initialLocation
  }

  /** A non-SP_INDIRECT entry starting before the first FDE is considered kept. */
  lemma EntryBeforeFirstFdeKept(v: View, fdes: seq<Fde>, entries: seq<Entry>, i: nat)
    requires v.Valid(|entries|) && |fdes| > 0 && i < |v.ids| && FdesSorted(fdes)
    requires v.pcs[i] < fdes[0].initialLocation
    ensures Considered(v, fdes, Scan(v, fdes, entries, i), i)
  {
    var f := Scan(v, fdes, entries, i).fde;
    assert f == 0 || fdes[0].initialLocation <= fdes[f].initialLocation;
  }

  /** Address a lies inside FDE f. */
  predicate InFde(fdes: seq<Fde>, f: nat, a: int)
    requires f < |fdes|
  {
    fdes[f].initialLocation <= a < fdes[f].initialLocation + fdes[f].addressRange
  }

  /**
   * When the second loop ends without keeping the entry, the FDEs it walked form a chain with
   * no gap that reaches end: every address from the first FDE's start up to end is in one.
   */
  lemma {:induction false} CoverChain(fdes: seq<Fde>, f: nat, end: u64, a: int)
    requires f < |fdes| && FdesSorted(fdes)
    requires !Cover(fdes, f, end).1
    requires fdes[f].initialLocation <= a < end
    ensures exists g :: f <= g < |fdes| && InFde(fdes, g, a)
    decreases |fdes| - f
  {
    var init := fdes[f].initialLocation;
    if Sub64(end, init) > fdes[f].addressRange {
      var next := fdes[f + 1].initialLocation;
      assert Sub64(next, init) == next - init;
      if a < next {
        assert InFde(fdes, f, a);
      } else {
        CoverChain(fdes, f + 1, end, a);
      }
    } else {
      assert Sub64(end, init) == end - init;
      assert InFde(fdes, f, a);
    }
  }

  /**
   * An entry is dropped only when FDEs cover its whole range: each address from its PC up to
   * the next entry's PC lies in some FDE.
   */
  lemma DroppedEntryIsCovered(v: View, fdes: seq<Fde>, entries: seq<Entry>, i: nat, a: int)
    requires v.Valid(|entries|) && |fdes| > 0 && i < |v.ids| && FdesSorted(fdes)
    requires !Considered(v, fdes, Scan(v, fdes, entries, i), i)
    requires v.pcs[i] <= a < EndAt(v, i)
    ensures exists g :: 0 <= g < |fdes| && InFde(fdes, g, a)
  {
    var st := Scan(v, fdes, entries, i);
    var f := Advance(fdes, st.fde, v.pcs[i]);
    CoverChain(fdes, f, EndAt(v, i), a);
  }

  /**
   * The three outcomes of remove_fdes_from_orc: the prefer-ORC switch keeps every entry and
   * prefers all addresses, no FDEs changes nothing, and otherwise the kept indices are a
   * subsequence of the old ones with no neighbouring duplicates.
   */
  lemma RemoveFdesOutcomes(v: View, fdes: seq<Fde>, entries: seq<Entry>, preferOrc: bool)
    requires v.Valid(|entries|)
    ensures preferOrc ==> RemoveFdes(v, fdes, entries, preferOrc) == (v.ids, [Range(0, U64_MAX)])
    ensures !preferOrc && |fdes| == 0 ==> RemoveFdes(v, fdes, entries, preferOrc) == (v.ids, [])
    ensures IsSubsequence(RemoveFdes(v, fdes, entries, preferOrc).0, v.ids)
    ensures |RemoveFdes(v, fdes, entries, preferOrc).0| <= |v.ids|
    ensures !preferOrc && |fdes| > 0 ==> NoAdjacentDuplicates(entries, RemoveFdes(v, fdes, entries, preferOrc).0)
  {
    var kept := RemoveFdes(v, fdes, entries, preferOrc).0;
    if preferOrc || |fdes| == 0 {
      SubsequenceReflexive(v.ids);
    } else {
      KeptIsSubsequence(v, fdes, entries, |v.ids|);
      assert v.ids[..|v.ids|] == v.ids;
      KeptHasNoAdjacentDuplicates(v, fdes, entries, |v.ids|);
    }
    SubsequenceLength(kept, v.ids);
  }

  /** With the PCs in order, the preferred ranges come in order of their starts, none past the last PC read. */
  lemma {:induction false} PreferredRangesSorted(v: View, i: nat)
    requires i <= |v.pcs| && |v.preferred| == |v.pcs|
    requires forall a, b :: 0 <= a < b < |v.pcs| ==> v.pcs[a] <= v.pcs[b]
    ensures i > 0 ==> forall k :: 0 <= k < |PreferredRanges(v, i)| ==> PreferredRanges(v, i)[k].start <= v.pcs[i - 1]
    ensures forall k, l :: 0 <= k < l < |PreferredRanges(v, i)| ==>
      PreferredRanges(v, i)[k].start <= PreferredRanges(v, i)[l].start
  {
    if i > 0 {
      PreferredRangesSorted(v, i - 1);
      if i > 1 {
        assert v.pcs[i - 2] <= v.pcs[i - 1];
      }
    }
  }

  // ---------------------------------------------------------------------------------------
  // The loop

  /**
   * keep_orc_entry: merge entry indices[i] into the last kept slot or write it to slot
   * numEntries. Slots below numEntries, and above the returned count, are untouched.
   */
  method KeepOrcEntry(entries: seq<Entry>, indices: array<nat>, numEntries: nat, i: nat) returns (r: nat)
    requires numEntries <= i < indices.Length
    requires numEntries > 0 ==> indices[numEntries - 1] < |entries|
    requires indices[i] < |entries|
    modifies indices
    ensures r == numEntries || r == numEntries + 1
    ensures indices[..r] == Keep(entries, old(indices[..numEntries]), old(indices[i]))
    ensures forall k :: r <= k < indices.Length ==> indices[k] == old(indices[k])
  {
    if numEntries > 0 && entries[indices[numEntries - 1]] == entries[indices[i]] {
      assert indices[..numEntries][numEntries - 1] == indices[numEntries - 1];
      return numEntries;
    }
    indices[numEntries] := indices[i];
    r := numEntries + 1;
    assert indices[..r] == old(indices[..numEntries]) + [old(indices[i])];
  }

  /**
   * The two inner loops of remove_fdes_from_orc for an entry at or after the current FDE:
   * find the last FDE starting at or before startPc, then walk FDEs while they leave part of
   * [startPc, endPc) uncovered, keeping the entry when a gap or the last FDE exposes it.
   */
  method WalkFdes(fdes: seq<Fde>, entries: seq<Entry>, indices: array<nat>, numEntries: nat, i: nat,
                  fde0: nat, startPc: u64, endPc: u64) returns (fde: nat, newNumEntries: nat)
    requires fde0 < |fdes| && numEntries <= i < indices.Length
    requires numEntries > 0 ==> indices[numEntries - 1] < |entries|
    requires indices[i] < |entries|
    modifies indices
    ensures fde == Cover(fdes, Advance(fdes, fde0, startPc), endPc).0
    ensures newNumEntries == numEntries || newNumEntries == numEntries + 1
    ensures indices[..newNumEntries] ==
      if Cover(fdes, Advance(fdes, fde0, startPc), endPc).1
      then Keep(entries, old(indices[..numEntries]), old(indices[i]))
      else old(indices[..numEntries])
    ensures forall k :: newNumEntries <= k < indices.Length ==> indices[k] == old(indices[k])
  {
    var lastFde := |fdes| - 1;
    fde := fde0;
    newNumEntries := numEntries;
    while fde != lastFde && fdes[fde + 1].initialLocation <= startPc
      invariant fde <= lastFde
      invariant Advance(fdes, fde, startPc) == Advance(fdes, fde0, startPc)
    {
      fde := fde + 1;
    }
    while Sub64(endPc, fdes[fde].initialLocation) > fdes[fde].addressRange
      invariant fde <= lastFde
      invariant Cover(fdes, fde, endPc) == Cover(fdes, Advance(fdes, fde0, startPc), endPc)
      invariant indices[..] == old(indices[..]) && newNumEntries == numEntries
      decreases lastFde - fde
    {
      if fde == lastFde
         || Sub64(fdes[fde + 1].initialLocation, fdes[fde].initialLocation) > fdes[fde].addressRange {
        newNumEntries := KeepOrcEntry(entries, indices, numEntries, i);
        return;
      }
      fde := fde + 1;
    }
  }

  /**
   * One iteration of the loop of remove_fdes_from_orc: records position i as preferred
   * when it is, then keeps its entry or walks the FDEs past it.
   */
  method ScanOne(v: View, fdes: seq<Fde>, entries: seq<Entry>, indices: array<nat>, numEntries: nat, i: nat,
                 fde0: nat, preferred0: seq<Range>, startPc: u64)
    returns (fde: nat, newNumEntries: nat, preferred: seq<Range>, endPc: u64)
    requires indices.Length == |v.ids| && i < |v.ids|
    requires ScanInv(v, fdes, entries, indices[..], i, numEntries, fde0, preferred0, startPc)
    modifies indices
    ensures ScanInv(v, fdes, entries, indices[..], i + 1, newNumEntries, fde, preferred, endPc)
  {
    ghost var st := Scan(v, fdes, entries, i);
    ghost var before := indices[..];
    StepFde(v, fdes, entries, st, i);
    assert numEntries > 0 ==> indices[numEntries - 1] == st.kept[numEntries - 1];
    assert indices[i] == v.ids[i];
    endPc := if i < |v.ids| - 1 then v.pcs[i + 1] else U64_MAX;
    preferred := preferred0;
    if v.preferred[i] {
      preferred := preferred + [Range(startPc, endPc)];
    }
    if v.preferred[i] || startPc < fdes[fde0].initialLocation {
      fde := fde0;
      newNumEntries := KeepOrcEntry(entries, indices, numEntries, i);
    } else {
      fde, newNumEntries := WalkFdes(fdes, entries, indices, numEntries, i, fde0, startPc, endPc);
    }
    ScanInvNext(v, fdes, entries, before, indices[..], i, numEntries, fde0, preferred0, startPc,
                fde, newNumEntries, preferred, endPc);
  }

  /**
   * remove_fdes_from_orc: shrink indices[..|ids|] to the kept entries and return their count
   * with the ranges appended to the (initially empty) preferred vector.
   */
  method RemoveFdesFromOrc(v: View, fdes: seq<Fde>, entries: seq<Entry>, preferOrc: bool, indices: array<nat>)
    returns (numEntries: nat, preferred: seq<Range>)
    requires v.Valid(|entries|) && |v.ids| > 0 && indices[..] == v.ids
    modifies indices
    ensures numEntries <= |v.ids|
    ensures indices[..numEntries] == RemoveFdes(v, fdes, entries, preferOrc).0
    ensures preferred == RemoveFdes(v, fdes, entries, preferOrc).1
  {
    numEntries := |v.ids|;
    if preferOrc {
      preferred := [Range(0, U64_MAX)];
      return;
    }
    if |fdes| == 0 {
      preferred := [];
      return;
    }
    numEntries, preferred := ScanLoop(v, fdes, entries, indices);
  }

  /** The loop of remove_fdes_from_orc over the positions, once there are FDEs to compare with. */
  method ScanLoop(v: View, fdes: seq<Fde>, entries: seq<Entry>, indices: array<nat>)
    returns (numEntries: nat, preferred: seq<Range>)
    requires v.Valid(|entries|) && |v.ids| > 0 && indices[..] == v.ids && |fdes| > 0
    modifies indices
    ensures numEntries <= |v.ids|
    ensures indices[..numEntries] == Scan(v, fdes, entries, |v.ids|).kept
    ensures preferred == Scan(v, fdes, entries, |v.ids|).ranges
  {
    var n := |v.ids|;
    var fde := 0;
    numEntries := 0;
    preferred := [];
    var startPc := v.pcs[0];
    var i := 0;
    ScanInvStart(v, fdes, entries);
    ghost var a := indices[..];
    while i < n
      invariant indices.Length == n && a == indices[..]
      invariant ScanInv(v, fdes, entries, a, i, numEntries, fde, preferred, startPc)
    {
      fde, numEntries, preferred, startPc := ScanOne(v, fdes, entries, indices, numEntries, i, fde, preferred, startPc);
      a := indices[..];
      i := i + 1;
    }
    ScanInvEnd(v, fdes, entries, a, numEntries, fde, preferred, startPc);
    assert indices[..numEntries] == a[..numEntries];
  }

  /**
   * The invariant of the loop of remove_fdes_from_orc over the contents a of the indices
   * array: the state after positions [0, i), the rest of a untouched, and start_pc the PC of
   * position i.
   */
  ghost predicate ScanInv(v: View, fdes: seq<Fde>, entries: seq<Entry>, a: seq<nat>, i: nat, numEntries: nat,
                          fde: nat, preferred: seq<Range>, startPc: u64)
  {
    && v.Valid(|entries|) && |fdes| > 0 && i <= |v.ids| == |a| && numEntries <= i
    && ScanState(fde, a[..numEntries], preferred) == Scan(v, fdes, entries, i)
    && (forall k :: i <= k < |a| ==> a[k] == v.ids[k])
    && (i < |a| ==> startPc == v.pcs[i])
  }

  lemma ScanInvStart(v: View, fdes: seq<Fde>, entries: seq<Entry>)
    requires v.Valid(|entries|) && |fdes| > 0 && |v.ids| > 0
    ensures ScanInv(v, fdes, entries, v.ids, 0, 0, 0, [], v.pcs[0])
  {
    assert v.ids[..0] == [];
  }

  lemma ScanInvEnd(v: View, fdes: seq<Fde>, entries: seq<Entry>, a: seq<nat>, numEntries: nat, fde: nat,
                   preferred: seq<Range>, startPc: u64)
    requires ScanInv(v, fdes, entries, a, |a|, numEntries, fde, preferred, startPc)
    ensures numEntries <= |a| && a[..numEntries] == Scan(v, fdes, entries, |a|).kept
    ensures preferred == Scan(v, fdes, entries, |a|).ranges
  {
  }

  /** One iteration of the loop keeps its invariant. */
  lemma ScanInvNext(v: View, fdes: seq<Fde>, entries: seq<Entry>, a: seq<nat>, b: seq<nat>, i: nat,
                    numEntries: nat, fde: nat, preferred: seq<Range>, startPc: u64,
                    fde': nat, numEntries': nat, preferred': seq<Range>, endPc: u64)
    requires ScanInv(v, fdes, entries, a, i, numEntries, fde, preferred, startPc) && i < |a| == |b|
    requires endPc == EndAt(v, i) && numEntries' <= i + 1
    requires fde' == Step(v, fdes, entries, Scan(v, fdes, entries, i), i).fde
    requires b[..numEntries'] == Step(v, fdes, entries, Scan(v, fdes, entries, i), i).kept
    requires forall k :: numEntries' <= k < |b| ==> b[k] == a[k]
    requires preferred' == preferred + (if v.preferred[i] then [Range(startPc, endPc)] else [])
    ensures ScanInv(v, fdes, entries, b, i + 1, numEntries', fde', preferred', endPc)
  {
    ScanNext(v, fdes, entries, i);
  }
}
