# drgn: ORC unwind tables, vmtest bookkeeping and debug info options, in Dafny

This project models three sequential parts of drgn, the programmable debugger, and proves
what each of them promises.

- **ORC unwind tables** (`libdrgn/orc_info.c`). ORC is the Linux kernel's x86-64 unwind
  format: two parallel arrays, with a 32-bit PC offset per slot and a 6-byte entry (SP
  offset, BP offset and a flags word). The model covers the following steps:
  - the layout version is read from the `.orc_header` hash, or from the kernel release;
  - the section sizes are checked;
  - the slots are ordered by PC, with terminators first on equal PCs;
  - entries that DWARF FDEs fully cover are dropped, and identical neighbours are merged;
  - flag words of versions 1 and 2 are rewritten into the version 3 layout;
  - PC offsets are rebased to the new slots;
  - two binary-search lookups: the entry for a PC, and whether ORC is preferred at a PC.

  Modules `OrcFormat`, `OrcSort`, `OrcFdes` and `OrcModule` model these steps.
  `OrcFindings` holds two inputs on which the code as written breaks its promises.
- **vmtest** (`vmtest/__main__.py`). The model covers:
  - the version gates `_kernel_version_is_supported` and `_kdump_works`;
  - expansion of the `-a` architecture flags;
  - the `add_kernel` job planner, with its `-k` selectors;
  - the `_ProgressPrinter` result tables and their rendering;
  - the test script chosen for each kernel;
  - the order of the test loop.

  Modules: `VmtestVersions`, `VmtestJobs`, `VmtestProgress`, `VmtestRun`.
- **Debug info options** (`libdrgn/debug_info_options.c`). This is a record of list options and
  bool options. A list option is a NULL-terminated string list, and a default list is shared
  by pointer. The model covers init, the setters, the all-or-nothing copy, list
  duplication, list destruction, list equality and the text formatter.
  - `OptionsHeap` models the C heap. A pointer is a natural number, with 0 as NULL. Lists
    own their strings.
  - `DebugInfoOptions` and `OptionsFormat` model the record and its text.
  - The option list of the `DRGN_DEBUG_INFO_OPTIONS` X-macro is a parameter: a sequence of
    fields, each a list option with its default list or a bool option with its default.

The helper modules are:
- `Results`: Option and Result;
- `Digits`: decimal digit strings;
- `Text`: sequence lemmas and a join;
- `Unique`: order-preserving deduplication, the effect of `OrderedDict.fromkeys` and of
  first-seen dict insertion.

Widths are explicit: PCs are `u64` with wrap-around, PC offsets are `u32` words read as
`int32_t`, and flags are `bv16`. On equal PCs, `compare_orc_entries` returns
`is_terminator(b) - is_terminator(a)`, so a terminator sorts before the real entry at the
same PC. The lookup, which takes the last entry at or below a PC, therefore lands on the
real entry. The model follows this code.

`KernelVersion` comes from a module that is not part of this model. It is modelled as the
dotted decimal parts at the start of a release string, compared lexicographically, with a
proper prefix smaller.

## Model

| member | source | states |
|---|---|---|
| OrcFormat.Bswap16 | libdrgn/orc_info.c:48-51 | the two bytes of the flags word are exchanged |
| OrcFormat.Int32 | libdrgn/orc_info.c:37-42 | a 32-bit word read as `int32_t` lies in [-2^31, 2^31) and agrees with the word modulo 2^32 |
| OrcFormat.Sub64Wraps | libdrgn/orc_info.c:161-167 | `uint64_t` subtraction is the difference wrapped to 64 bits, and the plain difference when no borrow occurs |
| OrcFormat.CompareOrcEntries | libdrgn/orc_info.c:82-101 | the order is by raw PC (`pc_base + 4*i + offset`); on equal PCs a terminator comes first and two entries of the same kind are equal; the result is negative, zero or positive exactly as the sort key is |
| OrcFormat.UpgradeFlags | libdrgn/orc_info.c:613-658 | the low 8 flag bits are kept and version 3 flags are unchanged; the signal bit moves from 0x400 to 0x800 in version 2 and is set iff `flags & 0x300` in version 1; the old terminator becomes type UNDEFINED and the end flag becomes type END_OF_STACK |
| OrcFormat.RebasePreservesPc | libdrgn/orc_info.c:659 | the rebased slot PC `pc_base + 4*i + pc_offsets[i]` equals the raw PC of entry `indices[i]` in its low 32 bits, and exactly when the rebased offset fits an `int32_t` |
| OrcFormat.Int32OfLow32 | libdrgn/orc_info.c:659 | truncating to `int32_t` and reading it back is the identity on the `int32_t` range |
| OrcFormat.OrcVersionFromHeader | libdrgn/orc_info.c:224-248 | 3 iff the v6.4 hash, 2 iff the v6.3 hash, -1 iff neither |
| OrcFormat.OrcVersionFromOsrelease | libdrgn/orc_info.c:250-263 | the version from the release is always 1, 2 or 3 |
| OrcFormat.OsreleaseMajorMinor | libdrgn/orc_info.c:250-263 | release "major.minor…" gives 3 from 6.4 on, 2 for 6.3 and 1 before |
| OrcFormat.OsreleaseMajorOnly | libdrgn/orc_info.c:255-262 | a release with no ".minor" reads its minor number as 0 |
| OrcFormat.StrToLOfDecimal | libdrgn/orc_info.c:255-260 | `strtol` reads exactly the digits of a decimal number and stops at the first non-digit |
| OrcFormat.ReadOrcSections | libdrgn/orc_info.c:265-363 | a missing section means no ORC; an unrecognised header is an error; the table is accepted iff the IP size is a multiple of 4, the unwind size a multiple of 6, both counts agree and the count fits an `unsigned int`; an accepted table's version is the 20-byte header's hash version when a header is present, the release's otherwise |
| OrcFormat.ReadVmlinuxOrc | libdrgn/orc_info.c:365-462 | a built-in IP range that is not a multiple of 4 is an error; the table is accepted iff both ranges agree on a count that fits an `unsigned int` and a header, when its symbols are present, spans 20 bytes with a known hash; an accepted table has version 1 to 3 and `count * 4` IP bytes, its version is the header's hash version when the header symbol is present, the release's otherwise |
| OrcSort.KeysCompare | libdrgn/orc_info.c:82-101 | one slot's key is below, equal to or above another's iff `compare_orc_entries` returns a negative, zero or positive result |
| OrcSort.IdentityDisordered | libdrgn/orc_info.c:588-594 | one neighbouring pair out of order makes the identity neither sorted nor neighbour-sorted, so the check loop must go on to sort |
| OrcSort.AdjacentFromSorted | libdrgn/orc_info.c:588-594 | a sorted order has no neighbouring pair out of order, so the check loop finds none |
| OrcSort.AdjacentSortedIsSorted | libdrgn/orc_info.c:588-594 | when no neighbouring pair compares greater, the whole order is sorted, so skipping the sort is sound |
| OrcSort.InsertSorted | libdrgn/orc_info.c:590-591 | insertion keeps a key-sorted sequence sorted |
| OrcSort.SortByKey | libdrgn/orc_info.c:590-591 | the sort's result is a key-sorted permutation of its input |
| OrcSort.NeedsSort | libdrgn/orc_info.c:588-594 | the check loop reports disorder iff some neighbouring pair compares greater than zero; otherwise the indices are sorted |
| OrcSort.SortIndices | libdrgn/orc_info.c:590-591 | `qsort_arg` leaves the indices sorted by key and a permutation of before |
| OrcSort.OrderIndices | libdrgn/orc_info.c:574-594 | the indices start as the identity and end as a sorted permutation; they are still the identity exactly when no neighbouring pair of the table is out of order |
| OrcFdes.Keep | libdrgn/orc_info.c:103-121 | the kept prefix is unchanged iff the last kept entry is byte-identical to the new one; otherwise the new index is appended |
| OrcFdes.KeepOrcEntry | libdrgn/orc_info.c:103-121 | the array method returns `n` or `n+1`, its prefix is `Keep` of the old prefix, and slots from the result on are untouched |
| OrcFdes.Advance | libdrgn/orc_info.c:194-195 | the FDE walk only moves forward and stops at an FDE starting at or before the start PC |
| OrcFdes.Cover | libdrgn/orc_info.c:201-218 | the covering walk only moves forward |
| OrcFdes.Step | libdrgn/orc_info.c:163-219 | one iteration hands the entry to `keep_orc_entry` iff it is considered, and appends `[start, end)` iff it is SP_INDIRECT |
| OrcFdes.RemoveFdes | libdrgn/orc_info.c:131-222 | the kept indices name entries of the table |
| OrcFdes.RemoveFdesOutcomes | libdrgn/orc_info.c:136-221 | with prefer-ORC every index is kept and `[0, UINT64_MAX)` is preferred; with no FDEs nothing changes; otherwise the kept indices are a subsequence of the old ones, no longer, with no identical neighbours |
| OrcFdes.KeptIsSubsequence | libdrgn/orc_info.c:163-219 | after any prefix of the loop the kept indices are a subsequence of that prefix |
| OrcFdes.KeptHasNoAdjacentDuplicates | libdrgn/orc_info.c:103-121 | no two neighbouring kept entries are byte-identical |
| OrcFdes.KeepNoAdjacentDuplicates | libdrgn/orc_info.c:103-121 | `keep_orc_entry` keeps the absence of identical neighbours |
| OrcFdes.RangesArePreferred | libdrgn/orc_info.c:169-179 | the preferred ranges are exactly those of the SP_INDIRECT positions, in position order |
| OrcFdes.PreferredRangesGrow | libdrgn/orc_info.c:169-179 | an appended range is never removed |
| OrcFdes.PreferredRangesSorted | libdrgn/orc_info.c:163-179 | over PCs in order, the preferred ranges come in order of their starts |
| OrcFdes.PreferredEntryKept | libdrgn/orc_info.c:169-179 | an SP_INDIRECT entry is considered kept, and its range `[pc(i), pc(i+1))` (or up to UINT64_MAX for the last entry) is returned |
| OrcFdes.EntryBeforeFirstFdeKept | libdrgn/orc_info.c:181-188 | an entry starting before the first FDE is considered kept |
| OrcFdes.CoverChain | libdrgn/orc_info.c:201-218 | when the covering walk ends without keeping, every address from the FDE's start up to the end PC lies in some FDE |
| OrcFdes.DroppedEntryIsCovered | libdrgn/orc_info.c:163-219 | an entry is dropped only if FDEs cover every address of its range |
| OrcFdes.WalkFdes | libdrgn/orc_info.c:190-218 | the two inner loops end at the FDE the specification gives, and keep the entry exactly as `Cover` says |
| OrcFdes.ScanOne | libdrgn/orc_info.c:163-219 | one iteration of the array loop keeps the loop invariant |
| OrcFdes.ScanLoop | libdrgn/orc_info.c:150-221 | the array loop leaves the kept indices and the preferred ranges of the specification |
| OrcFdes.RemoveFdesFromOrc | libdrgn/orc_info.c:131-222 | the method shrinks the indices to `RemoveFdes`'s kept indices and returns its ranges |
| OrcFdes.ScanInvNext | libdrgn/orc_info.c:163-219 | one iteration's effect on the array matches one `Step` |
| OrcModule.SortedView | libdrgn/orc_info.c:161-169 | (corrected) position i reads the PC, less the bias, of the entry `indices[i]` it keeps |
| OrcModule.PositionView | libdrgn/orc_info.c:161-169 | (as written) position i reads raw slot i while keeping `indices[i]` |
| OrcModule.NormalizedPcIsRawPc | libdrgn/orc_info.c:613-660 | each new slot's PC equals the raw PC of the entry it came from, in the low 32 bits and exactly when no truncation occurs |
| OrcModule.SubsequenceSorted | libdrgn/orc_info.c:598 | dropping entries keeps the order sorted |
| OrcModule.ParsedTableSorted | libdrgn/orc_info.c:588-668 | the stored table's PCs are sorted for the binary searches when the order was a sorted permutation and no offset was truncated |
| OrcModule.ParsedRangesSorted | libdrgn/orc_info.c:596-664 | the stored preferred ranges start in nondecreasing order, as the binary search of `drgn_module_should_prefer_orc_cfi` needs, when the order was a sorted permutation and no PC lies below the bias |
| OrcModule.SortedViewDropsOnlyCovered | libdrgn/orc_info.c:161-218 | with the corrected view, an entry is dropped only when FDEs cover it up to the next entry in sorted order |
| OrcModule.NormalizeEntries | libdrgn/orc_info.c:610-660 | the upgrade and rebase loop produces the byte-swapped, upgraded entries of the kept indices and their rebased offsets |
| OrcModule.BuildTable | libdrgn/orc_info.c:574-660 | ordering, FDE removal and normalisation give the table of a sorted permutation, which is the identity exactly when the table was already in order |
| OrcModule.OrcModule.ParseOrc | libdrgn/orc_info.c:532-671 | non-x86-64 changes nothing; a read error is returned, empties the table (see Left out) and keeps the PC base, version, preference and byte order; an empty table stays empty, stores the PC base and version and keeps the preference and byte order; otherwise the biased PC base, version and byte order are stored with the normalised table of a sorted order that is the identity exactly when the table was already in order |
| OrcModule.BinarySearchGt | libdrgn/orc_info.c:696-698 | the result is the first index whose element is greater than the key |
| OrcModule.OrcModule.FindOrcCfi | libdrgn/orc_info.c:689-708 | not found iff the table is empty or pc is below the first PC; otherwise the last slot whose PC is at most pc |
| OrcModule.OrcModule.ShouldPreferOrcCfi | libdrgn/orc_info.c:673-682 | true iff `pc - bias` is below the end of the last preferred range starting at or below it |
| OrcModule.CheckedOrder | libdrgn/orc_info.c:588-594 | the check loop and `qsort_arg` leave a sorted permutation, and the identity exactly when no neighbouring pair compares greater |
| OrcModule.ParsedTableAsWritten | libdrgn/orc_info.c:532-671 | (as written) the table the code stores, ordered and pruned with the stale byte order and the position view, then normalised with the program's byte order: as many entries as offsets, no more than were read |
| OrcModule.PositionViewAgrees | libdrgn/orc_info.c:161-169 | reading slot i instead of `indices[i]` prunes the same entries when the indices are the identity, or when the prefer-ORC switch is on or there are no FDEs |
| OrcModule.AsWrittenAgrees | libdrgn/orc_info.c:586-598 | with the program's byte order already stored, the table as written is the corrected table whenever the prefer-ORC switch is on, there are no FDEs, or the check loop finds the table in order |
| OrcFindings.PositionViewDropsUncoveredEntry | libdrgn/orc_info.c:161-188 | as written, an entry whose range contains an address in no FDE is dropped |
| OrcFindings.SortedViewKeepsUncoveredEntry | libdrgn/orc_info.c:161-188 | reading `indices[i]` keeps all three entries of the same input |
| OrcFindings.StaleBswapLeavesTableUnsorted | libdrgn/orc_info.c:588-598 | as written, the sort reads a stale byte order and stores a table whose PCs are out of order |
| OrcFindings.ProgramBswapSortsTable | libdrgn/orc_info.c:588-668 | with the program's byte order throughout, the same input is stored in PC order |
| VmtestVersions.KernelVersionOfRender | vmtest/__main__.py:13 | reading a rendered version gives its parts back |
| VmtestVersions.LessTransitive | vmtest/__main__.py:100-107 | the version order is transitive |
| VmtestVersions.LessTotal | vmtest/__main__.py:100-107 | the version order is total |
| VmtestVersions.Thresholds | vmtest/__main__.py:100-127 | the threshold strings parse to [4,11], [4,19], [5,10], [5,15] and [6,1] |
| VmtestVersions.SupportedThresholds | vmtest/__main__.py:98-109 | supported iff x86_64, or at least 4.19 on aarch64 and arm, or at least 4.11 elsewhere |
| VmtestVersions.SupportedUpward | vmtest/__main__.py:98-109 | a later version of a supported one is supported too |
| VmtestVersions.KdumpWorks | vmtest/__main__.py:112-131 | an unknown architecture is an assertion failure carrying its name, never a false answer; known architectures give an answer |
| VmtestVersions.KdumpUpward | vmtest/__main__.py:112-131 | kdump support is upward closed in the release |
| VmtestJobs.Foreign | vmtest/__main__.py:213-220 | `foreign` gives exactly the catalogue architectures other than the host |
| VmtestJobs.ExpandArchitectures | vmtest/__main__.py:208-228 | the loop and `OrderedDict.fromkeys` give the expansion without repeats, or the host alone without `-a` |
| VmtestJobs.ExpansionMembers | vmtest/__main__.py:210-222 | an architecture is in the expansion iff some `-a` value stands for it |
| VmtestJobs.AllArchitectures | vmtest/__main__.py:211-212 | `-a all` tests every catalogue architecture, and nothing outside the catalogue when every value is valid |
| VmtestJobs.OnlyAll | vmtest/__main__.py:211-225 | `-a all` alone tests the catalogue in order |
| VmtestJobs.OnlyForeign | vmtest/__main__.py:213-225 | `-a foreign` alone tests the catalogue without the host, in order |
| VmtestJobs.JobPlanner.AddKernel | vmtest/__main__.py:235-242 | a new key adds its kernel, a new architecture adds its compiler first, and the planner state matches the request log |
| VmtestJobs.AddKernelStep | vmtest/__main__.py:235-242 | one call extends the seen sets and the compiler and kernel lists exactly as first-seen deduplication of the requests does |
| VmtestJobs.JobPlanner.AddSelectors | vmtest/__main__.py:244-260 | the selector loop makes the requests `SelectorsRequests` lists, in order |
| VmtestJobs.PlanDownloads | vmtest/__main__.py:244-262 | the download list is `Schedule` of all the selectors' requests |
| VmtestJobs.VersionRequestsMembers | vmtest/__main__.py:247-257 | a version loop requests (a, v.*f) iff v is supported on a, for every version, architecture and flavour |
| VmtestJobs.AllSelector | vmtest/__main__.py:246-251 | `-k all` requests every supported (version, architecture) pair in every flavour |
| VmtestJobs.FlavorSelector | vmtest/__main__.py:252-257 | `-k FLAVOR` requests every supported pair in that flavour only |
| VmtestJobs.LiteralSelector | vmtest/__main__.py:258-260 | any other `-k` value is requested on every architecture with no version filter |
| VmtestJobs.ScheduleDistinct | vmtest/__main__.py:235-242 | no download appears twice |
| VmtestJobs.ScheduleMembers | vmtest/__main__.py:235-242 | a kernel is downloaded iff requested, and a compiler iff its architecture was requested |
| VmtestJobs.CompilersFirst | vmtest/__main__.py:262 | every compiler download comes before every kernel download |
| VmtestJobs.CompilerPrecedesKernel | vmtest/__main__.py:239-262 | every kernel's own compiler is in the list before it |
| VmtestProgress.AppendCategories | vmtest/__main__.py:65 | `setdefault(...).append` adds a new category at the end and keeps the key order |
| VmtestProgress.AppendNames | vmtest/__main__.py:65 | the name goes at the end of its category's list, and other lists stay unchanged |
| VmtestProgress.GroupedGroups | vmtest/__main__.py:63-65 | the dict has one group per category in first-seen order, each with exactly its names in order, and is empty iff nothing was recorded |
| VmtestProgress.NoFailures | vmtest/__main__.py:48-49 | no failure was recorded iff every result passed |
| VmtestProgress.Colored | vmtest/__main__.py:51-61 | the text is unchanged and coloured only when colour is on |
| VmtestProgress.HeaderLine | vmtest/__main__.py:67-70 | the header is red iff a failure is recorded, green otherwise, and plain without colour |
| VmtestProgress.BlockRows | vmtest/__main__.py:76-83 | the first row carries the tag, later rows are padded, and each row shows one category and its names |
| VmtestProgress.RowsOrder | vmtest/__main__.py:75-92 | the Passed rows come first, one per passed category in dict order, then the Failed rows; an empty dict adds no row |
| VmtestProgress.RenderLayout | vmtest/__main__.py:72-95 | the frame is the header, a blank line, the rows, a blank line and the header again |
| VmtestProgress.ProgressPrinter.constructor | vmtest/__main__.py:35-46 | colour iff the terminal size is known; the header is `#` times the width, or 80 |
| VmtestProgress.ProgressPrinter.Succeeded | vmtest/__main__.py:48-49 | succeeded iff every recorded result passed |
| VmtestProgress.ProgressPrinter.ExitCode | vmtest/__main__.py:380 | the exit status is 0 iff succeeded, else 1 |
| VmtestProgress.ProgressPrinter.PrintBlock | vmtest/__main__.py:76-83 | the loop with its `first` flag prints the block's rows |
| VmtestProgress.ProgressPrinter.Update | vmtest/__main__.py:63-95 | the result goes into exactly one of the two dicts, and the printed lines are the render of the new state |
| VmtestProgress.UpdateStep | vmtest/__main__.py:63-65 | one update appends to exactly one dict |
| VmtestProgress.PrinterRows | vmtest/__main__.py:63-92 | after any run of updates, each block shows its categories in first-seen order with their names in recorded order |
| VmtestRun.UseHostRootfsCases | vmtest/__main__.py:198-206 | never mode never uses the host rootfs; auto mode uses it exactly for the host architecture |
| VmtestRun.ShellQuoteRoundTrip | vmtest/__main__.py:351 | the shell reads `shlex.quote(s)` back as s |
| VmtestRun.ShellQuoteUnchanged | vmtest/__main__.py:351 | quoting leaves s as it is iff s is non-empty and all safe characters |
| VmtestRun.ScriptFor | vmtest/__main__.py:331-346 | host rootfs: `sys.executable` and no `-k` filter; otherwise `/usr/bin/python3` with the two slow tests filtered out; the kdump step iff `_kdump_works`; an unknown architecture is the assertion failure |
| VmtestRun.ScriptExportsPython | vmtest/__main__.py:348-352 | the script exports the quoted interpreter as PYTHON |
| VmtestRun.ScriptPythonReadsBack | vmtest/__main__.py:351 | PYTHON is set to exactly the chosen interpreter |
| VmtestRun.ScriptEndsWithKdump | vmtest/__main__.py:340-359 | the kdump step, if any, is the last thing before `fi` |
| VmtestRun.StatusOf | vmtest/__main__.py:361-379 | a run passes iff it exited with 0; a lost VM fails |
| VmtestRun.KernelRun | vmtest/__main__.py:327-379 | a kernel's result is reported under its architecture and release, or the run stops on an unknown architecture |
| VmtestRun.KernelRunsFailure | vmtest/__main__.py:327-379 | the loop stops iff some kernel's test stops it |
| VmtestRun.KernelRunsOrder | vmtest/__main__.py:327-379 | otherwise every kernel is tested once, in download order, and compilers are skipped |
| VmtestRun.KernelTests | vmtest/__main__.py:327-379 | the loop stops iff some kernel's architecture is unknown to `_kdump_works`; otherwise it reports each kernel in order |
| VmtestRun.ErrSticky | vmtest/__main__.py:327-379 | once the loop has stopped, later downloads change nothing |
| VmtestRun.RunLocalTests | vmtest/__main__.py:279-326 | with `--local`, each architecture's local run is reported in order |
| VmtestRun.RunKernelTests | vmtest/__main__.py:327-379 | the printer records exactly the kernel results `KernelRuns` gives, or the run stops with the assertion |
| VmtestRun.RunTests | vmtest/__main__.py:264-380 | local results, then kernel results, and the exit status is 0 iff all passed |
| Unique.DedupMembers | vmtest/__main__.py:224 | `OrderedDict.fromkeys` keeps exactly the elements, each once |
| Unique.DedupFirstSeenOrder | vmtest/__main__.py:224 | the deduplicated elements keep their first-seen order |
| Unique.DedupOfDistinct | vmtest/__main__.py:224 | a list without repeats is unchanged |
| OptionsHeap.Heap.ListDestroy | libdrgn/debug_info_options.c:27-35 | NULL or the default list frees nothing; any other list is freed with exactly its strings, and the heap stays well formed |
| OptionsHeap.Heap.ListDup | libdrgn/debug_info_options.c:76-96 | a new list with new copies of the same strings in the same order, or NULL with the heap as before |
| OptionsHeap.Heap.CopyStrings | libdrgn/debug_info_options.c:85-95 | each string is copied in order; a failed `strdup` frees every copy so far and the array |
| OptionsHeap.Heap.FreeCopied | libdrgn/debug_info_options.c:87-91 | the clean-up frees exactly the copied strings and the list |
| OptionsHeap.Heap.ListsEqual | libdrgn/debug_info_options.c:200-211 | true iff the two lists have the same strings, pairwise and in number |
| OptionsHeap.DupStep | libdrgn/debug_info_options.c:105-121 | each successful copy keeps every earlier list and its strings |
| DebugInfoOptions.Options.Create | libdrgn/debug_info_options.c:56-65 | NULL when `malloc` fails; otherwise a new record holding every default |
| DebugInfoOptions.Options.constructor | libdrgn/debug_info_options.c:56-65 | the record a successful `malloc` gives, initialised, holds every default |
| DebugInfoOptions.Options.Init | libdrgn/debug_info_options.c:15-25 | every list option holds its default list pointer and every bool its default value |
| DebugInfoOptions.Options.SetBool | libdrgn/debug_info_options.c:147-155 | only that field changes, and the record keeps owning exactly what it owned |
| DebugInfoOptions.BoolWriteOwns | libdrgn/debug_info_options.c:147-155 | writing a bool option keeps the record's ownership invariant over the live lists |
| DebugInfoOptions.Options.SetList | libdrgn/debug_info_options.c:157-176 | the default pointer is stored without a copy; any other list is deep-copied, the old owned list is freed, and the copy replaces it; on failure nothing changes; every other list keeps its strings |
| DebugInfoOptions.Options.DupLists | libdrgn/debug_info_options.c:105-121 | copies every owned list and no default list; on failure the heap is as before |
| DebugInfoOptions.Options.Install | libdrgn/debug_info_options.c:123-136 | each field frees its owned list and takes the copy, the default or src's bool |
| DebugInfoOptions.Options.Copy | libdrgn/debug_info_options.c:98-138 | copying onto itself does nothing; a failed copy changes nothing; otherwise bools and default lists equal src's, and owned lists are fresh lists with src's strings |
| DebugInfoOptions.InstalledOwns | libdrgn/debug_info_options.c:123-136 | after installation the record still owns distinct live lists, none of them a default |
| DebugInfoOptions.FormatBool | libdrgn/debug_info_options.c:236-245 | a default bool is skipped; otherwise `name=True` or `name=False` |
| DebugInfoOptions.AppendTuple | libdrgn/debug_info_options.c:224-233 | the loop appends the strings as a parenthesised list of single-quoted items, unescaped, with a trailing comma for one item |
| DebugInfoOptions.FormatList | libdrgn/debug_info_options.c:213-234 | a list equal to its default is skipped unless it is the directories list; otherwise `name=` and its tuple |
| DebugInfoOptions.Options.FormatField | libdrgn/debug_info_options.c:252-263 | each field is formatted as its kind says |
| DebugInfoOptions.Options.Format | libdrgn/debug_info_options.c:247-271 | the text is the shown options' entries, in declaration order, joined by ", " |
| OptionsFormat.TupleShapes | libdrgn/debug_info_options.c:226-233 | `()` for none, `('a',)` for one, `('a', 'b')` for two |
| OptionsFormat.EmitStep | libdrgn/debug_info_options.c:189-198 | threading the `first` flag joins the shown entries with ", " and puts no separator first |
| OptionsFormat.EmittedMembers | libdrgn/debug_info_options.c:247-267 | an option's entry is in the text iff it is shown |
| OptionsFormat.EmittedAtDefaults | libdrgn/debug_info_options.c:213-245 | with every option at its default, only the always-shown lists remain |
| OptionsFormat.DefaultText | libdrgn/debug_info_options.c:247-271 | fresh options format as `directories=('', '.debug', '/usr/lib/debug')` |

## Left out

- ELF and program access (`libdrgn/orc_info.c`). The libelf section scan, relocations, `read_elf_section`, program memory reads, symbol lookup and the `drgn_object_member` walk of `drgn_read_builtin_orc` (464-530) are not modelled. They are inputs: section sizes, header bytes, symbol addresses, or tables already read.
- The prefer-ORC environment variable. `DRGN_PREFER_ORC_UNWINDER` is a boolean parameter.
- `drgn_program_bswap` and its error. The program's byte order is a boolean parameter.
- `drgn_orc_to_cfi_x86_64` is not part of this model. `FindOrcCfi` models only which entry is handed to it.
- `binary_search.h` is not part of this model. `BinarySearchGt` is specified by its result.
- `qsort_arg` is specified only by its sorted-permutation result. `SortByKey` is one order it may produce.
- Allocation failures in `libdrgn/orc_info.c` (`malloc_array` and the preferred-range vector) are not modelled. The clean-up attributes are not modelled either.
- `OrcFormat.StrToL`: does not model the saturation of `strtol` at LONG_MIN and LONG_MAX. No comparison `orc_version_from_osrelease` makes changes under saturation.
- `OrcModule.OrcModule.ParseOrc`: models the corrected behaviour of both Findings, so it can differ from the code as written in two ways. `OrcModule.ParsedTableAsWritten` gives the code's table, and `OrcModule.AsWrittenAgrees` names the cases where the two agree.
  - When FDEs are present and the prefer-ORC switch is off, any table the check loop (588-594) reorders can give different kept entries and different preferred ranges, because the FDE pass reads slot i at 161, 165 and 169.
  - Whenever the module's previous `orc.bswap` (read at 40, 50 and 69, and set only at 668) is not the program's byte order, the order and the pruning can differ.
- `OrcModule.OrcModule.ParseOrc`: the error path does not keep what the read left. `drgn_module_clear_orc` (524-530) only sets the two table pointers to NULL. `num_entries` (set at 349, before the size check at 351), `pc_base` (the bias is added at 560 even on an error) and `version` (325-333) keep the values the failed read gave them. The model instead empties both arrays and leaves the PC base and the version as they were.
- Processes and VMs (`vmtest/__main__.py`):
  - the subprocess calls, `unshare`/`chroot`, `build_drgn_in_rootfs` and `run_in_vm` are not modelled; test statuses are parameters;
  - `shutil.rmtree`, logging and the GitHub Actions switch are not modelled.
- The download thread. `download_in_thread` and its backpressure are concurrency. The model reads the download list in order.
- `vmtest/config.py` is not part of this model. Its catalogues (architectures, host, flavours, supported versions) are parameters.
- `util.KernelVersion` is not part of this model. It is assumed to order dotted decimal parts lexicographically.
- Command-line parsing. argparse and its usage errors are not modelled.
- Terminal handling. Terminal size is a parameter. ANSI escapes are modelled as colour tags on segments.
- Debug info options teardown and getters. `drgn_debug_info_options_deinit`, `_destroy` and the getters are not modelled. `ListDestroy` models the per-list freeing.
- `ENUM_OPTION` fields and their `type##_format` formatters are left out, because the formatters are not part of this model.
- The `DRGN_DEBUG_INFO_OPTIONS` X-macro list is a parameter.
- `DebugInfoOptions.Options.Format`: does not model a `string_builder` allocation failure (the NULL result).
- Allocation failure in the options code is modelled as a nondeterministic choice at each `malloc`/`strdup`, including the record's own `malloc` in `drgn_debug_info_options_create` (`Create`).
- `DebugInfoOptions.Options.SetList`: the heap invariant it requires says that no string pointer occurs twice in one list or in two lists, and that includes the caller's `value` list. The C setter only reads that list through `list_dup` (168), so it also accepts a caller list that repeats one pointer (`{"a", "a", NULL}` built from one literal). The model cannot express that call.
- `OptionsHeap.Heap.ListDup`: requires the heap invariant for the list it copies, so a list that repeats one string pointer cannot be passed. `drgn_debug_info_options_list_dup` (76-96) only reads its argument and accepts such a list from the setter at 168.

## Findings

| source | as written | input that shows it | evidently intended | confidence | as-written member | corrected member |
|---|---|---|---|---|---|---|
| libdrgn/orc_info.c:161-169 | `remove_fdes_from_orc` computes the start PC, end PC and SP_INDIRECT test from raw slot `i`, but keeps `indices[i]`; after a sort these are different entries | slots at PCs 0x100, 0x0 and 0x180 (sorted order [1, 0, 2]) and one FDE covering [0, 0x80): entry 1, covering [0, 0x100), is dropped although 0x80 is in no FDE | read `drgn_raw_orc_pc(module, indices[i])` and test `indices[i]` for SP_INDIRECT | not executed | OrcFindings.PositionViewDropsUncoveredEntry | OrcFindings.SortedViewKeepsUncoveredEntry |
| libdrgn/orc_info.c:35-43 | the raw getters read `module->orc.bswap`, which `drgn_module_parse_orc` sets only at its end (line 668), so the sort and the FDE removal use the previous byte order | two slots with offsets 1 and 0 in the other byte order (true PCs 0x0100_0000 and 4), previous byte order "no swap": the table seems sorted, is not reordered, and is stored with PCs 0x0100_0000 then 4 | set the byte order before ordering the indices | not executed | OrcFindings.StaleBswapLeavesTableUnsorted | OrcFindings.ProgramBswapSortsTable |
