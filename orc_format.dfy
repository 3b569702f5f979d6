/**
 * The x86-64 ORC unwind tables that the Linux kernel's objtool emits, and the pure parts of
 * reading and normalising them in libdrgn/orc_info.c: the raw getters over the file's arrays,
 * the per-version terminator test, the sort order of entries, the upgrade of version 1 and 2
 * flag words to the version 3 layout, the rebasing of PC offsets, version detection and the
 * section size checks.
 *
 * Widths are explicit: PCs are unsigned 64-bit values (`u64`, arithmetic wrapped by Wrap64),
 * `.orc_unwind_ip` slots are 32-bit two's complement words and ORC flags are 16-bit words.
 * Section reading (libelf, relocations, program memory) is outside the model: its results
 * arrive as sizes, byte strings and word arrays.
 */
module OrcFormat {
  import opened Results
  import opened Digits

  const U32_MOD: int := 0x1_0000_0000
  const U64_MOD: int := 0x1_0000_0000_0000_0000
  const U64_MAX: int := U64_MOD - 1
  /** UINT_MAX of a 32-bit unsigned int, the type of ORC indices. */
  const UINT_MAX: int := U32_MOD - 1

  type u32 = x: int | 0 <= x < U32_MOD
  type u64 = x: int | 0 <= x < U64_MOD

  /** Size in bytes of the version hash held by `.orc_header`. */
  const ORC_HEADER_SIZE: nat := 20
  /** sizeof(int32_t): one `.orc_unwind_ip` slot. */
  const ORC_IP_SIZE: nat := 4
  /** sizeof(struct drgn_orc_entry): sp_offset, bp_offset and flags, 16 bits each. */
  const ORC_ENTRY_SIZE: nat := 6

  // ORC types of the version 3 flag layout (bits 8-10 of the flags word).
  const ORC_TYPE_UNDEFINED: bv16 := 0
  const ORC_TYPE_END_OF_STACK: bv16 := 1
  /** Register code (bits 0-3 of the flags) of the stack-switching pattern of call_on_stack(). */
  const ORC_REG_SP_INDIRECT: bv16 := 9

  /** One `.orc_unwind` entry, byte-identical entries being equal values. */
  datatype Entry = Entry(spOffset: bv16, bpOffset: bv16, flags: bv16)

  /** bswap_16: exchange the two bytes. */
  function Bswap16(x: bv16): (r: bv16)
    ensures (r & 0xff) == x >> 8 && r >> 8 == (x & 0xff)
  {
    (x << 8) | (x >> 8)
  }

  /** bswap_32 on a 32-bit word: reverse its four bytes. */
  function Bswap32(x: u32): u32 {
    var b0, b1, b2, b3 := x % 0x100, (x / 0x100) % 0x100, (x / 0x1_0000) % 0x100, x / 0x100_0000;
    b0 * 0x100_0000 + b1 * 0x1_0000 + b2 * 0x100 + b3
  }

  /** The value of a 32-bit two's complement word (an int32_t). */
  function Int32(x: u32): (r: int)
    ensures -0x8000_0000 <= r < 0x8000_0000
    ensures r % U32_MOD == x
  {
    if x < 0x8000_0000 then x else x - U32_MOD
  }

  /** The low 32 bits of an integer: the conversion of a 64-bit value to int32_t's bits. */
  function Low32(x: int): u32 {
    x % U32_MOD
  }

  /** Unsigned 64-bit wrap-around. */
  function Wrap64(x: int): u64 {
    x % U64_MOD
  }

  /** The uint64_t difference a - b, wrapping below zero. */
  function Sub64(a: u64, b: u64): u64 {
    if a >= b then a - b else a - b + U64_MOD
  }

  /** Sub64 is the wrapped difference. */
  lemma Sub64Wraps(a: u64, b: u64)
    ensures Sub64(a, b) == Wrap64(a - b)
    ensures a >= b ==> Sub64(a, b) == a - b
  {
  }

  /**
   * The ORC arrays as read, before sorting and normalisation: `pcOffsets[i]` and `entries[i]`
   * hold the bytes of slot i, and `bswap` is the byte order the raw getters apply to them.
   */
  datatype RawOrc = RawOrc(pcBase: u64, pcOffsets: seq<u32>, entries: seq<Entry>, version: int, bswap: bool)
  {
    /** The two parallel arrays agree in length and fit unsigned int indices. */
    predicate Valid() {
      |pcOffsets| == |entries| && |entries| <= UINT_MAX
    }
  }

  /** The PC offset of raw slot i, byte-swapped if needed, as a signed value. */
  function RawOffset(raw: RawOrc, i: nat): int
    requires i < |raw.pcOffsets|
  {
    Int32(if raw.bswap then Bswap32(raw.pcOffsets[i]) else raw.pcOffsets[i])
  }

  /** drgn_raw_orc_pc: pc_base + 4*i + offset, wrapped to 64 bits. */
  function RawPc(raw: RawOrc, i: nat): u64
    requires i < |raw.pcOffsets|
  {
    Wrap64(raw.pcBase + 4 * i + RawOffset(raw, i))
  }

  /** The flags word of raw entry i, byte-swapped if needed. */
  function RawFlags(raw: RawOrc, i: nat): bv16
    requires i < |raw.entries|
  {
    if raw.bswap then Bswap16(raw.entries[i].flags) else raw.entries[i].flags
  }

  /**
   * Whether a flags word in the layout of the given version describes a terminator: type
   * UNDEFINED from version 3 on, and an undefined SP register without the end flag before.
   */
  predicate IsTerminatorFlags(flags: bv16, version: int) {
    if version >= 3 then (flags & 0x700) == 0
    else if version == 2 then (flags & 0x80f) == 0
    else (flags & 0x40f) == 0
  }

  /** drgn_raw_orc_entry_is_terminator. */
  predicate RawIsTerminator(raw: RawOrc, i: nat)
    requires i < |raw.entries|
  {
    IsTerminatorFlags(RawFlags(raw, i), raw.version)
  }

  /** drgn_raw_orc_entry_is_preferred: the SP register is SP_INDIRECT. */
  predicate RawIsPreferred(raw: RawOrc, i: nat)
    requires i < |raw.entries|
  {
    (RawFlags(raw, i) & 0xf) == ORC_REG_SP_INDIRECT
  }

  /**
   * The order compare_orc_entries sorts by, as one number: the raw PC first, and on equal PCs
   * a terminator before a real entry.
   */
  function SortKey(raw: RawOrc, i: nat): int
    requires raw.Valid() && i < |raw.entries|
  {
    2 * RawPc(raw, i) + (if RawIsTerminator(raw, i) then 0 else 1)
  }

  /** compare_orc_entries, a three-way comparison of raw entries a and b. */
  function CompareOrcEntries(raw: RawOrc, a: nat, b: nat): (r: int)
    requires raw.Valid() && a < |raw.entries| && b < |raw.entries|
    ensures r < 0 <==> SortKey(raw, a) < SortKey(raw, b)
    ensures r == 0 <==> SortKey(raw, a) == SortKey(raw, b)
    ensures RawPc(raw, a) < RawPc(raw, b) ==> r < 0
    ensures RawPc(raw, a) == RawPc(raw, b) ==> r == (if RawIsTerminator(raw, b) then 1 else 0) - (if RawIsTerminator(raw, a) then 1 else 0)
  {
    var pcA := RawPc(raw, a);
    var pcB := RawPc(raw, b);
    if pcA < pcB then -1
    else if pcA > pcB then 1
    else (if RawIsTerminator(raw, b) then 1 else 0) - (if RawIsTerminator(raw, a) then 1 else 0)
  }

  /** The ORC type field of a version 3 flags word. */
  function OrcType(flags: bv16): bv16 {
    (flags & 0x700) >> 8
  }

  /** The end-of-stack flag of a version 1 or 2 flags word. */
  predicate OldEndFlag(flags: bv16, version: int) {
    if version == 2 then (flags & 0x800) != 0 else (flags & 0x400) != 0
  }

  /**
   * The flags word of one entry rewritten into the version 3 layout. Versions 1 and 2 have
   * a two-bit type (CALL, REGS, REGS_PARTIAL) and an end flag instead of the UNDEFINED and
   * END_OF_STACK types; version 2 has its signal flag in bit 10 and version 1 none at all.
   */
  function UpgradeFlags(flags: bv16, version: int): (r: bv16)
    ensures (r & 0xff) == (flags & 0xff)
    ensures version != 1 && version != 2 ==> r == flags
    ensures version == 2 ==> ((r & 0x800) != 0 <==> (flags & 0x400) != 0)
    ensures version == 1 ==> ((r & 0x800) != 0 <==> (flags & 0x300) != 0)
    ensures version == 1 || version == 2 ==> (r & 0xf000) == 0
    ensures version == 1 || version == 2 ==> (IsTerminatorFlags(r, 3) <==> IsTerminatorFlags(flags, version))
    ensures version == 1 || version == 2 ==>
      OrcType(r) == if IsTerminatorFlags(flags, version) then ORC_TYPE_UNDEFINED
                    else if (flags & 0xf) == 0 && OldEndFlag(flags, version) then ORC_TYPE_END_OF_STACK
                    else ((flags & 0x300) >> 8) + 2
  {
    if version == 2 then
      var orcType: bv16 :=
        if (flags & 0x80f) == 0 then ORC_TYPE_UNDEFINED << 8
        else if (flags & 0x80f) == 0x800 then ORC_TYPE_END_OF_STACK << 8
        else (flags & 0x300) + 0x200;
      var signal := (flags & 0x400) << 1;
      (flags & 0xff) | orcType | signal
    else if version == 1 then
      var orcType: bv16 :=
        if (flags & 0x40f) == 0 then ORC_TYPE_UNDEFINED << 8
        else if (flags & 0x40f) == 0x400 then ORC_TYPE_END_OF_STACK << 8
        else (flags & 0x300) + 0x200;
      var signal: bv16 := if (flags & 0x300) > 0 then 0x800 else 0;
      (flags & 0xff) | orcType | signal
    else
      flags
  }

  /** An entry byte-swapped into host order and upgraded to the version 3 layout. */
  function NormalizeEntry(e: Entry, bswap: bool, version: int): Entry {
    var swapped := if bswap then Entry(Bswap16(e.spOffset), Bswap16(e.bpOffset), Bswap16(e.flags)) else e;
    swapped.(flags := UpgradeFlags(swapped.flags, version))
  }

  /**
   * The PC offset stored for new slot i when it takes raw entry `index` whose signed offset
   * is `offset`: 4*index + offset - 4*i computed in 64 bits and truncated to int32_t.
   */
  function RebasedOffset(offset: int, index: nat, i: nat): u32 {
    Low32(4 * index + offset - 4 * i)
  }

  /** drgn_orc_pc: the PC of slot i of a normalised table. */
  function OrcPc(pcBase: u64, pcOffsets: seq<u32>, i: nat): u64
    requires i < |pcOffsets|
  {
    Wrap64(pcBase + 4 * i + Int32(pcOffsets[i]))
  }

  /**
   * Rebasing keeps the PC: the PC of new slot i agrees with the raw PC of the entry it came
   * from in its low 32 bits, and is equal to it when the rebased offset fits an int32_t.
   */
  lemma RebasePreservesPc(raw: RawOrc, index: nat, i: nat)
    requires index < |raw.pcOffsets|
    ensures var pc := raw.pcBase + 4 * i + Int32(RebasedOffset(RawOffset(raw, index), index, i));
      pc % U32_MOD == RawPc(raw, index) % U32_MOD
    ensures var d := 4 * index + RawOffset(raw, index) - 4 * i;
      -0x8000_0000 <= d < 0x8000_0000 ==>
      Wrap64(raw.pcBase + 4 * i + Int32(RebasedOffset(RawOffset(raw, index), index, i))) == RawPc(raw, index)
  {
    var d := 4 * index + RawOffset(raw, index) - 4 * i;
    var v := Int32(RebasedOffset(RawOffset(raw, index), index, i));
    assert v % U32_MOD == d % U32_MOD;
    ModAddLeft(raw.pcBase + 4 * i, v, d);
    var full := raw.pcBase + 4 * index + RawOffset(raw, index);
    assert raw.pcBase + 4 * i + d == full;
    Mod64Mod32(full);
    if -0x8000_0000 <= d < 0x8000_0000 {
      Int32OfLow32(d);
    }
  }

  /** Congruent summands give congruent sums. */
  lemma ModAddLeft(a: int, v: int, d: int)
    requires v % U32_MOD == d % U32_MOD
    ensures (a + v) % U32_MOD == (a + d) % U32_MOD
  {
    var q := (v - d) / U32_MOD;
    assert v - d == q * U32_MOD;
    assert a + v == (a + d) + q * U32_MOD;
  }

  /** Wrapping to 64 bits keeps the low 32 bits. */
  lemma Mod64Mod32(x: int)
    ensures Wrap64(x) % U32_MOD == x % U32_MOD
  {
    var q := x / U64_MOD;
    assert x == Wrap64(x) + q * U64_MOD;
    assert q * U64_MOD == (q * U32_MOD) * U32_MOD;
  }

  /** Sign extension undoes truncation for values in the int32_t range. */
  lemma Int32OfLow32(d: int)
    requires -0x8000_0000 <= d < 0x8000_0000
    ensures Int32(Low32(d)) == d
  {
  }

  // ---------------------------------------------------------------------------------------
  // Version detection

  /** Hash in `.orc_header` of the version 3 layout (Linux 6.4). */
  const ORC_HASH_6_4: seq<bv8> := [
    0xfe, 0x5d, 0x32, 0xbf, 0x58, 0x1b, 0xd6, 0x3b, 0x2c, 0xa9,
    0xa5, 0xc6, 0x5b, 0xa5, 0xa6, 0x25, 0xea, 0xb3, 0xfe, 0x24]
  /** Hash in `.orc_header` of the version 2 layout (Linux 6.3). */
  const ORC_HASH_6_3: seq<bv8> := [
    0xdb, 0x84, 0xae, 0xd4, 0x10, 0x3b, 0x31, 0xdd, 0x51, 0xe0,
    0x17, 0xf8, 0xf7, 0x97, 0x83, 0xca, 0x98, 0x5c, 0x2c, 0x51]

  /** orc_version_from_header: 3 or 2 for a known hash, -1 for any other header. */
  function OrcVersionFromHeader(header: seq<bv8>): (r: int)
    requires |header| == ORC_HEADER_SIZE
    ensures r == 3 <==> header == ORC_HASH_6_4
    ensures r == 2 <==> header == ORC_HASH_6_3
    ensures r == -1 <==> header != ORC_HASH_6_4 && header != ORC_HASH_6_3
  {
    assert ORC_HASH_6_4[0] != ORC_HASH_6_3[0];
    if header == ORC_HASH_6_4 then 3
    else if header == ORC_HASH_6_3 then 2
    else -1
  }

  predicate IsSpace(c: char) {
    c == ' ' || ('\t' <= c <= '\r')
  }

  /** Number of leading characters of s that satisfy isspace(). */
  function SpaceSpan(s: string): (n: nat)
    ensures n <= |s|
  {
    if |s| > 0 && IsSpace(s[0]) then 1 + SpaceSpan(s[1..]) else 0
  }

  /**
   * strtol(s, &end, 10): leading white space, an optional sign and decimal digits; with no
   * digits the value is 0 and the end is s itself. The value is unbounded here, where strtol
   * saturates at LONG_MIN/LONG_MAX: no comparison made below changes under saturation.
   */
  function StrToL(s: string): (r: (int, string))
    ensures |r.1| <= |s|
  {
    var w := SpaceSpan(s);
    var t := s[w..];
    var signed := |t| > 0 && (t[0] == '+' || t[0] == '-');
    var u := if signed then t[1..] else t;
    var d := DigitSpan(u);
    if d == 0 then (0, s)
    else
      var magnitude: int := DigitsValue(u[..d]);
      (if signed && t[0] == '-' then -magnitude else magnitude, u[d..])
  }

  /** orc_version_from_osrelease: the ORC layout of a kernel release without `.orc_header`. */
  function OrcVersionFromOsrelease(osrelease: string): (r: int)
    ensures 1 <= r <= 3
  {
    var (major, p) := StrToL(osrelease);
    var minor := if |p| > 0 && p[0] == '.' then StrToL(p[1..]).0 else 0;
    ReleaseVersion(major, minor)
  }

  /** The ORC version of kernel release major.minor: 3 from 6.4 on, 2 for 6.3, 1 before. */
  function ReleaseVersion(major: int, minor: int): int {
    if major > 6 || (major == 6 && minor >= 4) then 3
    else if major == 6 && minor == 3 then 2
    else 1
  }

  /** strtol reads exactly the digits of Decimal(n) when no digit follows them. */
  lemma StrToLOfDecimal(n: nat, rest: string)
    requires rest == [] || !IsDigit(rest[0])
    ensures StrToL(Decimal(n) + rest) == (n, rest)
  {
    var s := Decimal(n) + rest;
    var d := |Decimal(n)|;
    assert SpaceSpan(s) == 0;
    assert s[0..] == s;
    DigitSpanOfDigits(Decimal(n), rest);
    assert s[..d] == Decimal(n);
    assert s[d..] == rest;
    DigitsValueOfDecimal(n);
  }

  /** A release "major.minor..." selects the version of major.minor. */
  lemma OsreleaseMajorMinor(major: nat, minor: nat, rest: string)
    requires rest == [] || !IsDigit(rest[0])
    ensures OrcVersionFromOsrelease(Decimal(major) + "." + Decimal(minor) + rest) == ReleaseVersion(major, minor)
  {
    var m := Decimal(minor) + rest;
    var tail := ['.'] + m;
    var s := Decimal(major) + tail;
    ConcatAssoc(Decimal(major), Decimal(minor), rest);
    StrToLOfDecimal(major, tail);
    assert tail[1..] == m;
    StrToLOfDecimal(minor, rest);
    VersionOfParts(s, major, tail, minor);
  }

  lemma ConcatAssoc(a: string, b: string, c: string)
    ensures a + "." + b + c == a + (['.'] + (b + c))
  {
  }

  /** How orc_version_from_osrelease combines the two strtol calls. */
  lemma VersionOfParts(s: string, major: int, p: string, minor: int)
    requires StrToL(s) == (major, p) && |p| > 0 && p[0] == '.' && StrToL(p[1..]).0 == minor
    ensures OrcVersionFromOsrelease(s) == ReleaseVersion(major, minor)
  {
  }

  /** A release with no ".minor" after its major number reads the minor number as 0. */
  lemma OsreleaseMajorOnly(major: nat, rest: string)
    requires rest == [] || (!IsDigit(rest[0]) && rest[0] != '.')
    ensures OrcVersionFromOsrelease(Decimal(major) + rest) == ReleaseVersion(major, 0)
  {
    StrToLOfDecimal(major, rest);
  }

  // ---------------------------------------------------------------------------------------
  // Reading the sections

  datatype OrcError =
    | UnrecognizedHeader          // "unrecognized .orc_header"
    | IpSectionTooLarge           // ".orc_unwind_ip is too large"
    | InvalidSectionSize          // ".orc_unwind_ip and/or .orc_unwind has invalid size"
    | InvalidBuiltinIpRange       // "invalid built-in orc_unwind_ip range"
    | BuiltinIpRangeTooLarge      // "built-in orc_unwind_ip range is too large"
    | InvalidBuiltinUnwindRange   // "invalid built-in orc_unwind range"
    | InvalidBuiltinHeaderSize    // "invalid built-in orc_header size"

  /** What reading found: no ORC, or ORC of a layout version with a number of entries. */
  datatype OrcInfo = NoOrc | Orc(version: int, numEntries: nat)

  /** Whether an `.orc_header` section's contents name a known layout. */
  predicate HeaderRecognized(header: seq<bv8>) {
    |header| == ORC_HEADER_SIZE && OrcVersionFromHeader(header) >= 0
  }

  /**
   * The decisions of drgn_read_orc_sections, given the sizes of the `.orc_unwind_ip` and
   * `.orc_unwind` sections (None when the file lacks one), the contents of `.orc_header`
   * (None when absent) and the kernel release.
   */
  function ReadOrcSections(ipSize: Option<nat>, unwindSize: Option<nat>, header: Option<seq<bv8>>,
                           osrelease: string): (r: Result<OrcInfo, OrcError>)
    ensures ipSize.None? || unwindSize.None? ==> r == Ok(NoOrc)
    ensures ipSize.Some? && unwindSize.Some? && header.Some? && !HeaderRecognized(header.value) ==>
      r == Err(UnrecognizedHeader)
    ensures r.Ok? && r.value.Orc? <==>
      && ipSize.Some? && unwindSize.Some?
      && (header.Some? ==> HeaderRecognized(header.value))
      && ipSize.value / ORC_IP_SIZE <= UINT_MAX
      && ipSize.value % ORC_IP_SIZE == 0 && unwindSize.value % ORC_ENTRY_SIZE == 0
      && unwindSize.value / ORC_ENTRY_SIZE == ipSize.value / ORC_IP_SIZE
    ensures r.Ok? && r.value.Orc? ==>
      && r.value.numEntries * ORC_IP_SIZE == ipSize.value
      && r.value.numEntries * ORC_ENTRY_SIZE == unwindSize.value
      && 1 <= r.value.version <= 3
    ensures r.Ok? && r.value.Orc? && header.Some? ==>
      |header.value| == ORC_HEADER_SIZE && r.value.version == OrcVersionFromHeader(header.value)
    ensures r.Ok? && r.value.Orc? && header.None? ==> r.value.version == OrcVersionFromOsrelease(osrelease)
  {
    if ipSize.None? || unwindSize.None? then Ok(NoOrc)
    else
      var version :=
        if header.Some? then
          (if |header.value| == ORC_HEADER_SIZE then OrcVersionFromHeader(header.value) else -1)
        else OrcVersionFromOsrelease(osrelease);
      if version < 0 then Err(UnrecognizedHeader)
      else
        var numEntries := ipSize.value / ORC_IP_SIZE;
        if numEntries > UINT_MAX then Err(IpSectionTooLarge)
        else if ipSize.value % ORC_IP_SIZE != 0 || unwindSize.value % ORC_ENTRY_SIZE != 0
                || unwindSize.value / ORC_ENTRY_SIZE != numEntries then Err(InvalidSectionSize)
        else Ok(Orc(version, numEntries))
  }

  /**
   * The decisions of drgn_read_vmlinux_orc and copy_builtin_orc_buffers, given the addresses
   * of the __start_/__stop_ symbols (a missing optional header symbol reads as 0) and the 20
   * bytes read from the header's address when it is non-zero.
   */
  function ReadVmlinuxOrc(ipStart: u64, ipEnd: u64, unwindStart: u64, unwindEnd: u64,
                          headerStart: u64, headerEnd: u64, headerData: seq<bv8>,
                          osrelease: string): (r: Result<OrcInfo, OrcError>)
    requires |headerData| == ORC_HEADER_SIZE
    ensures r.Ok? ==> r.value.Orc? && 1 <= r.value.version <= 3
    ensures Wrap64(ipEnd - ipStart) % ORC_IP_SIZE != 0 ==> r == Err(InvalidBuiltinIpRange)
    ensures r.Ok? <==>
      && Wrap64(ipEnd - ipStart) % ORC_IP_SIZE == 0
      && Wrap64(ipEnd - ipStart) / ORC_IP_SIZE <= UINT_MAX
      && Wrap64(unwindEnd - unwindStart) % ORC_ENTRY_SIZE == 0
      && Wrap64(unwindEnd - unwindStart) / ORC_ENTRY_SIZE == Wrap64(ipEnd - ipStart) / ORC_IP_SIZE
      && (headerStart != 0 && headerEnd != 0 ==> Wrap64(headerEnd - headerStart) == ORC_HEADER_SIZE)
      && (headerStart != 0 ==> HeaderRecognized(headerData))
    ensures r.Ok? ==> r.value.numEntries * ORC_IP_SIZE == Wrap64(ipEnd - ipStart)
    ensures r.Ok? && headerStart == 0 ==> r.value.version == OrcVersionFromOsrelease(osrelease)
    ensures r.Ok? && headerStart != 0 ==> r.value.version == OrcVersionFromHeader(headerData)
  {
    var ipLength := Wrap64(ipEnd - ipStart);
    var unwindLength := Wrap64(unwindEnd - unwindStart);
    if ipLength % ORC_IP_SIZE != 0 then Err(InvalidBuiltinIpRange)
    else
      var numEntries := ipLength / ORC_IP_SIZE;
      if numEntries > UINT_MAX then Err(BuiltinIpRangeTooLarge)
      else if unwindLength % ORC_ENTRY_SIZE != 0 || unwindLength / ORC_ENTRY_SIZE != numEntries then
        Err(InvalidBuiltinUnwindRange)
      else if headerStart != 0 && headerEnd != 0 && Wrap64(headerEnd - headerStart) != ORC_HEADER_SIZE then
        Err(InvalidBuiltinHeaderSize)
      else if headerStart != 0 then
        var version := OrcVersionFromHeader(headerData);
        if version < 0 then Err(UnrecognizedHeader) else Ok(Orc(version, numEntries))
      else
        Ok(Orc(OrcVersionFromOsrelease(osrelease), numEntries))
  }
}
