/**
 * The two version-gated predicates of vmtest/__main__.py: which (kernel version,
 * architecture) pairs are tested at all, and on which kernels the test script also
 * crashes the VM into kdump to test /proc/vmcore.
 *
 * `util.KernelVersion` is not part of this model. It is taken to read the leading dotted
 * decimal parts of a release string ("5.10.0-rc1" reads as 5, 10, 0) and to compare them
 * lexicographically, a missing part being smaller than any present one.
 */
module VmtestVersions {
  import opened Digits
  import opened Results

  /** The dotted decimal parts at the start of a release string. */
  function KernelVersion(s: string): (parts: seq<nat>)
    decreases |s|
  {
    var d := DigitSpan(s);
    if d == 0 then []
    else
      [DigitsValue(s[..d])] + (if d < |s| && s[d] == '.' then KernelVersion(s[d + 1..]) else [])
  }

  /** The release string of dotted parts, as "4.19" for [4, 19]. */
  function RenderVersion(parts: seq<nat>): (s: string)
    requires |parts| > 0
    decreases |parts|
  {
    if |parts| == 1 then Decimal(parts[0]) else Decimal(parts[0]) + "." + RenderVersion(parts[1..])
  }

  /** Reading a rendered version gives its parts back. */
  lemma {:induction false} KernelVersionOfRender(parts: seq<nat>)
    requires |parts| > 0
    ensures KernelVersion(RenderVersion(parts)) == parts
    decreases |parts|
  {
    var ds := Decimal(parts[0]);
    var rest := if |parts| == 1 then "" else "." + RenderVersion(parts[1..]);
    var s := ds + rest;
    assert s == RenderVersion(parts);
    DigitSpanOfDigits(ds, rest);
    assert s[..|ds|] == ds;
    DigitsValueOfDecimal(parts[0]);
    if |parts| > 1 {
      assert s[|ds|] == '.';
      assert s[|ds| + 1..] == RenderVersion(parts[1..]);
      KernelVersionOfRender(parts[1..]);
    }
  }

  /** Lexicographic order of version parts; a proper prefix is smaller. */
  predicate Less(a: seq<nat>, b: seq<nat>)
    decreases |a|
  {
    if |a| == 0 then |b| > 0
    else if |b| == 0 then false
    else a[0] < b[0] || (a[0] == b[0] && Less(a[1..], b[1..]))
  }

  lemma {:induction false} LessTransitive(a: seq<nat>, b: seq<nat>, c: seq<nat>)
    requires Less(a, b) && Less(b, c)
    ensures Less(a, c)
    decreases |a|
  {
    if |a| > 0 && a[0] == b[0] && b[0] == c[0] {
      LessTransitive(a[1..], b[1..], c[1..]);
    }
  }

  lemma {:induction false} LessTotal(a: seq<nat>, b: seq<nat>)
    ensures a == b || Less(a, b) || Less(b, a)
    decreases |a|
  {
    if |a| > 0 && |b| > 0 && a[0] == b[0] {
      LessTotal(a[1..], b[1..]);
      assert a == [a[0]] + a[1..] && b == [b[0]] + b[1..];
    }
  }

  /** "At least t" is kept by any later version. */
  lemma AtLeastUpward(v: seq<nat>, w: seq<nat>, t: seq<nat>)
    requires !Less(v, t) && !Less(w, v)
    ensures !Less(w, t)
  {
    LessTotal(v, w);
    if Less(w, t) && Less(v, w) {
      LessTransitive(v, w, t);
    }
  }

  /** A "major.minor" string reads as [major, minor]. */
  lemma KernelVersionOfMajorMinor(major: nat, minor: nat)
    ensures KernelVersion(Decimal(major) + "." + Decimal(minor)) == [major, minor]
  {
    assert RenderVersion([major, minor]) == Decimal(major) + "." + Decimal(minor);
    KernelVersionOfRender([major, minor]);
  }

  lemma Threshold4_11()
    ensures KernelVersion("4.11") == [4, 11]
  {
    assert Decimal(4) == "4";
    assert Decimal(11) == "11";
    KernelVersionOfMajorMinor(4, 11);
  }

  lemma Threshold4_19()
    ensures KernelVersion("4.19") == [4, 19]
  {
    assert Decimal(4) == "4";
    assert Decimal(19) == "19";
    KernelVersionOfMajorMinor(4, 19);
  }

  lemma Threshold5_10()
    ensures KernelVersion("5.10") == [5, 10]
  {
    assert Decimal(5) == "5";
    assert Decimal(10) == "10";
    KernelVersionOfMajorMinor(5, 10);
  }

  lemma Threshold5_15()
    ensures KernelVersion("5.15") == [5, 15]
  {
    assert Decimal(5) == "5";
    assert Decimal(15) == "15";
    KernelVersionOfMajorMinor(5, 15);
  }

  lemma Threshold6_1()
    ensures KernelVersion("6.1") == [6, 1]
  {
    assert Decimal(6) == "6";
    assert Decimal(1) == "1";
    KernelVersionOfMajorMinor(6, 1);
  }

  /** The thresholds the two predicates compare against, as parsed. */
  lemma Thresholds()
    ensures KernelVersion("4.11") == [4, 11] && KernelVersion("4.19") == [4, 19]
    ensures KernelVersion("5.10") == [5, 10] && KernelVersion("5.15") == [5, 15]
    ensures KernelVersion("6.1") == [6, 1]
  {
    Threshold4_11();
    Threshold4_19();
    Threshold5_10();
    Threshold5_15();
    Threshold6_1();
  }

  /**
   * _kernel_version_is_supported: whether a kernel version is tested on an architecture.
   * The thresholds are the parts of "4.19" and "4.11" (see Thresholds).
   */
  predicate KernelVersionIsSupported(version: string, arch: string) {
    if (arch == "aarch64" || arch == "arm") && Less(KernelVersion(version), [4, 19]) then false
    else if Less(KernelVersion(version), [4, 11]) && arch != "x86_64" then false
    else true
  }

  /**
   * The support threshold per architecture: none on x86_64, 4.19 on AArch64 and Arm, 4.11
   * everywhere else (the 4.11 rule is subsumed by the 4.19 one on AArch64 and Arm).
   */
  lemma SupportedThresholds(version: string, arch: string)
    ensures KernelVersionIsSupported(version, arch) <==>
      if arch == "aarch64" || arch == "arm" then !Less(KernelVersion(version), [4, 19])
      else arch == "x86_64" || !Less(KernelVersion(version), [4, 11])
  {
    var v := KernelVersion(version);
    if Less(v, [4, 11]) {
      assert Less([4, 11], [4, 19]);
      LessTransitive(v, [4, 11], [4, 19]);
    }
  }

  /** Support is upward closed: a later version of a supported one is supported too. */
  lemma SupportedUpward(version: string, later: string, arch: string)
    requires KernelVersionIsSupported(version, arch)
    requires !Less(KernelVersion(later), KernelVersion(version))
    ensures KernelVersionIsSupported(later, arch)
  {
    SupportedThresholds(version, arch);
    SupportedThresholds(later, arch);
    var v := KernelVersion(version);
    var w := KernelVersion(later);
    if arch == "aarch64" || arch == "arm" {
      AtLeastUpward(v, w, [4, 19]);
    } else if arch != "x86_64" {
      AtLeastUpward(v, w, [4, 11]);
    }
  }

  /** The architectures _kdump_works knows. */
  const KDUMP_ARCHITECTURES: seq<string> := ["aarch64", "arm", "ppc64", "s390x", "x86_64"]

  /**
   * _kdump_works: whether the kernel's test script also tests kdump. An architecture the
   * function does not know is an assertion failure, Err(arch), not a false answer. The
   * thresholds are the parts of "5.10", "6.1" and "5.15" (see Thresholds).
   */
  function KdumpWorks(arch: string, release: string): (r: Result<bool, string>)
    ensures r.Err? <==> arch !in KDUMP_ARCHITECTURES
    ensures r.Err? ==> r.error == arch
  {
    if arch == "aarch64" then Ok(!Less(KernelVersion(release), [5, 10]))
    else if arch == "arm" then Ok(false)
    else if arch == "ppc64" then Ok(!Less(KernelVersion(release), [6, 1]))
    else if arch == "s390x" then Ok(!Less(KernelVersion(release), [5, 15]))
    else if arch == "x86_64" then Ok(true)
    else Err(arch)
  }

  /** Kdump support is upward closed in the release on every architecture. */
  lemma KdumpUpward(arch: string, release: string, later: string)
    requires KdumpWorks(arch, release) == Ok(true)
    requires !Less(KernelVersion(later), KernelVersion(release))
    ensures KdumpWorks(arch, later) == Ok(true)
  {
    var v := KernelVersion(release);
    var w := KernelVersion(later);
    if arch == "aarch64" {
      AtLeastUpward(v, w, [5, 10]);
    } else if arch == "ppc64" {
      AtLeastUpward(v, w, [6, 1]);
    } else if arch == "s390x" {
      AtLeastUpward(v, w, [5, 15]);
    }
  }
}
