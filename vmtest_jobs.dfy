/**
 * The job bookkeeping of vmtest/__main__.py before anything is downloaded: expanding the
 * `-a` values into architectures, expanding the `-k` selectors into (architecture, kernel
 * pattern) requests, and `add_kernel`, which turns the requests into the download list.
 *
 * Architectures are represented by their names. The catalogues `ARCHITECTURES` (its keys in
 * order), `KERNEL_FLAVORS` (its flavour names, each key being its flavour's name) and
 * `SUPPORTED_KERNEL_VERSIONS` are parameters; vmtest/config.py is not part of this model.
 */
module VmtestJobs {
  import opened Results
  import opened Unique
  import opened VmtestVersions
  import opened Text

  /** The catalogue's architectures other than the host, in catalogue order. */
  function Foreign(catalogue: seq<string>, host: Option<string>): (r: seq<string>)
    ensures forall k :: 0 <= k < |r| ==> r[k] in catalogue && Some(r[k]) != host
    ensures forall k :: 0 <= k < |catalogue| && Some(catalogue[k]) != host ==> catalogue[k] in r
  {
    if |catalogue| == 0 then []
    else
      var prefix := catalogue[..|catalogue| - 1];
      var last := catalogue[|catalogue| - 1];
      assert catalogue == prefix + [last];
      Foreign(prefix, host) + (if Some(last) != host then [last] else [])
  }

  /** The architecture names one `-a` value stands for. */
  function NameExpansion(name: string, catalogue: seq<string>, host: Option<string>): seq<string> {
    if name == "all" then catalogue
    else if name == "foreign" then Foreign(catalogue, host)
    else [name]
  }

  /** architecture_names after the loop over the given `-a` values. */
  function Expansion(names: seq<string>, catalogue: seq<string>, host: Option<string>): seq<string> {
    if |names| == 0 then []
    else Expansion(names[..|names| - 1], catalogue, host) + NameExpansion(names[|names| - 1], catalogue, host)
  }

  /** The architectures to test: the expansion without repeats, or the host alone without `-a`. */
  function ArchitectureList(flag: Option<seq<string>>, catalogue: seq<string>, host: Option<string>): seq<string>
    requires flag.None? ==> host.Some?
  {
    if flag.None? then [host.value] else Dedup(Expansion(flag.value, catalogue, host))
  }

  /**
   * The architecture loop and OrderedDict.fromkeys. Without `-a` the host must exist:
   * argparse makes the flag required when it does not.
   */
  method ExpandArchitectures(flag: Option<seq<string>>, catalogue: seq<string>, host: Option<string>)
    returns (architectures: seq<string>)
    requires flag.None? ==> host.Some?
    ensures architectures == ArchitectureList(flag, catalogue, host)
  {
    if flag.None? {
      return [host.value];
    }
    var names := flag.value;
    var architectureNames: seq<string> := [];
    var i := 0;
    while i < |names|
      invariant 0 <= i <= |names|
      invariant architectureNames == Expansion(names[..i], catalogue, host)
    {
      var name := names[i];
      if name == "all" {
        architectureNames := architectureNames + catalogue;
      } else if name == "foreign" {
        architectureNames := architectureNames + Foreign(catalogue, host);
      } else {
        architectureNames := architectureNames + [name];
      }
      assert names[..i + 1][..i] == names[..i];
      i := i + 1;
    }
    assert names[..|names|] == names;
    architectures := Dedup(architectureNames);
  }

  /** An architecture is in the expansion iff some `-a` value stands for it. */
  lemma {:induction false} ExpansionMembers(names: seq<string>, catalogue: seq<string>, host: Option<string>, a: string)
    ensures a in Expansion(names, catalogue, host) <==>
      exists k :: 0 <= k < |names| && a in NameExpansion(names[k], catalogue, host)
  {
    if |names| > 0 {
      var prefix := names[..|names| - 1];
      var e := Expansion(prefix, catalogue, host);
      var x := NameExpansion(names[|names| - 1], catalogue, host);
      assert Expansion(names, catalogue, host) == e + x;
      ExpansionMembers(prefix, catalogue, host, a);
      if exists k :: 0 <= k < |prefix| && a in NameExpansion(prefix[k], catalogue, host) {
        var k :| 0 <= k < |prefix| && a in NameExpansion(prefix[k], catalogue, host);
        assert names[k] == prefix[k];
      }
      if exists k :: 0 <= k < |names| && a in NameExpansion(names[k], catalogue, host) {
        var k :| 0 <= k < |names| && a in NameExpansion(names[k], catalogue, host);
        if k < |prefix| {
          assert names[k] == prefix[k];
        }
      }
    }
  }

  /**
   * With `-a all`, every catalogue architecture is tested; if every value names `all`,
   * `foreign` or a catalogue entry, nothing outside the catalogue is.
   */
  lemma AllArchitectures(names: seq<string>, catalogue: seq<string>, host: Option<string>)
    requires "all" in names
    ensures forall a :: a in catalogue ==> a in ArchitectureList(Some(names), catalogue, host)
    ensures (forall k :: 0 <= k < |names| ==> names[k] == "all" || names[k] == "foreign" || names[k] in catalogue) ==>
      forall a :: a in ArchitectureList(Some(names), catalogue, host) ==> a in catalogue
  {
    var e := Expansion(names, catalogue, host);
    DedupMembers(e);
    var k :| 0 <= k < |names| && names[k] == "all";
    forall a | a in catalogue ensures a in ArchitectureList(Some(names), catalogue, host) {
      ExpansionMembers(names, catalogue, host, a);
    }
    if forall k :: 0 <= k < |names| ==> names[k] == "all" || names[k] == "foreign" || names[k] in catalogue {
      forall a | a in ArchitectureList(Some(names), catalogue, host) ensures a in catalogue {
        ExpansionMembers(names, catalogue, host, a);
      }
    }
  }

  /** `-a all` alone tests the catalogue in catalogue order. */
  lemma OnlyAll(catalogue: seq<string>, host: Option<string>)
    requires NoDuplicates(catalogue)
    ensures ArchitectureList(Some(["all"]), catalogue, host) == catalogue
  {
    assert ["all"][..0] == [];
    assert Expansion(["all"], catalogue, host) == catalogue;
    DedupOfDistinct(catalogue);
  }

  /** `-a foreign` alone tests every catalogue architecture but the host, in catalogue order. */
  lemma OnlyForeign(catalogue: seq<string>, host: Option<string>)
    requires NoDuplicates(catalogue)
    ensures ArchitectureList(Some(["foreign"]), catalogue, host) == Foreign(catalogue, host)
    ensures host.Some? ==> host.value !in ArchitectureList(Some(["foreign"]), catalogue, host)
  {
    assert ["foreign"][..0] == [];
    assert Expansion(["foreign"], catalogue, host) == Foreign(catalogue, host);
    ForeignDistinct(catalogue, host);
    DedupOfDistinct(Foreign(catalogue, host));
  }

  lemma {:induction false} ForeignDistinct(catalogue: seq<string>, host: Option<string>)
    requires NoDuplicates(catalogue)
    ensures NoDuplicates(Foreign(catalogue, host))
  {
    if |catalogue| > 0 {
      var prefix := catalogue[..|catalogue| - 1];
      var last := catalogue[|catalogue| - 1];
      assert NoDuplicates(prefix);
      ForeignDistinct(prefix, host);
      assert last !in prefix;
    }
  }

  /** The keys add_kernel has seen after a sequence of requests. */
  ghost function SeenKernels(reqs: seq<(string, string)>): set<(string, string)> {
    set r | r in reqs
  }

  /** The architectures add_kernel has seen after a sequence of requests. */
  ghost function SeenArches(reqs: seq<(string, string)>): set<string> {
    set r | r in reqs :: r.0
  }

  /** One entry of the download list. */
  datatype Download = DownloadCompiler(arch: string) | DownloadKernel(arch: string, pattern: string)

  /** The architecture of each request, in order. */
  function ArchesOf(reqs: seq<(string, string)>): (r: seq<string>)
    ensures |r| == |reqs| && forall k :: 0 <= k < |r| ==> r[k] == reqs[k].0
  {
    seq(|reqs|, k requires 0 <= k < |reqs| => reqs[k].0)
  }

  /** A compiler download per architecture, in order. */
  function CompilerJobs(archs: seq<string>): (r: seq<Download>)
    ensures |r| == |archs| && forall k :: 0 <= k < |r| ==> r[k] == DownloadCompiler(archs[k])
  {
    seq(|archs|, k requires 0 <= k < |archs| => DownloadCompiler(archs[k]))
  }

  /** A kernel download per (architecture, pattern) request, in order. */
  function KernelJobs(reqs: seq<(string, string)>): (r: seq<Download>)
    ensures |r| == |reqs| && forall k :: 0 <= k < |r| ==> r[k] == DownloadKernel(reqs[k].0, reqs[k].1)
  {
    seq(|reqs|, k requires 0 <= k < |reqs| => DownloadKernel(reqs[k].0, reqs[k].1))
  }

  /**
   * The download list that add_kernel builds from a sequence of requests: a compiler for each
   * architecture in the order first requested, then each distinct request's kernel in the
   * order first requested.
   */
  function Schedule(reqs: seq<(string, string)>): seq<Download> {
    CompilerJobs(Dedup(ArchesOf(reqs))) + KernelJobs(Dedup(reqs))
  }

  /** The state of add_kernel: seen_arches, seen_kernels, to_download and kernels. */
  class JobPlanner {
    var seenArches: set<string>
    var seenKernels: set<(string, string)>
    var toDownload: seq<Download>
    var kernels: seq<Download>
    /** Every (architecture, pattern) passed to AddKernel so far. */
    ghost var requests: seq<(string, string)>

    ghost predicate Valid()
      reads this
    {
      && seenKernels == SeenKernels(requests)
      && seenArches == SeenArches(requests)
      && toDownload == CompilerJobs(Dedup(ArchesOf(requests)))
      && kernels == KernelJobs(Dedup(requests))
    }

    constructor()
      ensures Valid() && requests == []
    {
      seenArches := {};
      seenKernels := {};
      toDownload := [];
      kernels := [];
      requests := [];
    }

    /** add_kernel: a request not seen before adds its kernel, and its compiler if its architecture is new. */
    method AddKernel(arch: string, pattern: string)
      requires Valid()
      modifies this
      ensures Valid() && requests == old(requests) + [(arch, pattern)]
    {
      AddKernelStep(requests, arch, pattern);
      var key := (arch, pattern);
      if key !in seenKernels {
        seenKernels := seenKernels + {key};
        if arch !in seenArches {
          seenArches := seenArches + {arch};
          toDownload := toDownload + [DownloadCompiler(arch)];
        }
        kernels := kernels + [DownloadKernel(arch, pattern)];
      }
      requests := requests + [key];
    }

    /** A kernel of every flavour for one architecture and version. */
    method AddFlavorJobs(arch: string, version: string, flavors: seq<string>)
      requires Valid()
      modifies this
      ensures Valid() && requests == old(requests) + FlavorRequests(arch, version, flavors)
    {
      var i := 0;
      while i < |flavors|
        invariant 0 <= i <= |flavors|
        invariant Valid() && requests == old(requests) + FlavorRequests(arch, version, flavors[..i])
      {
        AddKernel(arch, version + ".*" + flavors[i]);
        FlavorRequestsStep(old(requests), arch, version, flavors, i, requests);
        i := i + 1;
      }
      assert flavors[..|flavors|] == flavors;
    }

    /** The architecture loop of one version: the flavour jobs of each architecture that supports it. */
    method AddArchJobs(supported: (string, string) -> bool, version: string, archs: seq<string>, flavors: seq<string>)
      requires Valid()
      modifies this
      ensures Valid() && requests == old(requests) + ArchRequests(supported, version, archs, flavors)
    {
      var i := 0;
      while i < |archs|
        invariant 0 <= i <= |archs|
        invariant Valid() && requests == old(requests) + ArchRequests(supported, version, archs[..i], flavors)
      {
        if supported(version, archs[i]) {
          AddFlavorJobs(archs[i], version, flavors);
        }
        ArchRequestsStep(supported, old(requests), version, archs, flavors, i, requests);
        i := i + 1;
      }
      assert archs[..|archs|] == archs;
    }

    /** The version loop of `-k all` or `-k FLAVOR`. */
    method AddVersionJobs(supported: (string, string) -> bool, versions: seq<string>, archs: seq<string>, flavors: seq<string>)
      requires Valid()
      modifies this
      ensures Valid() && requests == old(requests) + VersionRequests(supported, versions, archs, flavors)
    {
      var i := 0;
      while i < |versions|
        invariant 0 <= i <= |versions|
        invariant Valid() && requests == old(requests) + VersionRequests(supported, versions[..i], archs, flavors)
      {
        AddArchJobs(supported, versions[i], archs, flavors);
        VersionRequestsStep(supported, old(requests), versions, archs, flavors, i, requests);
        i := i + 1;
      }
      assert versions[..|versions|] == versions;
    }

    /** A literal pattern: one job per architecture, unfiltered. */
    method AddLiteralJobs(archs: seq<string>, pattern: string)
      requires Valid()
      modifies this
      ensures Valid() && requests == old(requests) + LiteralRequests(archs, pattern)
    {
      var i := 0;
      while i < |archs|
        invariant 0 <= i <= |archs|
        invariant Valid() && requests == old(requests) + LiteralRequests(archs[..i], pattern)
      {
        AddKernel(archs[i], pattern);
        LiteralRequestsStep(old(requests), archs, pattern, i, requests);
        i := i + 1;
      }
      assert archs[..|archs|] == archs;
    }

    /** One `-k` value. */
    method AddSelector(supported: (string, string) -> bool, pattern: string, versions: seq<string>, flavors: seq<string>, archs: seq<string>)
      requires Valid()
      modifies this
      ensures Valid() && requests == old(requests) + SelectorRequests(supported, pattern, versions, flavors, archs)
    {
      if pattern == "all" {
        AddVersionJobs(supported, versions, archs, flavors);
      } else if pattern in flavors {
        AddVersionJobs(supported, versions, archs, [pattern]);
      } else {
        AddLiteralJobs(archs, pattern);
      }
    }

    /** The loop over the `-k` values. */
    method AddSelectors(supported: (string, string) -> bool, patterns: seq<string>, versions: seq<string>, flavors: seq<string>, archs: seq<string>)
      requires Valid()
      modifies this
      ensures Valid() && requests == old(requests) + SelectorsRequests(supported, patterns, versions, flavors, archs)
    {
      var i := 0;
      while i < |patterns|
        invariant 0 <= i <= |patterns|
        invariant Valid() && requests == old(requests) + SelectorsRequests(supported, patterns[..i], versions, flavors, archs)
      {
        AddSelector(supported, patterns[i], versions, flavors, archs);
        SelectorsRequestsStep(supported, old(requests), patterns, versions, flavors, archs, i, requests);
        i := i + 1;
      }
      assert patterns[..|patterns|] == patterns;
    }
  }

  /** One more flavour extends the flavour loop's requests by its pattern. */
  lemma FlavorRequestsStep(start: seq<(string, string)>, arch: string, version: string, flavors: seq<string>,
                            i: nat, reqs: seq<(string, string)>)
    requires i < |flavors|
    requires reqs == start + FlavorRequests(arch, version, flavors[..i]) + [(arch, version + ".*" + flavors[i])]
    ensures reqs == start + FlavorRequests(arch, version, flavors[..i + 1])
  {
    assert FlavorRequests(arch, version, flavors[..i + 1])
      == FlavorRequests(arch, version, flavors[..i]) + [(arch, version + ".*" + flavors[i])];
  }

  lemma ArchRequestsStep(supported: (string, string) -> bool, start: seq<(string, string)>, version: string, archs: seq<string>, flavors: seq<string>,
                         i: nat, reqs: seq<(string, string)>)
    requires i < |archs|
    requires reqs == start + ArchRequests(supported, version, archs[..i], flavors)
      + (if supported(version, archs[i]) then FlavorRequests(archs[i], version, flavors) else [])
    ensures reqs == start + ArchRequests(supported, version, archs[..i + 1], flavors)
  {
    var p := archs[..i + 1];
    assert p[..|p| - 1] == archs[..i];
    var a := ArchRequests(supported, version, archs[..i], flavors);
    var b := if supported(version, archs[i]) then FlavorRequests(archs[i], version, flavors) else [];
    assert ArchRequests(supported, version, p, flavors) == a + b;
    Assoc(start, a, b);
  }

  lemma VersionRequestsStep(supported: (string, string) -> bool, start: seq<(string, string)>, versions: seq<string>, archs: seq<string>, flavors: seq<string>,
                            i: nat, reqs: seq<(string, string)>)
    requires i < |versions|
    requires reqs == start + VersionRequests(supported, versions[..i], archs, flavors) + ArchRequests(supported, versions[i], archs, flavors)
    ensures reqs == start + VersionRequests(supported, versions[..i + 1], archs, flavors)
  {
    var p := versions[..i + 1];
    assert p[..|p| - 1] == versions[..i];
    var a := VersionRequests(supported, versions[..i], archs, flavors);
    var b := ArchRequests(supported, versions[i], archs, flavors);
    assert VersionRequests(supported, p, archs, flavors) == a + b;
    Assoc(start, a, b);
  }

  lemma LiteralRequestsStep(start: seq<(string, string)>, archs: seq<string>, pattern: string, i: nat, reqs: seq<(string, string)>)
    requires i < |archs|
    requires reqs == start + LiteralRequests(archs[..i], pattern) + [(archs[i], pattern)]
    ensures reqs == start + LiteralRequests(archs[..i + 1], pattern)
  {
    assert LiteralRequests(archs[..i + 1], pattern) == LiteralRequests(archs[..i], pattern) + [(archs[i], pattern)];
  }

  lemma SelectorsRequestsStep(supported: (string, string) -> bool, start: seq<(string, string)>, patterns: seq<string>, versions: seq<string>, flavors: seq<string>,
                              archs: seq<string>, i: nat, reqs: seq<(string, string)>)
    requires i < |patterns|
    requires reqs == start + SelectorsRequests(supported, patterns[..i], versions, flavors, archs) + SelectorRequests(supported, patterns[i], versions, flavors, archs)
    ensures reqs == start + SelectorsRequests(supported, patterns[..i + 1], versions, flavors, archs)
  {
    var p := patterns[..i + 1];
    assert p[..|p| - 1] == patterns[..i];
    var a := SelectorsRequests(supported, patterns[..i], versions, flavors, archs);
    var b := SelectorRequests(supported, patterns[i], versions, flavors, archs);
    assert SelectorsRequests(supported, p, versions, flavors, archs) == a + b;
    Assoc(start, a, b);
  }

  /**
   * One add_kernel call on the state of reqs yields the state of reqs + [(arch, pattern)]:
   * a new key adds its kernel, and a new architecture (whose key is then new too) its compiler.
   */
  lemma AddKernelStep(reqs: seq<(string, string)>, arch: string, pattern: string)
    ensures SeenKernels(reqs + [(arch, pattern)]) == SeenKernels(reqs) + {(arch, pattern)}
    ensures SeenArches(reqs + [(arch, pattern)]) == SeenArches(reqs) + {arch}
    ensures (arch, pattern) in SeenKernels(reqs) ==> arch in SeenArches(reqs)
    ensures CompilerJobs(Dedup(ArchesOf(reqs + [(arch, pattern)]))) ==
      if arch in SeenArches(reqs) then CompilerJobs(Dedup(ArchesOf(reqs)))
      else CompilerJobs(Dedup(ArchesOf(reqs))) + [DownloadCompiler(arch)]
    ensures KernelJobs(Dedup(reqs + [(arch, pattern)])) ==
      if (arch, pattern) in SeenKernels(reqs) then KernelJobs(Dedup(reqs))
      else KernelJobs(Dedup(reqs)) + [DownloadKernel(arch, pattern)]
  {
    var key := (arch, pattern);
    SeenStep(reqs, key);
    SeenArchesOf(reqs, arch);
    if key in SeenKernels(reqs) {
      var k :| 0 <= k < |reqs| && reqs[k] == key;
      assert ArchesOf(reqs)[k] == arch;
    }
    CompilerJobsStep(reqs, arch, pattern);
    KernelJobsStep(reqs, key);
  }

  lemma SeenStep(reqs: seq<(string, string)>, key: (string, string))
    ensures SeenKernels(reqs + [key]) == SeenKernels(reqs) + {key}
    ensures SeenArches(reqs + [key]) == SeenArches(reqs) + {key.0}
  {
  }

  /** SeenArches holds exactly the architectures of the requests. */
  lemma SeenArchesOf(reqs: seq<(string, string)>, arch: string)
    ensures arch in SeenArches(reqs) <==> arch in ArchesOf(reqs)
  {
    var archs := ArchesOf(reqs);
    if arch in SeenArches(reqs) {
      var r :| r in reqs && r.0 == arch;
      var k :| 0 <= k < |reqs| && reqs[k] == r;
      assert archs[k] == arch;
    }
    if arch in archs {
      var k :| 0 <= k < |archs| && archs[k] == arch;
      assert reqs[k] in reqs;
    }
  }

  lemma CompilerJobsStep(reqs: seq<(string, string)>, arch: string, pattern: string)
    ensures CompilerJobs(Dedup(ArchesOf(reqs + [(arch, pattern)]))) ==
      if arch in ArchesOf(reqs) then CompilerJobs(Dedup(ArchesOf(reqs)))
      else CompilerJobs(Dedup(ArchesOf(reqs))) + [DownloadCompiler(arch)]
  {
    var archs := ArchesOf(reqs);
    assert ArchesOf(reqs + [(arch, pattern)]) == archs + [arch];
    DedupSnoc(archs, arch);
    var d := Dedup(archs);
    assert CompilerJobs(d + [arch]) == CompilerJobs(d) + [DownloadCompiler(arch)];
  }

  lemma KernelJobsStep(reqs: seq<(string, string)>, key: (string, string))
    ensures KernelJobs(Dedup(reqs + [key])) ==
      if key in reqs then KernelJobs(Dedup(reqs)) else KernelJobs(Dedup(reqs)) + [DownloadKernel(key.0, key.1)]
  {
    DedupSnoc(reqs, key);
    var e := Dedup(reqs);
    assert KernelJobs(e + [key]) == KernelJobs(e) + [DownloadKernel(key.0, key.1)];
  }

  /** The kernel pattern of a version and flavour. */
  function Pattern(version: string, flavor: string): string {
    version + ".*" + flavor
  }

  function FlavorRequests(arch: string, version: string, flavors: seq<string>): (r: seq<(string, string)>)
    ensures |r| == |flavors| && forall j :: 0 <= j < |r| ==> r[j] == (arch, Pattern(version, flavors[j]))
  {
    seq(|flavors|, j requires 0 <= j < |flavors| => (arch, Pattern(version, flavors[j])))
  }

  function ArchRequests(supported: (string, string) -> bool, version: string, archs: seq<string>, flavors: seq<string>): seq<(string, string)> {
    if |archs| == 0 then []
    else
      var last := archs[|archs| - 1];
      ArchRequests(supported, version, archs[..|archs| - 1], flavors)
        + (if supported(version, last) then FlavorRequests(last, version, flavors) else [])
  }

  function VersionRequests(supported: (string, string) -> bool, versions: seq<string>, archs: seq<string>, flavors: seq<string>): seq<(string, string)> {
    if |versions| == 0 then []
    else VersionRequests(supported, versions[..|versions| - 1], archs, flavors) + ArchRequests(supported, versions[|versions| - 1], archs, flavors)
  }

  function LiteralRequests(archs: seq<string>, pattern: string): (r: seq<(string, string)>)
    ensures |r| == |archs| && forall k :: 0 <= k < |r| ==> r[k] == (archs[k], pattern)
  {
    seq(|archs|, k requires 0 <= k < |archs| => (archs[k], pattern))
  }

  /** The requests one `-k` value makes: `all`, a flavour name, or a literal pattern. */
  function SelectorRequests(supported: (string, string) -> bool, pattern: string, versions: seq<string>, flavors: seq<string>, archs: seq<string>): seq<(string, string)> {
    if pattern == "all" then VersionRequests(supported, versions, archs, flavors)
    else if pattern in flavors then VersionRequests(supported, versions, archs, [pattern])
    else LiteralRequests(archs, pattern)
  }

  function SelectorsRequests(supported: (string, string) -> bool, patterns: seq<string>, versions: seq<string>, flavors: seq<string>, archs: seq<string>): seq<(string, string)> {
    if |patterns| == 0 then []
    else
      SelectorsRequests(supported, patterns[..|patterns| - 1], versions, flavors, archs)
        + SelectorRequests(supported, patterns[|patterns| - 1], versions, flavors, archs)
  }

  /** The download list of the whole run: every `-k` value's requests through add_kernel, then to_download.extend(kernels). */
  method PlanDownloads(patterns: Option<seq<string>>, versions: seq<string>, flavors: seq<string>, archs: seq<string>)
    returns (downloads: seq<Download>)
    ensures downloads == Schedule(if patterns.Some? then SelectorsRequests(KernelVersionIsSupported, patterns.value, versions, flavors, archs) else [])
  {
    var planner := new JobPlanner();
    if patterns.Some? {
      planner.AddSelectors(KernelVersionIsSupported, patterns.value, versions, flavors, archs);
      assert planner.requests == SelectorsRequests(KernelVersionIsSupported, patterns.value, versions, flavors, archs);
    }
    downloads := planner.toDownload + planner.kernels;
  }

  /** p is the pattern of the version in one of the flavours. */
  predicate PatternOf(p: string, version: string, flavors: seq<string>) {
    exists j :: 0 <= j < |flavors| && p == Pattern(version, flavors[j])
  }

  /** r pairs one of the architectures with a version supported on it, in one of the flavours. */
  predicate VersionRequested(supported: (string, string) -> bool, r: (string, string), versions: seq<string>, archs: seq<string>, flavors: seq<string>) {
    r.0 in archs && exists i :: 0 <= i < |versions| && supported(versions[i], r.0) && PatternOf(r.1, versions[i], flavors)
  }

  /** One version's requests: every flavour on each architecture that supports the version. */
  lemma {:induction false} ArchRequestsMembers(supported: (string, string) -> bool, version: string, archs: seq<string>, flavors: seq<string>, r: (string, string))
    ensures r in ArchRequests(supported, version, archs, flavors) <==>
      r.0 in archs && supported(version, r.0) && PatternOf(r.1, version, flavors)
  {
    if |archs| > 0 {
      var prefix := archs[..|archs| - 1];
      var last := archs[|archs| - 1];
      assert archs == prefix + [last];
      ArchRequestsMembers(supported, version, prefix, flavors, r);
      var tail := if supported(version, last) then FlavorRequests(last, version, flavors) else [];
      assert ArchRequests(supported, version, archs, flavors) == ArchRequests(supported, version, prefix, flavors) + tail;
      if r in tail {
        var j :| 0 <= j < |tail| && tail[j] == r;
        assert r.1 == Pattern(version, flavors[j]);
      }
      if r.0 == last && supported(version, r.0) && PatternOf(r.1, version, flavors) {
        var j :| 0 <= j < |flavors| && r.1 == Pattern(version, flavors[j]);
        assert tail[j] == r;
      }
    }
  }

  /**
   * The requests of a version loop: (a, v.*f) for every version v, architecture a and
   * flavour f such that v is supported on a.
   */
  lemma VersionRequestsMembers(supported: (string, string) -> bool, versions: seq<string>, archs: seq<string>, flavors: seq<string>, r: (string, string))
    ensures r in VersionRequests(supported, versions, archs, flavors) <==> VersionRequested(supported, r, versions, archs, flavors)
  {
    if r in VersionRequests(supported, versions, archs, flavors) {
      VersionRequestsSound(supported, versions, archs, flavors, r);
    }
    if VersionRequested(supported, r, versions, archs, flavors) {
      VersionRequestsComplete(supported, versions, archs, flavors, r);
    }
  }

  lemma {:induction false} VersionRequestsSound(supported: (string, string) -> bool, versions: seq<string>, archs: seq<string>, flavors: seq<string>, r: (string, string))
    requires r in VersionRequests(supported, versions, archs, flavors)
    ensures VersionRequested(supported, r, versions, archs, flavors)
  {
    var prefix := versions[..|versions| - 1];
    var last := versions[|versions| - 1];
    assert VersionRequests(supported, versions, archs, flavors) == VersionRequests(supported, prefix, archs, flavors) + ArchRequests(supported, last, archs, flavors);
    if r in VersionRequests(supported, prefix, archs, flavors) {
      VersionRequestsSound(supported, prefix, archs, flavors, r);
      var i :| 0 <= i < |prefix| && supported(prefix[i], r.0) && PatternOf(r.1, prefix[i], flavors);
      assert versions[i] == prefix[i];
    } else {
      ArchRequestsMembers(supported, last, archs, flavors, r);
      assert versions[|versions| - 1] == last;
    }
  }

  lemma {:induction false} VersionRequestsComplete(supported: (string, string) -> bool, versions: seq<string>, archs: seq<string>, flavors: seq<string>, r: (string, string))
    requires VersionRequested(supported, r, versions, archs, flavors)
    ensures r in VersionRequests(supported, versions, archs, flavors)
  {
    var prefix := versions[..|versions| - 1];
    var last := versions[|versions| - 1];
    var a := VersionRequests(supported, prefix, archs, flavors);
    var b := ArchRequests(supported, last, archs, flavors);
    assert VersionRequests(supported, versions, archs, flavors) == a + b;
    var i :| 0 <= i < |versions| && supported(versions[i], r.0) && PatternOf(r.1, versions[i], flavors);
    if i < |prefix| {
      assert prefix[i] == versions[i];
      assert VersionRequested(supported, r, prefix, archs, flavors);
      VersionRequestsComplete(supported, prefix, archs, flavors, r);
      assert r in a;
    } else {
      assert versions[i] == last;
      ArchRequestsMembers(supported, last, archs, flavors, r);
      assert r in b;
    }
  }

  /** `-k all`: every supported (version, architecture) pair in every flavour. */
  lemma AllSelector(supported: (string, string) -> bool, versions: seq<string>, flavors: seq<string>, archs: seq<string>, r: (string, string))
    ensures r in SelectorRequests(supported, "all", versions, flavors, archs) <==> VersionRequested(supported, r, versions, archs, flavors)
  {
    VersionRequestsMembers(supported, versions, archs, flavors, r);
  }

  /** `-k FLAVOR`: every supported (version, architecture) pair in that flavour only. */
  lemma FlavorSelector(supported: (string, string) -> bool, flavor: string, versions: seq<string>, flavors: seq<string>, archs: seq<string>, r: (string, string))
    requires flavor != "all" && flavor in flavors
    ensures r in SelectorRequests(supported, flavor, versions, flavors, archs) <==>
      r.0 in archs && exists i :: 0 <= i < |versions| && supported(versions[i], r.0) && r.1 == Pattern(versions[i], flavor)
  {
    VersionRequestsMembers(supported, versions, archs, [flavor], r);
    forall v ensures PatternOf(r.1, v, [flavor]) <==> r.1 == Pattern(v, flavor) {
      if r.1 == Pattern(v, flavor) {
        assert r.1 == Pattern(v, [flavor][0]);
      }
    }
  }

  /** Any other `-k` value: the pattern itself on every architecture, with no version filter. */
  lemma LiteralSelector(supported: (string, string) -> bool, pattern: string, versions: seq<string>, flavors: seq<string>, archs: seq<string>)
    requires pattern != "all" && pattern !in flavors
    ensures var r := SelectorRequests(supported, pattern, versions, flavors, archs);
      |r| == |archs| && forall k :: 0 <= k < |archs| ==> r[k] == (archs[k], pattern)
  {
  }

  /** Every entry of the download list is there once. */
  lemma ScheduleDistinct(reqs: seq<(string, string)>)
    ensures NoDuplicates(Schedule(reqs))
  {
    var archs := Dedup(ArchesOf(reqs));
    var kernels := Dedup(reqs);
    DedupMembers(ArchesOf(reqs));
    DedupMembers(reqs);
    var c := CompilerJobs(archs);
    var k := KernelJobs(kernels);
    var s := Schedule(reqs);
    assert forall m :: 0 <= m < |c| ==> s[m] == DownloadCompiler(archs[m]);
    assert forall m :: |c| <= m < |s| ==> s[m] == DownloadKernel(kernels[m - |c|].0, kernels[m - |c|].1);
    forall i, j | 0 <= i < j < |s| ensures s[i] != s[j] {
      if j < |c| {
        assert archs[i] != archs[j];
      } else if i >= |c| {
        assert kernels[i - |c|] != kernels[j - |c|];
      }
    }
  }

  /** The list holds a kernel download iff it was requested, and a compiler iff its architecture was. */
  lemma ScheduleMembers(reqs: seq<(string, string)>, d: Download)
    ensures d.DownloadKernel? ==> (d in Schedule(reqs) <==> (d.arch, d.pattern) in reqs)
    ensures d.DownloadCompiler? ==> (d in Schedule(reqs) <==> d.arch in ArchesOf(reqs))
  {
    var archs := Dedup(ArchesOf(reqs));
    var kernels := Dedup(reqs);
    DedupMembers(ArchesOf(reqs));
    DedupMembers(reqs);
    var c := CompilerJobs(archs);
    var s := Schedule(reqs);
    assert forall m :: 0 <= m < |c| ==> s[m] == DownloadCompiler(archs[m]);
    assert forall m :: |c| <= m < |s| ==> s[m] == DownloadKernel(kernels[m - |c|].0, kernels[m - |c|].1);
    if d in s {
      var i :| 0 <= i < |s| && s[i] == d;
      if i < |c| {
        assert archs[i] in archs;
      } else {
        assert kernels[i - |c|] in kernels;
      }
    }
    if d.DownloadKernel? && (d.arch, d.pattern) in reqs {
      var i :| 0 <= i < |kernels| && kernels[i] == (d.arch, d.pattern);
      assert s[|c| + i] == d;
    }
    if d.DownloadCompiler? && d.arch in ArchesOf(reqs) {
      var i :| 0 <= i < |archs| && archs[i] == d.arch;
      assert s[i] == d;
    }
  }

  /** Every compiler download comes before every kernel download. */
  lemma CompilersFirst(reqs: seq<(string, string)>)
    ensures var s := Schedule(reqs);
      forall i, j :: 0 <= i < |s| && 0 <= j < |s| && s[i].DownloadKernel? && s[j].DownloadCompiler? ==> j < i
  {
    var c := CompilerJobs(Dedup(ArchesOf(reqs)));
    var k := KernelJobs(Dedup(reqs));
    var s := Schedule(reqs);
    assert forall m :: 0 <= m < |c| ==> s[m] == c[m];
    assert forall m :: |c| <= m < |s| ==> s[m] == k[m - |c|];
  }

  /** Every kernel in the download list has its architecture's compiler in the list, before it. */
  lemma CompilerPrecedesKernel(reqs: seq<(string, string)>, i: nat)
    requires i < |Schedule(reqs)| && Schedule(reqs)[i].DownloadKernel?
    ensures exists j :: 0 <= j < i && Schedule(reqs)[j] == DownloadCompiler(Schedule(reqs)[i].arch)
  {
    var s := Schedule(reqs);
    var d := s[i];
    ScheduleMembers(reqs, d);
    assert (d.arch, d.pattern) in reqs;
    var m :| 0 <= m < |reqs| && reqs[m] == (d.arch, d.pattern);
    assert ArchesOf(reqs)[m] == d.arch;
    ScheduleMembers(reqs, DownloadCompiler(d.arch));
    var j :| 0 <= j < |s| && s[j] == DownloadCompiler(d.arch);
    CompilersFirst(reqs);
  }
}
