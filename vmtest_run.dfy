/**
 * The test loop of vmtest/__main__.py: which root filesystem a kernel is tested on, the
 * shell script run in its VM, and how the results reach the progress printer and the exit
 * status.
 *
 * Everything that runs a process or a VM is a parameter: the status of the local test run
 * on an architecture, the release a downloaded kernel pattern resolves to, and the outcome
 * of run_in_vm on a script.
 */
module VmtestRun {
  import opened Results
  import opened VmtestVersions
  import opened VmtestJobs
  import opened VmtestProgress
  import opened Text

  /** --use-host-rootfs. */
  datatype RootfsMode = Auto | Never

  /** use_host_rootfs: only in auto mode, and only for the host's own architecture. */
  predicate UseHostRootfs(mode: RootfsMode, arch: string, host: Option<string>) {
    mode == Auto && host == Some(arch)
  }

  /** In never mode the host rootfs is never used; in auto mode exactly for the host architecture. */
  lemma UseHostRootfsCases(mode: RootfsMode, arch: string, host: Option<string>)
    ensures mode == Never ==> !UseHostRootfs(mode, arch, host)
    ensures mode == Auto ==> (UseHostRootfs(mode, arch, host) <==> host.Some? && host.value == arch)
    ensures host.None? ==> !UseHostRootfs(mode, arch, host)
  {
  }

  // shlex.quote

  /** The characters shlex.quote leaves unquoted: ASCII word characters and @%+=:,./- */
  predicate IsSafe(c: char) {
    ('a' <= c <= 'z') || ('A' <= c <= 'Z') || ('0' <= c <= '9')
      || c == '_' || c == '@' || c == '%' || c == '+' || c == '=' || c == ':' || c == ',' || c == '.' || c == '/' || c == '-'
  }

  predicate AllSafe(s: string) {
    forall k :: 0 <= k < |s| ==> IsSafe(s[k])
  }

  /** s.replace("'", "'\"'\"'"): each quote closes the quoting, is quoted in double quotes, and reopens it. */
  function Escape(s: string): string
    decreases |s|
  {
    if |s| == 0 then ""
    else if s[0] == '\'' then "'\"'\"'" + Escape(s[1..])
    else [s[0]] + Escape(s[1..])
  }

  /** shlex.quote: '' for the empty string, the string itself when every character is safe, else single-quoted. */
  function ShellQuote(s: string): string {
    if |s| == 0 then "''"
    else if AllSafe(s) then s
    else "'" + Escape(s) + "'"
  }

  function Prepend(c: char, r: Option<string>): Option<string> {
    if r.Some? then Some([c] + r.value) else None
  }

  /**
   * How a POSIX shell reads one word made of safe characters, single-quoted text and
   * double-quoted text without `\`, `$` or backquote; None for anything else.
   */
  function Unquoted(w: string): Option<string>
    decreases |w|
  {
    if |w| == 0 then Some("")
    else if w[0] == '\'' || w[0] == '"' then InQuotes(w[1..], w[0])
    else if IsSafe(w[0]) then Prepend(w[0], Unquoted(w[1..]))
    else None
  }

  /** The rest of a word inside quotes q, up to and after the closing q. */
  function InQuotes(w: string, q: char): Option<string>
    decreases |w|
  {
    if |w| == 0 then None
    else if w[0] == q then Unquoted(w[1..])
    else if q == '"' && (w[0] == '\\' || w[0] == '$' || w[0] == '`') then None
    else Prepend(w[0], InQuotes(w[1..], q))
  }

  lemma {:induction false} UnquotedSafe(s: string)
    requires AllSafe(s)
    ensures Unquoted(s) == Some(s)
    decreases |s|
  {
    if |s| > 0 {
      assert AllSafe(s[1..]) by {
        forall k | 0 <= k < |s[1..]| ensures IsSafe(s[1..][k]) {
          assert s[1..][k] == s[k + 1];
        }
      }
      UnquotedSafe(s[1..]);
      assert [s[0]] + s[1..] == s;
    }
  }

  /** Inside single quotes, '"'"' closes the quotes, reads one quote in double quotes, and reopens them. */
  lemma QuotedQuote(tail: string)
    ensures InQuotes("'\"'\"'" + tail, '\'') == Prepend('\'', InQuotes(tail, '\''))
  {
    var w := "'\"'\"'" + tail;
    var w1 := "\"'\"'" + tail;
    assert w[1..] == w1;
    var w2 := "'\"'" + tail;
    assert w1[1..] == w2;
    var w3 := "\"'" + tail;
    assert w2[1..] == w3;
    var w4 := "'" + tail;
    assert w3[1..] == w4;
    assert w4[1..] == tail;
    assert InQuotes(w, '\'') == Unquoted(w1);
    assert Unquoted(w1) == InQuotes(w2, '"');
    assert InQuotes(w2, '"') == Prepend('\'', InQuotes(w3, '"'));
    assert InQuotes(w3, '"') == Unquoted(w4);
    assert Unquoted(w4) == InQuotes(tail, '\'');
  }

  /** Inside single quotes, an escaped string reads back as itself, and reading goes on after the closing quote. */
  lemma {:induction false} InQuotesEscape(s: string, rest: string)
    ensures InQuotes(Escape(s) + "'" + rest, '\'') == (var r := Unquoted(rest); if r.Some? then Some(s + r.value) else None)
    decreases |s|
  {
    if |s| == 0 {
      assert Escape(s) + "'" + rest == "'" + rest;
      assert ("'" + rest)[1..] == rest;
      assert InQuotes("'" + rest, '\'') == Unquoted(rest);
      if Unquoted(rest).Some? {
        assert s + Unquoted(rest).value == Unquoted(rest).value;
      }
    } else {
      var e := Escape(s[1..]);
      var tail := e + "'" + rest;
      InQuotesEscape(s[1..], rest);
      var head := if s[0] == '\'' then "'\"'\"'" else [s[0]];
      assert Escape(s) == head + e;
      Assoc(head, e, "'");
      Assoc(head, e + "'", rest);
      var w := head + tail;
      assert Escape(s) + "'" + rest == w;
      if s[0] == '\'' {
        QuotedQuote(tail);
      } else {
        assert w[1..] == tail;
      }
      assert InQuotes(w, '\'') == Prepend(s[0], InQuotes(tail, '\''));
      var r := Unquoted(rest);
      if r.Some? {
        assert [s[0]] + s[1..] == s;
        Assoc([s[0]], s[1..], r.value);
      }
    }
  }

  /** The shell reads a quoted string back as the string itself. */
  lemma ShellQuoteRoundTrip(s: string)
    ensures Unquoted(ShellQuote(s)) == Some(s)
  {
    if |s| == 0 {
      assert ShellQuote(s)[1..] == "'";
      assert "'"[1..] == "";
    } else if AllSafe(s) {
      UnquotedSafe(s);
    } else {
      var w := "'" + Escape(s) + "'";
      assert w[1..] == Escape(s) + "'" + "";
      InQuotesEscape(s, "");
      assert s + "" == s;
    }
  }

  /** Escaping never shortens a string. */
  lemma {:induction false} EscapeLength(s: string)
    ensures |Escape(s)| >= |s|
    decreases |s|
  {
    if |s| > 0 {
      EscapeLength(s[1..]);
    }
  }

  /** A quoted string is the string itself exactly when it is non-empty and all safe. */
  lemma ShellQuoteUnchanged(s: string)
    ensures ShellQuote(s) == s <==> |s| > 0 && AllSafe(s)
  {
    if |s| > 0 && !AllSafe(s) {
      EscapeLength(s);
      assert |ShellQuote(s)| > |s|;
    }
  }

  // The test script

  /** The interpreter, pytest filter and kdump step of one kernel's test script. */
  datatype TestScript = TestScript(python: string, testsExpression: string, kdumpCommand: string)

  const GUEST_PYTHON: string := "/usr/bin/python3"

  /** The pytest filter that skips the two slowest tests when the guest is emulated. */
  const SLOW_TESTS_FILTER: string := "-k 'not test_slab_cache_for_each_allocated_object and not test_mtree_load_three_levels'"

  /** Crash into the kdump kernel; reaching the line after it is a failure. */
  const KDUMP_COMMAND: string := "    \"$PYTHON\" -Bm vmtest.enter_kdump\n    # We should crash and not reach this.\n    exit 1\n"

  /**
   * The choices for a kernel: the host's interpreter and every test with the host rootfs,
   * /usr/bin/python3 without the two slow tests otherwise; the kdump step iff _kdump_works.
   * _kdump_works failing its assertion on an unknown architecture ends the run: Err(arch).
   */
  function ScriptFor(useHost: bool, arch: string, release: string, sysExecutable: string): (r: Result<TestScript, string>)
    ensures r.Err? <==> KdumpWorks(arch, release).Err?
    ensures r.Err? ==> r.error == arch
    ensures r.Ok? ==> r.value.python == (if useHost then sysExecutable else GUEST_PYTHON)
    ensures r.Ok? ==> (r.value.testsExpression == "" <==> useHost)
    ensures r.Ok? ==> (r.value.kdumpCommand == KDUMP_COMMAND <==> KdumpWorks(arch, release) == Ok(true))
    ensures r.Ok? ==> (r.value.kdumpCommand == "" <==> KdumpWorks(arch, release) == Ok(false))
  {
    var python := if useHost then sysExecutable else GUEST_PYTHON;
    var tests := if useHost then "" else SLOW_TESTS_FILTER;
    var works := KdumpWorks(arch, release);
    if works.Err? then Err(works.error)
    else Ok(TestScript(python, tests, if works.value then KDUMP_COMMAND else ""))
  }

  const SCRIPT_HEAD: string := "\nset -e\n\nexport PYTHON="

  /** Everything between the interpreter and the pytest filter. */
  const SCRIPT_BODY: string :=
    "export DRGN_RUN_LINUX_KERNEL_TESTS=1\nif [ -e /proc/vmcore ]; then\n    \"$PYTHON\" -Bm pytest -v tests/linux_kernel/vmcore\nelse\n    insmod \"$DRGN_TEST_KMOD\"\n    \"$PYTHON\" -Bm pytest -v tests/linux_kernel --ignore=tests/linux_kernel/vmcore "

  /** The first lines of test_command, up to and including the export of PYTHON. */
  function ExportLine(python: string): string {
    SCRIPT_HEAD + ShellQuote(python) + "\n"
  }

  /** The end of test_command: the kdump step, if any, and the closing `fi`. */
  function KdumpTail(kdumpCommand: string): string {
    kdumpCommand + "\nfi\n"
  }

  /** The text of test_command. */
  function ScriptText(script: TestScript): string {
    ExportLine(script.python) + (SCRIPT_BODY + script.testsExpression + "\n") + KdumpTail(script.kdumpCommand)
  }

  /** The script starts with the export of the quoted interpreter, on a line of its own. */
  lemma ScriptExportsPython(script: TestScript)
    ensures var text := ScriptText(script);
      var line := ExportLine(script.python);
      var word := ShellQuote(script.python);
      && |line| == |SCRIPT_HEAD| + |word| + 1 <= |text|
      && text[..|line|] == line
      && line[..|SCRIPT_HEAD|] == SCRIPT_HEAD
      && line[|SCRIPT_HEAD|..|SCRIPT_HEAD| + |word|] == word
      && line[|line| - 1] == '\n'
  {
    var line := ExportLine(script.python);
    var rest := (SCRIPT_BODY + script.testsExpression + "\n") + KdumpTail(script.kdumpCommand);
    Assoc(line, SCRIPT_BODY + script.testsExpression + "\n", KdumpTail(script.kdumpCommand));
    assert ScriptText(script) == line + rest;
    assert (line + rest)[..|line|] == line;
  }

  /** The shell sets PYTHON to exactly the chosen interpreter. */
  lemma ScriptPythonReadsBack(script: TestScript)
    ensures Unquoted(ShellQuote(script.python)) == Some(script.python)
  {
    ShellQuoteRoundTrip(script.python);
  }

  /** The kdump step, if any, is the last thing the script runs before the closing `fi`. */
  lemma ScriptEndsWithKdump(script: TestScript)
    ensures var text := ScriptText(script);
      |text| >= |script.kdumpCommand| + 4 && text[|text| - |script.kdumpCommand| - 4..] == script.kdumpCommand + "\nfi\n"
  {
    var front := ExportLine(script.python) + (SCRIPT_BODY + script.testsExpression + "\n");
    var back := KdumpTail(script.kdumpCommand);
    assert ScriptText(script) == front + back;
    assert (front + back)[|front|..] == back;
  }

  // Running the tests

  /** What run_in_vm is given: the script, the kernel, and whether the guest's root is the host's /. */
  datatype VmRequest = VmRequest(script: string, arch: string, release: string, hostRootfs: bool)

  /** run_in_vm's outcome: the script's exit status, or a lost VM (LostVMError). */
  datatype RunResult = Exited(status: int) | LostVm

  /** The status the loop compares with 0: a lost VM counts as -1. */
  function StatusOf(r: RunResult): (status: int)
    ensures status == 0 <==> r == Exited(0)
  {
    match r
    case Exited(s) => s
    case LostVm => -1
  }

  /** The local test results, one (arch, "local", passed) per architecture when --local is given. */
  function LocalRuns(local: bool, mode: RootfsMode, host: Option<string>, archs: seq<string>,
                     localStatus: (string, bool) -> int): seq<(string, string, bool)>
  {
    if |archs| == 0 then []
    else
      var last := archs[|archs| - 1];
      LocalRuns(local, mode, host, archs[..|archs| - 1], localStatus)
        + (if local then [(last, "local", localStatus(last, UseHostRootfs(mode, last, host)) == 0)] else [])
  }

  /** One kernel's test result: (architecture, release, passed). */
  type Record = (string, string, bool)

  /** The result of testing the kernel downloaded for (architecture, pattern), or the assertion that stops the run. */
  type Runner = (string, string) -> Result<Record, string>

  /** The VM run for one kernel download: its script, run_in_vm, and the result reported. */
  function KernelRun(mode: RootfsMode, host: Option<string>, arch: string, pattern: string, sysExecutable: string,
                     release: (string, string) -> string, vm: VmRequest -> RunResult): (r: Result<Record, string>)
    ensures r.Err? <==> arch !in KDUMP_ARCHITECTURES
    ensures r.Err? ==> r.error == arch
    ensures r.Ok? ==> r.value.0 == arch && r.value.1 == release(arch, pattern)
  {
    var rel := release(arch, pattern);
    var useHost := UseHostRootfs(mode, arch, host);
    var script := ScriptFor(useHost, arch, rel, sysExecutable);
    if script.Err? then Err(script.error)
    else Ok((arch, rel, StatusOf(vm(VmRequest(ScriptText(script.value), arch, rel, useHost))) == 0))
  }

  function KernelRunner(mode: RootfsMode, host: Option<string>, sysExecutable: string,
                        release: (string, string) -> string, vm: VmRequest -> RunResult): (run: Runner)
    ensures forall arch, pattern :: run(arch, pattern) == KernelRun(mode, host, arch, pattern, sysExecutable, release, vm)
  {
    (arch, pattern) => KernelRun(mode, host, arch, pattern, sysExecutable, release, vm)
  }

  /** The kernel results in download order; compilers are skipped, and the first assertion ends the run. */
  function KernelRuns(run: Runner, downloads: seq<Download>): Result<seq<Record>, string> {
    if |downloads| == 0 then Ok([])
    else
      var before := KernelRuns(run, downloads[..|downloads| - 1]);
      var last := downloads[|downloads| - 1];
      if before.Err? then before
      else if last.DownloadCompiler? then before
      else
        var r := run(last.arch, last.pattern);
        if r.Err? then Err(r.error) else Ok(before.value + [r.value])
  }

  /** The kernels among the downloads, in order. */
  function KernelDownloads(downloads: seq<Download>): (kernels: seq<Download>)
    ensures forall k :: 0 <= k < |kernels| ==> kernels[k].DownloadKernel? && kernels[k] in downloads
  {
    if |downloads| == 0 then []
    else
      var last := downloads[|downloads| - 1];
      KernelDownloads(downloads[..|downloads| - 1]) + (if last.DownloadKernel? then [last] else [])
  }

  /** A kernel download whose test stops the run. */
  predicate Fails(run: Runner, d: Download) {
    d.DownloadKernel? && run(d.arch, d.pattern).Err?
  }

  /** The run stops iff the test of some downloaded kernel does. */
  lemma {:induction false} KernelRunsFailure(run: Runner, downloads: seq<Download>)
    ensures KernelRuns(run, downloads).Err? <==> exists k :: 0 <= k < |downloads| && Fails(run, downloads[k])
  {
    if |downloads| > 0 {
      var prefix := downloads[..|downloads| - 1];
      var last := downloads[|downloads| - 1];
      KernelRunsFailure(run, prefix);
      assert KernelRuns(run, downloads).Err? <==> KernelRuns(run, prefix).Err? || Fails(run, last);
      if exists k :: 0 <= k < |prefix| && Fails(run, prefix[k]) {
        var k :| 0 <= k < |prefix| && Fails(run, prefix[k]);
        assert downloads[k] == prefix[k];
      }
      if exists k :: 0 <= k < |downloads| && Fails(run, downloads[k]) {
        var k :| 0 <= k < |downloads| && Fails(run, downloads[k]);
        if k < |prefix| {
          assert prefix[k] == downloads[k];
        }
      }
    }
  }

  /** Without an assertion, every kernel is tested once, in download order, and only kernels are. */
  lemma {:induction false} KernelRunsOrder(run: Runner, downloads: seq<Download>)
    requires KernelRuns(run, downloads).Ok?
    ensures var runs := KernelRuns(run, downloads).value;
      var kernels := KernelDownloads(downloads);
      |runs| == |kernels| && forall k :: 0 <= k < |kernels| ==>
        run(kernels[k].arch, kernels[k].pattern) == Ok(runs[k])
  {
    if |downloads| > 0 {
      var prefix := downloads[..|downloads| - 1];
      var last := downloads[|downloads| - 1];
      KernelRunsOrder(run, prefix);
      var pk := KernelDownloads(prefix);
      var kernels := KernelDownloads(downloads);
      var pr := KernelRuns(run, prefix).value;
      var runs := KernelRuns(run, downloads).value;
      if last.DownloadKernel? {
        assert kernels == pk + [last];
        assert runs == pr + [run(last.arch, last.pattern).value];
      } else {
        assert kernels == pk;
      }
    }
  }

  /** A kernel download whose architecture _kdump_works does not know. */
  predicate Unknown(d: Download) {
    d.DownloadKernel? && d.arch !in KDUMP_ARCHITECTURES
  }

  /**
   * The test loop stops with an assertion iff some downloaded kernel's architecture is
   * unknown to _kdump_works; otherwise each kernel is reported once, in download order,
   * under its architecture and release.
   */
  lemma KernelTests(mode: RootfsMode, host: Option<string>, downloads: seq<Download>, sysExecutable: string,
                    release: (string, string) -> string, vm: VmRequest -> RunResult)
    ensures var runs := KernelRuns(KernelRunner(mode, host, sysExecutable, release, vm), downloads);
      var kernels := KernelDownloads(downloads);
      && (runs.Err? <==> exists k :: 0 <= k < |downloads| && Unknown(downloads[k]))
      && (runs.Ok? ==> |runs.value| == |kernels| && forall k :: 0 <= k < |kernels| ==>
            runs.value[k].0 == kernels[k].arch && runs.value[k].1 == release(kernels[k].arch, kernels[k].pattern))
  {
    var run := KernelRunner(mode, host, sysExecutable, release, vm);
    KernelRunsFailure(run, downloads);
    assert forall k :: 0 <= k < |downloads| ==> (Fails(run, downloads[k]) <==> Unknown(downloads[k]));
    if KernelRuns(run, downloads).Ok? {
      KernelRunsOrder(run, downloads);
    }
  }

  /**
   * The test loop after the downloads are planned: the local tests on each architecture
   * when --local is given, then one VM run per downloaded kernel, each reported to the
   * progress printer; the result is the exit status, or the architecture _kdump_works
   * failed its assertion on.
   */
  method RunTests(local: bool, mode: RootfsMode, host: Option<string>, architectures: seq<string>,
                  downloads: seq<Download>, sysExecutable: string, columns: Option<nat>,
                  localStatus: (string, bool) -> int, release: (string, string) -> string, vm: VmRequest -> RunResult)
    returns (outcome: Result<int, string>)
    ensures var locals := LocalRuns(local, mode, host, architectures, localStatus);
      var kernels := KernelRuns(KernelRunner(mode, host, sysExecutable, release, vm), downloads);
      outcome == if kernels.Err? then Err(kernels.error)
        else Ok(if AllPassed(locals + kernels.value) then 0 else 1)
  {
    var progress := new ProgressPrinter(columns);
    RunLocalTests(progress, local, mode, host, architectures, localStatus);
    ghost var locals := LocalRuns(local, mode, host, architectures, localStatus);
    assert progress.results == [] + locals == locals;
    var error := RunKernelTests(progress, mode, host, downloads, sysExecutable, release, vm);
    if error.Some? {
      return Err(error.value);
    }
    outcome := Ok(progress.ExitCode());
  }

  /** The loop over the downloads: each kernel's result is reported, until an assertion stops the run. */
  method RunKernelTests(progress: ProgressPrinter, mode: RootfsMode, host: Option<string>, downloads: seq<Download>,
                        sysExecutable: string, release: (string, string) -> string, vm: VmRequest -> RunResult)
    returns (error: Option<string>)
    requires progress.Valid()
    modifies progress
    ensures progress.Valid()
    ensures var runs := KernelRuns(KernelRunner(mode, host, sysExecutable, release, vm), downloads);
      if runs.Err? then error == Some(runs.error)
      else error.None? && progress.results == old(progress.results) + runs.value
  {
    ghost var run := KernelRunner(mode, host, sysExecutable, release, vm);
    var j := 0;
    while j < |downloads|
      invariant 0 <= j <= |downloads|
      invariant progress.Valid()
      invariant KernelRuns(run, downloads[..j]).Ok?
      invariant progress.results == old(progress.results) + KernelRuns(run, downloads[..j]).value
    {
      ghost var recs := KernelRuns(run, downloads[..j]).value;
      var download := downloads[j];
      if download.DownloadKernel? {
        var failure := TestKernel(progress, mode, host, download.arch, download.pattern, sysExecutable, release, vm);
        assert run(download.arch, download.pattern) == KernelRun(mode, host, download.arch, download.pattern, sysExecutable, release, vm);
        if failure.Some? {
          KernelRunsFail(run, downloads, j);
          return failure;
        }
        KernelRunsNext(run, downloads, j);
        Assoc(old(progress.results), recs, [run(download.arch, download.pattern).value]);
      } else {
        KernelRunsNext(run, downloads, j);
      }
      j := j + 1;
    }
    assert downloads[..|downloads|] == downloads;
    error := None;
  }

  /** The loop over the architectures: with --local, each one's local test run is reported. */
  method RunLocalTests(progress: ProgressPrinter, local: bool, mode: RootfsMode, host: Option<string>,
                       architectures: seq<string>, localStatus: (string, bool) -> int)
    requires progress.Valid()
    modifies progress
    ensures progress.Valid()
    ensures progress.results == old(progress.results) + LocalRuns(local, mode, host, architectures, localStatus)
  {
    var i := 0;
    while i < |architectures|
      invariant 0 <= i <= |architectures|
      invariant progress.Valid()
      invariant progress.results == old(progress.results) + LocalRuns(local, mode, host, architectures[..i], localStatus)
    {
      ghost var before := LocalRuns(local, mode, host, architectures[..i], localStatus);
      var arch := architectures[i];
      assert architectures[..i + 1][..i] == architectures[..i];
      if local {
        var status := localStatus(arch, UseHostRootfs(mode, arch, host));
        var _ := progress.Update(arch, "local", status == 0);
        Assoc(old(progress.results), before, [(arch, "local", status == 0)]);
      }
      i := i + 1;
    }
    assert architectures[..|architectures|] == architectures;
  }

  /** One kernel of the loop over the downloads: its script, its VM run, and the report of the result. */
  method TestKernel(progress: ProgressPrinter, mode: RootfsMode, host: Option<string>, arch: string, pattern: string,
                    sysExecutable: string, release: (string, string) -> string, vm: VmRequest -> RunResult)
    returns (error: Option<string>)
    requires progress.Valid()
    modifies progress
    ensures progress.Valid()
    ensures var r := KernelRun(mode, host, arch, pattern, sysExecutable, release, vm);
      if r.Err? then error == Some(r.error) && progress.results == old(progress.results)
      else error.None? && progress.results == old(progress.results) + [r.value]
  {
    var rel := release(arch, pattern);
    var useHost := UseHostRootfs(mode, arch, host);
    var script := ScriptFor(useHost, arch, rel, sysExecutable);
    if script.Err? {
      return Some(script.error);
    }
    var result := vm(VmRequest(ScriptText(script.value), arch, rel, useHost));
    var _ := progress.Update(arch, rel, StatusOf(result) == 0);
    error := None;
  }

  /** One iteration of the kernel loop when no assertion fails: a compiler adds nothing, a kernel its result. */
  lemma KernelRunsNext(run: Runner, downloads: seq<Download>, j: nat)
    requires j < |downloads|
    requires KernelRuns(run, downloads[..j]).Ok?
    requires downloads[j].DownloadKernel? ==> run(downloads[j].arch, downloads[j].pattern).Ok?
    ensures KernelRuns(run, downloads[..j + 1]) ==
      if downloads[j].DownloadCompiler? then KernelRuns(run, downloads[..j])
      else Ok(KernelRuns(run, downloads[..j]).value + [run(downloads[j].arch, downloads[j].pattern).value])
  {
    var p := downloads[..j + 1];
    assert p[..|p| - 1] == downloads[..j];
  }

  /** An assertion at position j ends the run with that error, whatever follows. */
  lemma KernelRunsFail(run: Runner, downloads: seq<Download>, j: nat)
    requires j < |downloads| && downloads[j].DownloadKernel?
    requires KernelRuns(run, downloads[..j]).Ok?
    requires run(downloads[j].arch, downloads[j].pattern).Err?
    ensures KernelRuns(run, downloads) == Err(run(downloads[j].arch, downloads[j].pattern).error)
  {
    var p := downloads[..j + 1];
    assert p[..|p| - 1] == downloads[..j];
    ErrSticky(run, downloads, j + 1);
  }

  /** Once an assertion has failed, the later downloads do not change the outcome. */
  lemma {:induction false} ErrSticky(run: Runner, downloads: seq<Download>, n: nat)
    requires n <= |downloads|
    requires KernelRuns(run, downloads[..n]).Err?
    ensures KernelRuns(run, downloads) == KernelRuns(run, downloads[..n])
    decreases |downloads| - n
  {
    if n < |downloads| {
      var p := downloads[..n + 1];
      assert p[..|p| - 1] == downloads[..n];
      ErrSticky(run, downloads, n + 1);
    } else {
      assert downloads[..n] == downloads;
    }
  }
}
