/**
 * _ProgressPrinter of vmtest/__main__.py: two insertion-ordered dicts of lists (passed and
 * failed results, keyed by category), and the block of lines printed after each update.
 *
 * A dict of lists is a sequence of groups in insertion order. Printed text is a sequence of
 * lines, each a sequence of segments; a segment's colour stands for the ANSI escapes around it.
 */
module VmtestProgress {
  import opened Results
  import opened Unique
  import opened Text

  datatype Color = Plain | Green | Red

  datatype Segment = Segment(text: string, color: Color)

  type Line = seq<Segment>

  /** One dict item: a category and the names recorded under it, in order. */
  datatype Group = Group(category: string, names: seq<string>)

  /** The keys of a dict of groups, in insertion order. */
  function Categories(groups: seq<Group>): (cs: seq<string>)
    ensures |cs| == |groups| && forall k :: 0 <= k < |groups| ==> cs[k] == groups[k].category
    decreases |groups|
  {
    if |groups| == 0 then [] else [groups[0].category] + Categories(groups[1..])
  }

  /** d.setdefault(c, []).append(n). */
  function Append(groups: seq<Group>, c: string, n: string): seq<Group>
    decreases |groups|
  {
    if |groups| == 0 then [Group(c, [n])]
    else if groups[0].category == c then [groups[0].(names := groups[0].names + [n])] + groups[1..]
    else [groups[0]] + Append(groups[1..], c, n)
  }

  /** d.get(c, []). */
  function NamesIn(groups: seq<Group>, c: string): seq<string>
    decreases |groups|
  {
    if |groups| == 0 then []
    else if groups[0].category == c then groups[0].names
    else NamesIn(groups[1..], c)
  }

  /** Appending adds the category at the end the first time it is seen, and keeps the key order otherwise. */
  lemma {:induction false} AppendCategories(groups: seq<Group>, c: string, n: string)
    ensures Categories(Append(groups, c, n)) == if c in Categories(groups) then Categories(groups) else Categories(groups) + [c]
    decreases |groups|
  {
    if |groups| > 0 {
      var rest := groups[1..];
      if groups[0].category != c {
        AppendCategories(rest, c, n);
        assert Append(groups, c, n)[1..] == Append(rest, c, n);
      } else {
        assert Append(groups, c, n)[1..] == rest;
      }
    }
  }

  /** Appending adds n at the end of c's list and leaves every other list as it was. */
  lemma {:induction false} AppendNames(groups: seq<Group>, c: string, n: string, d: string)
    ensures NamesIn(Append(groups, c, n), d) == if d == c then NamesIn(groups, c) + [n] else NamesIn(groups, d)
    decreases |groups|
  {
    if |groups| > 0 && groups[0].category != c {
      AppendNames(groups[1..], c, n, d);
      assert Append(groups, c, n)[1..] == Append(groups[1..], c, n);
    }
  }

  /** With distinct keys, a group's list is what looking up its key gives. */
  lemma {:induction false} NamesInAt(groups: seq<Group>, k: nat)
    requires k < |groups| && NoDuplicates(Categories(groups))
    ensures NamesIn(groups, groups[k].category) == groups[k].names
    decreases |groups|
  {
    if k > 0 {
      assert Categories(groups)[0] != Categories(groups)[k];
      var rest := groups[1..];
      assert Categories(rest) == Categories(groups)[1..];
      NamesInAt(rest, k - 1);
    }
  }

  /** The category of each record, in order. */
  function Firsts(recs: seq<(string, string)>): (cs: seq<string>)
    ensures |cs| == |recs| && forall k :: 0 <= k < |recs| ==> cs[k] == recs[k].0
  {
    seq(|recs|, k requires 0 <= k < |recs| => recs[k].0)
  }

  /** The names recorded under c, in order. */
  function NamesOf(recs: seq<(string, string)>, c: string): seq<string> {
    if |recs| == 0 then []
    else
      var last := recs[|recs| - 1];
      NamesOf(recs[..|recs| - 1], c) + (if last.0 == c then [last.1] else [])
  }

  /** The dict after appending each record in turn, starting from {}. */
  function Grouped(recs: seq<(string, string)>): seq<Group> {
    if |recs| == 0 then []
    else
      var last := recs[|recs| - 1];
      Append(Grouped(recs[..|recs| - 1]), last.0, last.1)
  }

  /** The keys are the records' categories without repeats, in first-seen order. */
  lemma {:induction false} GroupedCategories(recs: seq<(string, string)>)
    ensures Categories(Grouped(recs)) == Dedup(Firsts(recs))
  {
    if |recs| > 0 {
      var prefix := recs[..|recs| - 1];
      var last := recs[|recs| - 1];
      var groups, firsts := Grouped(prefix), Firsts(prefix);
      GroupedCategories(prefix);
      assert Grouped(recs) == Append(groups, last.0, last.1);
      AppendCategories(groups, last.0, last.1);
      assert Firsts(recs) == firsts + [last.0];
      DedupSnoc(firsts, last.0);
      DedupMembers(firsts);
      assert last.0 in Categories(groups) <==> last.0 in firsts;
    }
  }

  /** Each key's list is the names recorded under it, in the order recorded. */
  lemma {:induction false} GroupedNames(recs: seq<(string, string)>, d: string)
    ensures NamesIn(Grouped(recs), d) == NamesOf(recs, d)
  {
    if |recs| > 0 {
      var prefix := recs[..|recs| - 1];
      var last := recs[|recs| - 1];
      GroupedNames(prefix, d);
      AppendNames(Grouped(prefix), last.0, last.1, d);
    }
  }

  /**
   * The dict as a whole: one group per category in first-seen order, each holding exactly
   * the names recorded under it; it is empty iff nothing was recorded.
   */
  lemma GroupedGroups(recs: seq<(string, string)>)
    ensures Categories(Grouped(recs)) == Dedup(Firsts(recs))
    ensures NoDuplicates(Categories(Grouped(recs)))
    ensures forall k :: 0 <= k < |Grouped(recs)| ==> Grouped(recs)[k].names == NamesOf(recs, Grouped(recs)[k].category)
    ensures |Grouped(recs)| == 0 <==> |recs| == 0
  {
    GroupedCategories(recs);
    DedupMembers(Firsts(recs));
    var g := Grouped(recs);
    forall k | 0 <= k < |g| ensures g[k].names == NamesOf(recs, g[k].category) {
      NamesInAt(g, k);
      GroupedNames(recs, g[k].category);
    }
    if |recs| > 0 {
      assert recs[0].0 in Firsts(recs);
    }
  }

  /** The (category, name) pairs of the results whose outcome is `outcome`, in order. */
  function Outcomes(results: seq<(string, string, bool)>, outcome: bool): seq<(string, string)> {
    if |results| == 0 then []
    else
      var last := results[|results| - 1];
      Outcomes(results[..|results| - 1], outcome) + (if last.2 == outcome then [(last.0, last.1)] else [])
  }

  /** Every result passed. */
  predicate AllPassed(results: seq<(string, string, bool)>) {
    forall k :: 0 <= k < |results| ==> results[k].2
  }

  /** No result is a failure iff every result passed. */
  lemma {:induction false} NoFailures(results: seq<(string, string, bool)>)
    ensures |Outcomes(results, false)| == 0 <==> AllPassed(results)
  {
    if |results| > 0 {
      var prefix := results[..|results| - 1];
      NoFailures(prefix);
      assert forall k :: 0 <= k < |prefix| ==> prefix[k] == results[k];
    }
  }

  /** _green and _red: the text is coloured only when colour is enabled. */
  function Colored(color: bool, s: string, c: Color): (seg: Segment)
    ensures seg.text == s && (seg.color == c <==> color || c == Plain) && (seg.color == Plain || seg.color == c)
  {
    Segment(s, if color then c else Plain)
  }

  /** The blank field of the rows after a block's first. */
  const PAD: string := "       "

  /** One `category: names` row; the first of a block carries the block's tag. */
  function Row(color: bool, tag: string, c: Color, first: bool, group: Group): Line {
    [if first then Colored(color, tag, c) else Segment(PAD, Plain),
     Segment(" ", Plain),
     Segment(group.category + ": " + Join(group.names, ", "), Plain)]
  }

  /** The rows of one block, one per group, in dict order. */
  function Block(color: bool, tag: string, c: Color, groups: seq<Group>): (lines: seq<Line>)
    ensures |lines| == |groups|
    ensures forall k :: 0 <= k < |groups| ==> lines[k] == Row(color, tag, c, k == 0, groups[k])
  {
    seq(|groups|, k requires 0 <= k < |groups| => Row(color, tag, c, k == 0, groups[k]))
  }

  /** The header line: red once any failure is recorded, green before. */
  function HeaderLine(color: bool, header: string, failed: seq<Group>): (h: Line)
    ensures |h| == 1 && h[0].text == header
    ensures color ==> (h[0].color == Red <==> |failed| > 0) && (h[0].color == Green <==> |failed| == 0)
    ensures !color ==> h[0].color == Plain
  {
    [Colored(color, header, if |failed| > 0 then Red else Green)]
  }

  const PASSED_TAG: string := "Passed:"
  const FAILED_TAG: string := "Failed:"

  /** The rows under the header: the Passed block, then the Failed block. */
  function Rows(color: bool, passed: seq<Group>, failed: seq<Group>): seq<Line> {
    Block(color, PASSED_TAG, Green, passed) + Block(color, FAILED_TAG, Red, failed)
  }

  /** Everything update prints. */
  function Render(color: bool, header: string, passed: seq<Group>, failed: seq<Group>): seq<Line> {
    var h := HeaderLine(color, header, failed);
    [h, []] + Rows(color, passed, failed) + [[], h]
  }

  /**
   * The printed frame: the header line, a blank line, the rows, a blank line and the header
   * line again.
   */
  lemma RenderLayout(color: bool, header: string, passed: seq<Group>, failed: seq<Group>)
    ensures var lines := Render(color, header, passed, failed);
      && |lines| == 4 + |passed| + |failed|
      && lines[0] == lines[|lines| - 1] == HeaderLine(color, header, failed)
      && lines[1] == [] && lines[|lines| - 2] == []
      && forall k :: 0 <= k < |passed| + |failed| ==> lines[2 + k] == Rows(color, passed, failed)[k]
  {
  }

  /** A block's first row carries its tag and the later ones are padded; each shows one group. */
  lemma BlockRows(color: bool, tag: string, c: Color, groups: seq<Group>)
    ensures var lines := Block(color, tag, c, groups);
      forall k :: 0 <= k < |groups| ==>
        && |lines[k]| == 3
        && lines[k][0].text == (if k == 0 then tag else PAD)
        && lines[k][1].text == " "
        && lines[k][2].text == groups[k].category + ": " + Join(groups[k].names, ", ")
  {
  }

  /** The Passed rows come first, one per passed category in dict order, then the Failed rows. */
  lemma RowsOrder(color: bool, passed: seq<Group>, failed: seq<Group>)
    ensures var rows := Rows(color, passed, failed);
      && |rows| == |passed| + |failed|
      && (forall k :: 0 <= k < |passed| ==> rows[k] == Row(color, PASSED_TAG, Green, k == 0, passed[k]))
      && (forall k :: 0 <= k < |failed| ==> rows[|passed| + k] == Row(color, FAILED_TAG, Red, k == 0, failed[k]))
  {
    var rows := Rows(color, passed, failed);
    var f := Block(color, FAILED_TAG, Red, failed);
    assert forall k :: 0 <= k < |failed| ==> rows[|passed| + k] == f[k];
  }

  /** A `'#' * columns` header. */
  function Repeat(c: char, n: nat): (s: string)
    ensures |s| == n && forall k :: 0 <= k < n ==> s[k] == c
  {
    if n == 0 then [] else Repeat(c, n - 1) + [c]
  }

  class ProgressPrinter {
    /** Whether the output is a terminal, so that colour is used. */
    const color: bool
    /** The header line: a row of '#' as wide as the terminal, or 80 columns otherwise. */
    const header: string
    /** self._passed and self._failed. */
    var passed: seq<Group>
    var failed: seq<Group>
    /** Every update so far: (category, name, passed). */
    ghost var results: seq<(string, string, bool)>

    ghost predicate Valid()
      reads this
    {
      passed == Grouped(Outcomes(results, true)) && failed == Grouped(Outcomes(results, false))
    }

    /** `columns` is the terminal width, or None when os.get_terminal_size fails. */
    constructor (columns: Option<nat>)
      ensures Valid() && results == []
      ensures color == columns.Some?
      ensures header == Repeat('#', if columns.Some? then columns.value else 80)
      ensures passed == [] && failed == []
    {
      color := columns.Some?;
      header := Repeat('#', if columns.Some? then columns.value else 80);
      passed := [];
      failed := [];
      results := [];
    }

    /** succeeded(): no failure was recorded. */
    function Succeeded(): (b: bool)
      reads this
      requires Valid()
      ensures b <==> AllPassed(results)
    {
      NoFailures(results);
      GroupedGroups(Outcomes(results, false));
      |failed| == 0
    }

    /** The sys.exit status at the end of the run. */
    function ExitCode(): (code: int)
      reads this
      requires Valid()
      ensures code == 0 || code == 1
      ensures code == 0 <==> AllPassed(results)
    {
      if Succeeded() then 0 else 1
    }

    /** The rows of one block, printed one category at a time with a `first` flag. */
    method PrintBlock(tag: string, c: Color, groups: seq<Group>) returns (lines: seq<Line>)
      ensures lines == Block(color, tag, c, groups)
    {
      lines := [];
      var first := true;
      var i := 0;
      while i < |groups|
        invariant 0 <= i <= |groups|
        invariant first <==> i == 0
        invariant |lines| == i && forall k :: 0 <= k < i ==> lines[k] == Row(color, tag, c, k == 0, groups[k])
      {
        var lead;
        if first {
          first := false;
          lead := Colored(color, tag, c);
        } else {
          lead := Segment(PAD, Plain);
        }
        var g := groups[i];
        lines := lines + [[lead, Segment(" ", Plain), Segment(g.category + ": " + Join(g.names, ", "), Plain)]];
        i := i + 1;
      }
    }

    /** update(): record the result, then print the whole summary. */
    method Update(category: string, name: string, isPassed: bool) returns (lines: seq<Line>)
      requires Valid()
      modifies this
      ensures Valid()
      ensures results == old(results) + [(category, name, isPassed)]
      ensures passed == if isPassed then Append(old(passed), category, name) else old(passed)
      ensures failed == if isPassed then old(failed) else Append(old(failed), category, name)
      ensures lines == Render(color, header, passed, failed)
    {
      UpdateStep(results, category, name, isPassed);
      if isPassed {
        passed := Append(passed, category, name);
      } else {
        failed := Append(failed, category, name);
      }
      results := results + [(category, name, isPassed)];
      assert Valid();
      var h: Line;
      if |failed| > 0 {
        h := [Colored(color, header, Red)];
      } else {
        h := [Colored(color, header, Green)];
      }
      var passedRows: seq<Line> := [];
      if |passed| > 0 {
        passedRows := PrintBlock(PASSED_TAG, Green, passed);
      }
      var failedRows: seq<Line> := [];
      if |failed| > 0 {
        failedRows := PrintBlock(FAILED_TAG, Red, failed);
      }
      assert passedRows + failedRows == Rows(color, passed, failed);
      assert h == HeaderLine(color, header, failed);
      var rows := passedRows + failedRows;
      lines := [h, []] + rows + [[], h];
    }
  }

  /** Appending a record to the log appends it to the dict. */
  lemma GroupedSnoc(recs: seq<(string, string)>, x: (string, string))
    ensures Grouped(recs + [x]) == Append(Grouped(recs), x.0, x.1)
  {
    assert (recs + [x])[..|recs|] == recs;
  }

  /** One more result extends exactly one of the two outcome lists. */
  lemma OutcomesSnoc(results: seq<(string, string, bool)>, x: (string, string, bool), outcome: bool)
    ensures Outcomes(results + [x], outcome) == Outcomes(results, outcome) + (if x.2 == outcome then [(x.0, x.1)] else [])
  {
    assert (results + [x])[..|results|] == results;
  }

  /** One update appends to exactly one of the two dicts. */
  lemma UpdateStep(results: seq<(string, string, bool)>, category: string, name: string, isPassed: bool)
    ensures var r := results + [(category, name, isPassed)];
      && Grouped(Outcomes(r, true)) == (if isPassed then Append(Grouped(Outcomes(results, true)), category, name) else Grouped(Outcomes(results, true)))
      && Grouped(Outcomes(r, false)) == (if isPassed then Grouped(Outcomes(results, false)) else Append(Grouped(Outcomes(results, false)), category, name))
  {
    var x := (category, name, isPassed);
    var r := results + [x];
    OutcomesSnoc(results, x, true);
    OutcomesSnoc(results, x, false);
    var same := Outcomes(results, isPassed);
    var other := Outcomes(results, !isPassed);
    assert Outcomes(r, isPassed) == same + [(category, name)];
    assert Outcomes(r, !isPassed) == other;
    GroupedSnoc(same, (category, name));
  }

  /**
   * After any run of updates, the Passed rows show the categories of the passed results in
   * first-seen order, each with exactly its names in the order recorded; likewise for Failed.
   */
  lemma PrinterRows(results: seq<(string, string, bool)>, outcome: bool)
    ensures var groups := Grouped(Outcomes(results, outcome));
      && Categories(groups) == Dedup(Firsts(Outcomes(results, outcome)))
      && forall k :: 0 <= k < |groups| ==> groups[k].names == NamesOf(Outcomes(results, outcome), groups[k].category)
  {
    GroupedGroups(Outcomes(results, outcome));
  }
}
