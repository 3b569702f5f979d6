/**
 * The text drgn_format_debug_info_options produces, as a function of what each option holds:
 * the options that differ from their defaults (and the directories list, always) as
 * `name=value`, separated by ", ", in the order the options are declared.
 */
module OptionsFormat {
  import opened Text

  /**
   * What the formatter sees of one option. For a list option, `always` says whether its
   * default is the default directories list, which is shown even when unchanged.
   */
  datatype Setting =
    | ListSetting(name: string, always: bool, items: seq<string>, defaults: seq<string>)
    | BoolSetting(name: string, value: bool, default: bool)

  /** Whether the option is part of the text. */
  predicate Shown(s: Setting) {
    match s
    case ListSetting(_, always, items, defaults) => always || items != defaults
    case BoolSetting(_, value, default) => value != default
  }

  /** Each string between single quotes. */
  function Quoted(items: seq<string>): (q: seq<string>)
    ensures |q| == |items|
    ensures forall i :: 0 <= i < |items| ==> q[i] == "'" + items[i] + "'"
  {
    if |items| == 0 then [] else Quoted(items[..|items| - 1]) + ["'" + items[|items| - 1] + "'"]
  }

  /**
   * A parenthesised list of single-quoted items, unescaped, with a trailing comma for one
   * item: "('a', 'b')", "('a',)" and "()". It reads as a Python tuple unless an item holds
   * a quote or a backslash.
   */
  function TupleRepr(items: seq<string>): string {
    "(" + Join(Quoted(items), ", ") + (if |items| == 1 then "," else "") + ")"
  }

  /** The three shapes of a tuple display. */
  lemma TupleShapes(a: string, b: string)
    ensures TupleRepr([]) == "()"
    ensures TupleRepr([a]) == "('" + a + "',)"
    ensures TupleRepr([a, b]) == "('" + a + "', '" + b + "')"
  {
    assert Quoted([a]) == ["'" + a + "'"];
    assert Join(["'" + a + "'"], ", ") == "'" + a + "'";
    var q := ["'" + a + "'", "'" + b + "'"];
    assert Quoted([a, b]) == q;
    assert q[1..] == ["'" + b + "'"];
    assert Join(q, ", ") == "'" + a + "'" + ", " + ("'" + b + "'");
    assert "(" + "'" == "('";
    assert "'" + "," + ")" == "',)";
    assert "'" + ", " + "'" == "', '";
  }

  function ValueText(s: Setting): string {
    match s
    case ListSetting(_, _, items, _) => TupleRepr(items)
    case BoolSetting(_, value, _) => if value then "True" else "False"
  }

  function Entry(s: Setting): string {
    s.name + "=" + ValueText(s)
  }

  /** The entries of the shown options, in order. */
  function Emitted(ss: seq<Setting>): (es: seq<string>)
    ensures |es| <= |ss|
  {
    if |ss| == 0 then []
    else
      var last := ss[|ss| - 1];
      Emitted(ss[..|ss| - 1]) + (if Shown(last) then [Entry(last)] else [])
  }

  /** The formatter's text and `first` flag after one more option. */
  function Emit(text: string, first: bool, s: Setting): (string, bool) {
    if Shown(s) then (text + (if first then "" else ", ") + Entry(s), false) else (text, first)
  }

  /**
   * Threading the `first` flag through the options joins the shown entries with ", ": no
   * separator before the first entry, one between each two.
   */
  lemma EmitStep(ss: seq<Setting>, s: Setting, text: string, first: bool)
    requires text == Join(Emitted(ss), ", ") && first == (|Emitted(ss)| == 0)
    ensures Emit(text, first, s) == (Join(Emitted(ss + [s]), ", "), |Emitted(ss + [s])| == 0)
  {
    assert (ss + [s])[..|ss|] == ss;
    var es := Emitted(ss);
    if Shown(s) {
      assert Emitted(ss + [s]) == es + [Entry(s)];
      JoinSnoc(es, Entry(s), ", ");
      if first {
        assert text + "" + Entry(s) == Entry(s);
      }
    } else {
      assert Emitted(ss + [s]) == es + [];
      assert es + [] == es;
    }
  }

  /** An option is in the text exactly when it is shown; the entries keep the declared order. */
  lemma {:induction false} EmittedMembers(ss: seq<Setting>)
    ensures forall i :: 0 <= i < |ss| && Shown(ss[i]) ==> Entry(ss[i]) in Emitted(ss)
    ensures forall e :: e in Emitted(ss) ==> exists i :: 0 <= i < |ss| && Shown(ss[i]) && e == Entry(ss[i])
  {
    if |ss| > 0 {
      var prefix := ss[..|ss| - 1];
      EmittedMembers(prefix);
      assert forall i :: 0 <= i < |prefix| ==> prefix[i] == ss[i];
    }
  }

  /** A list option whose default is the directories list is always in the text. */
  lemma DirectoriesShown(name: string, items: seq<string>, defaults: seq<string>)
    ensures Shown(ListSetting(name, true, items, defaults))
  {
  }

  /** With every option at its default, only the always-shown ones are left. */
  lemma {:induction false} EmittedAtDefaults(ss: seq<Setting>)
    requires forall i :: 0 <= i < |ss| ==> AtDefault(ss[i])
    ensures Emitted(ss) == Always(ss)
  {
    if |ss| > 0 {
      var prefix := ss[..|ss| - 1];
      EmittedAtDefaults(prefix);
    }
  }

  predicate AtDefault(s: Setting) {
    match s
    case ListSetting(_, _, items, defaults) => items == defaults
    case BoolSetting(_, value, default) => value == default
  }

  /** The entries of the always-shown list options. */
  function Always(ss: seq<Setting>): seq<string> {
    if |ss| == 0 then []
    else
      var last := ss[|ss| - 1];
      Always(ss[..|ss| - 1]) + (if last.ListSetting? && last.always then [Entry(last)] else [])
  }

  /** The default search directories of debug info files. */
  const DEFAULT_DIRECTORIES: seq<string> := ["", ".debug", "/usr/lib/debug"]

  /** The tuple display of the default directories. */
  lemma DirectoriesTuple()
    ensures TupleRepr(DEFAULT_DIRECTORIES) == "('', '.debug', '/usr/lib/debug')"
  {
    assert "'" + "" + "'" == "''";
    assert "'" + ".debug" + "'" == "'.debug'";
    assert "'" + "/usr/lib/debug" + "'" == "'/usr/lib/debug'";
    var q := ["''", "'.debug'", "'/usr/lib/debug'"];
    assert Quoted(DEFAULT_DIRECTORIES) == q;
    assert q[1..] == ["'.debug'", "'/usr/lib/debug'"];
    assert q[1..][1..] == ["'/usr/lib/debug'"];
    var inner := "'.debug'" + ", " + "'/usr/lib/debug'";
    assert Join(q, ", ") == "''" + ", " + inner;
    DirectoriesItems();
    DirectoriesParens();
  }

  lemma DirectoriesItems()
    ensures "''" + ", " + ("'.debug'" + ", " + "'/usr/lib/debug'") == "'', '.debug', '/usr/lib/debug'"
  {
  }

  lemma DirectoriesParens()
    ensures "(" + "'', '.debug', '/usr/lib/debug'" + "" + ")" == "('', '.debug', '/usr/lib/debug')"
  {
  }

  lemma DirectoriesEntry()
    ensures "directories" + "=" + "('', '.debug', '/usr/lib/debug')" == "directories=('', '.debug', '/usr/lib/debug')"
  {
  }

  /**
   * Freshly initialised options format as the directories list alone:
   * "directories=('', '.debug', '/usr/lib/debug')".
   */
  lemma DefaultText(ss: seq<Setting>, d: nat)
    requires d < |ss| && ss[d] == ListSetting("directories", true, DEFAULT_DIRECTORIES, DEFAULT_DIRECTORIES)
    requires forall i :: 0 <= i < |ss| ==> AtDefault(ss[i])
    requires forall i :: 0 <= i < |ss| && i != d ==> !(ss[i].ListSetting? && ss[i].always)
    ensures Join(Emitted(ss), ", ") == "directories=('', '.debug', '/usr/lib/debug')"
  {
    EmittedAtDefaults(ss);
    AlwaysSingle(ss, d);
    DirectoriesTuple();
    DirectoriesEntry();
  }

  lemma {:induction false} AlwaysSingle(ss: seq<Setting>, d: nat)
    requires d < |ss| && ss[d].ListSetting? && ss[d].always
    requires forall i :: 0 <= i < |ss| && i != d ==> !(ss[i].ListSetting? && ss[i].always)
    ensures Always(ss) == [Entry(ss[d])]
  {
    var prefix := ss[..|ss| - 1];
    if d < |ss| - 1 {
      AlwaysSingle(prefix, d);
    } else {
      AlwaysNone(prefix);
    }
  }

  lemma {:induction false} AlwaysNone(ss: seq<Setting>)
    requires forall i :: 0 <= i < |ss| ==> !(ss[i].ListSetting? && ss[i].always)
    ensures Always(ss) == []
  {
    if |ss| > 0 {
      AlwaysNone(ss[..|ss| - 1]);
    }
  }
}
