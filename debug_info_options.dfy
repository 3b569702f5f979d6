/**
 * struct drgn_debug_info_options of libdrgn/debug_info_options.c: a record of list options
 * (NULL-terminated string lists) and bool options, declared by the DRGN_DEBUG_INFO_OPTIONS
 * X-macro. The option list itself is not part of this model: a record is described by its
 * sequence of fields, each a list option with the address of its static default list or a
 * bool option with its default value, in declaration order.
 *
 * A list option either holds its default list, shared by pointer and never freed, or a list
 * of its own, which it frees when replaced.
 */
module DebugInfoOptions {
  import opened OptionsHeap
  import opened OptionsFormat
  import opened Text

  /** One LIST_OPTION or BOOL_OPTION of the X-macro. */
  datatype Field = ListField(name: string, defaultList: Ptr) | BoolField(name: string, defaultValue: bool)

  /** What a field of the struct holds. */
  datatype Value = ListValue(list: Ptr) | BoolValue(flag: bool)

  /** The values have the shape of the fields. */
  predicate Fits(fields: seq<Field>, values: seq<Value>) {
    |values| == |fields| && forall k :: 0 <= k < |fields| ==> (fields[k].ListField? <==> values[k].ListValue?)
  }

  /** The value drgn_debug_info_options_init gives a field. */
  predicate HoldsDefault(f: Field, v: Value) {
    match f
    case ListField(_, d) => v == ListValue(d)
    case BoolField(_, d) => v == BoolValue(d)
  }

  /** Field k is a list option holding a list of its own rather than its default. */
  predicate Owned(fields: seq<Field>, values: seq<Value>, k: int) {
    0 <= k < |fields| && k < |values| && fields[k].ListField? && values[k].ListValue?
    && values[k].list != fields[k].defaultList
  }

  /**
   * The record's invariant over the live lists: the default lists are live, every list the
   * record owns is live and is no default, and no two fields own the same list.
   */
  ghost predicate OwnsLists(fields: seq<Field>, values: seq<Value>, lists: map<Ptr, seq<Ptr>>) {
    && Fits(fields, values)
    && (forall k :: 0 <= k < |fields| && fields[k].ListField? ==> fields[k].defaultList in lists)
    && (forall k :: Owned(fields, values, k) ==> values[k].list in lists)
    && (forall k, j :: Owned(fields, values, k) && 0 <= j < |fields| && fields[j].ListField? ==>
          values[k].list != fields[j].defaultList)
    && (forall k, j :: Owned(fields, values, k) && Owned(fields, values, j) && values[k].list == values[j].list ==>
          k == j)
  }

  /** Writing a bool option leaves what the record owns as it was. */
  lemma BoolWriteOwns(fields: seq<Field>, values: seq<Value>, lists: map<Ptr, seq<Ptr>>, k: nat, b: bool)
    requires OwnsLists(fields, values, lists) && k < |fields| && fields[k].BoolField?
    ensures OwnsLists(fields, values[k := BoolValue(b)], lists)
  {
    var after := values[k := BoolValue(b)];
    assert forall j :: Owned(fields, after, j) <==> Owned(fields, values, j);
  }

  /** Two records own no list in common. */
  ghost predicate Apart(fields: seq<Field>, values: seq<Value>, others: seq<Value>) {
    forall k, j :: Owned(fields, values, k) && Owned(fields, others, j) ==> values[k].list != others[j].list
  }

  /**
   * What a copy made for the first fields of a record holds, against the heap (s0, l0) it
   * was made from: a list exactly where the record owns one, live, not live in (s0, l0),
   * with the strings of the record's list there, and no list twice.
   */
  ghost predicate CopiesHold(fields: seq<Field>, values: seq<Value>, s0: map<Ptr, string>, l0: map<Ptr, seq<Ptr>>,
                             s: map<Ptr, string>, l: map<Ptr, seq<Ptr>>, copies: seq<Ptr>)
  {
    && |copies| <= |fields|
    && (forall j :: 0 <= j < |copies| ==> (copies[j] != NULL <==> Owned(fields, values, j)))
    && (forall j :: 0 <= j < |copies| && Owned(fields, values, j) ==>
          && copies[j] in l && copies[j] !in l0
          && values[j].list in l0 && ContentsIn(s, l, copies[j]) == ContentsIn(s0, l0, values[j].list))
    && (forall i, j :: 0 <= i < j < |copies| && copies[i] != NULL ==> copies[i] != copies[j])
  }

  /** One more list_dup, or one more field without a list, keeps CopiesHold. */
  lemma CopiesStep(fields: seq<Field>, values: seq<Value>, s0: map<Ptr, string>, l0: map<Ptr, seq<Ptr>>,
                   s1: map<Ptr, string>, l1: map<Ptr, seq<Ptr>>,
                   s2: map<Ptr, string>, l2: map<Ptr, seq<Ptr>>, copies: seq<Ptr>, c: Ptr)
    requires OwnsLists(fields, values, l0) && |values| == |fields| && |copies| < |fields|
    requires CopiesHold(fields, values, s0, l0, s1, l1, copies)
    requires c != NULL <==> Owned(fields, values, |copies|)
    requires forall m :: m in l1 ==> m in l2 && ContentsIn(s2, l2, m) == ContentsIn(s1, l1, m)
    requires c != NULL ==>
      c !in l0 && c !in l1 && c in l2 && ContentsIn(s2, l2, c) == ContentsIn(s0, l0, values[|copies|].list)
    ensures CopiesHold(fields, values, s0, l0, s2, l2, copies + [c])
  {
    var k := |copies|;
    var all := copies + [c];
    Snoc(copies, c);
    CopiesLive(fields, values, s0, l0, s1, l1, s2, l2, copies, c);
    forall i, j | 0 <= i < j < |all| && all[i] != NULL
      ensures all[i] != all[j]
    {
      if j == k && c != NULL {
        assert all[i] in l1 && c !in l1;
      }
    }
  }

  /**
   * The progress of DupLists: the snapshots from (s0, l0) on are a chain of list_dup steps
   * whose last heap extends the first and holds the copies.
   */
  ghost predicate DupProgress(fields: seq<Field>, values: seq<Value>, s0: map<Ptr, string>, l0: map<Ptr, seq<Ptr>>,
                              strs: seq<map<Ptr, string>>, lsts: seq<map<Ptr, seq<Ptr>>>, copies: seq<Ptr>)
  {
    && Chain(strs, lsts, copies) && strs[0] == s0 && lsts[0] == l0
    && Extends(s0, l0, strs[|copies|], lsts[|copies|])
    && CopiesHold(fields, values, s0, l0, strs[|copies|], lsts[|copies|], copies)
  }

  lemma ProgressStep(fields: seq<Field>, values: seq<Value>, s0: map<Ptr, string>, l0: map<Ptr, seq<Ptr>>, n0: Ptr,
                     n1: Ptr, s2: map<Ptr, string>, l2: map<Ptr, seq<Ptr>>, n2: Ptr,
                     strs: seq<map<Ptr, string>>, lsts: seq<map<Ptr, seq<Ptr>>>, copies: seq<Ptr>, c: Ptr)
    requires DupProgress(fields, values, s0, l0, strs, lsts, copies)
    requires WellFormed(s0, l0, n0) && WellFormed(strs[|copies|], lsts[|copies|], n1) && WellFormed(s2, l2, n2)
    requires OwnsLists(fields, values, l0) && |copies| < |fields|
    requires Undoable(strs[|copies|], lsts[|copies|], s2, l2, c) && (c != NULL <==> Owned(fields, values, |copies|))
    requires c != NULL ==> ContentsIn(s2, l2, c) == ContentsIn(strs[|copies|], lsts[|copies|], values[|copies|].list)
    ensures DupProgress(fields, values, s0, l0, strs + [s2], lsts + [l2], copies + [c])
  {
    var k := |copies|;
    var s1, l1 := strs[k], lsts[k];
    DupStep(s0, l0, n0, s1, l1, n1, s2, l2, n2, c, if c == NULL then NULL else values[k].list);
    CopiesStep(fields, values, s0, l0, s1, l1, s2, l2, copies, c);
    ChainSnoc(strs, lsts, copies, s2, l2, c);
    Snoc(strs, s2);
    Snoc(lsts, l2);
  }

  /** The liveness and contents part of CopiesStep. */
  lemma CopiesLive(fields: seq<Field>, values: seq<Value>, s0: map<Ptr, string>, l0: map<Ptr, seq<Ptr>>,
                   s1: map<Ptr, string>, l1: map<Ptr, seq<Ptr>>,
                   s2: map<Ptr, string>, l2: map<Ptr, seq<Ptr>>, copies: seq<Ptr>, c: Ptr)
    requires OwnsLists(fields, values, l0) && |copies| < |fields|
    requires CopiesHold(fields, values, s0, l0, s1, l1, copies)
    requires c != NULL <==> Owned(fields, values, |copies|)
    requires forall m :: m in l1 ==> m in l2 && ContentsIn(s2, l2, m) == ContentsIn(s1, l1, m)
    requires c != NULL ==> c !in l0 && c in l2 && ContentsIn(s2, l2, c) == ContentsIn(s0, l0, values[|copies|].list)
    ensures forall j :: 0 <= j < |copies| + 1 && Owned(fields, values, j) ==>
      && (copies + [c])[j] in l2 && (copies + [c])[j] !in l0 && values[j].list in l0
      && ContentsIn(s2, l2, (copies + [c])[j]) == ContentsIn(s0, l0, values[j].list)
  {
    Snoc(copies, c);
    forall j | 0 <= j < |copies| && Owned(fields, values, j)
      ensures copies[j] in l2 && ContentsIn(s2, l2, copies[j]) == ContentsIn(s0, l0, values[j].list)
    {
      assert copies[j] in l1;
    }
  }

  /** What field k holds after a copy: the copy c of src's list, the default, or src's flag. */
  function Installed(f: Field, v: Value, c: Ptr): (r: Value)
    ensures f.BoolField? ==> r == v
    ensures f.ListField? ==> r.ListValue? && r.list == (if c != NULL then c else f.defaultList)
  {
    match f
    case ListField(_, d) => ListValue(if c != NULL then c else d)
    case BoolField(_, _) => v
  }

  /**
   * After a copy, the record owns exactly the copies, which are live, distinct and no
   * default, so the record's invariant holds on the heap left.
   */
  lemma InstalledOwns(fields: seq<Field>, before: seq<Value>, src: seq<Value>, after: seq<Value>, copies: seq<Ptr>,
                      l0: map<Ptr, seq<Ptr>>, l1: map<Ptr, seq<Ptr>>)
    requires OwnsLists(fields, before, l0) && Fits(fields, src) && |copies| == |fields| && |after| == |fields|
    requires forall k :: 0 <= k < |fields| ==> after[k] == Installed(fields[k], src[k], copies[k])
    requires forall k :: 0 <= k < |fields| && copies[k] != NULL ==>
      && fields[k].ListField? && copies[k] in l1
      && (forall j :: 0 <= j < |fields| && fields[j].ListField? ==> copies[k] != fields[j].defaultList)
    requires forall k, j :: 0 <= k < j < |fields| && copies[k] != NULL ==> copies[k] != copies[j]
    requires forall l :: l in l0 && (forall k :: Owned(fields, before, k) ==> l != before[k].list) ==> l in l1
    ensures OwnsLists(fields, after, l1)
  {
    forall k | 0 <= k < |fields| && fields[k].ListField?
      ensures fields[k].defaultList in l1
    {
      assert fields[k].defaultList in l0;
      assert forall j :: Owned(fields, before, j) ==> fields[k].defaultList != before[j].list;
    }
    assert forall k :: Owned(fields, after, k) ==> copies[k] != NULL && after[k].list == copies[k];
  }

  /**
   * Replacing the list of field k by its default or by a list that was not live before keeps
   * the invariant, as long as every other live list is still live.
   */
  lemma ReplaceOwns(fields: seq<Field>, values: seq<Value>, lists: map<Ptr, seq<Ptr>>, k: nat, copy: Ptr,
                    after: map<Ptr, seq<Ptr>>)
    requires OwnsLists(fields, values, lists) && k < |fields| && fields[k].ListField?
    requires copy == fields[k].defaultList || (copy !in lists && copy in after)
    requires forall l :: l in lists && !(Owned(fields, values, k) && l == values[k].list) ==> l in after
    ensures OwnsLists(fields, values[k := ListValue(copy)], after)
  {
    var vs := values[k := ListValue(copy)];
    forall j | 0 <= j < |fields| && fields[j].ListField?
      ensures fields[j].defaultList in after
    {
      assert fields[j].defaultList in lists;
      assert !(Owned(fields, values, k) && fields[j].defaultList == values[k].list);
    }
    forall j | Owned(fields, vs, j)
      ensures vs[j].list in after
    {
      if j != k {
        assert Owned(fields, values, j);
        assert !(Owned(fields, values, k) && values[j].list == values[k].list);
      }
    }
  }

  /** A record at its defaults owns nothing, so it keeps the invariant once the defaults are live. */
  lemma DefaultsOwnNothing(fields: seq<Field>, values: seq<Value>, lists: map<Ptr, seq<Ptr>>)
    requires Fits(fields, values) && forall k :: 0 <= k < |fields| ==> HoldsDefault(fields[k], values[k])
    requires forall k :: 0 <= k < |fields| && fields[k].ListField? ==> fields[k].defaultList in lists
    ensures OwnsLists(fields, values, lists)
    ensures forall k :: !Owned(fields, values, k)
  {
  }

  /** drgn_format_debug_info_options_common: the separator unless first, then `name=`. */
  method FormatCommon(text: string, name: string, first: bool) returns (t: string, f: bool)
    ensures t == text + (if first then "" else ", ") + (name + "=") && !f
  {
    t := text;
    if !first {
      t := t + ", ";
    }
    t := t + name + "=";
    Assoc(t[..|t| - |name| - 1], name, "=");
    f := false;
  }

  /** drgn_format_debug_info_options_bool: skips a default value, otherwise `name=True`/`False`. */
  method FormatBool(text: string, name: string, first: bool, value: bool, default: bool)
    returns (t: string, f: bool)
    ensures (t, f) == Emit(text, first, BoolSetting(name, value, default))
  {
    if value == default {
      return text, first;
    }
    t, f := FormatCommon(text, name, first);
    var v := if value then "True" else "False";
    Assoc(text + (if first then "" else ", "), name + "=", v);
    t := t + v;
  }

  /** The text for the string at position i of a tuple display: ", " before all but the first. */
  function Piece(i: nat, item: string): string {
    (if i == 0 then "'" else ", '") + item + "'"
  }

  /** One more string of a tuple display. */
  lemma QuotedStep(items: seq<string>, i: nat)
    requires i < |items|
    ensures Join(Quoted(items[..i + 1]), ", ") == Join(Quoted(items[..i]), ", ") + Piece(i, items[i])
  {
    var prefix := items[..i + 1];
    assert prefix[..i] == items[..i];
    var q := Quoted(items[..i]);
    var quoted := "'" + items[i] + "'";
    assert Quoted(prefix) == q + [quoted];
    JoinSnoc(q, quoted, ", ");
    if i == 0 {
      assert Join(q, ", ") == "";
      assert "" + quoted == quoted;
    } else {
      Assoc(Join(q, ", "), ", ", quoted);
      Assoc(", ", "'", items[i]);
      Assoc(", " + "'", items[i], "'");
      Assoc("'", items[i],  "'");
      assert ", " + "'" == ", '";
    }
  }

  /** The closing of a tuple display, with its trailing comma for one element. */
  lemma TupleClose(items: seq<string>)
    ensures TupleRepr(items) == "(" + Join(Quoted(items), ", ") + (if |items| == 1 then ",)" else ")")
  {
    CloseShapes("(" + Join(Quoted(items), ", "));
  }

  lemma CloseShapes(open: string)
    ensures open + "," + ")" == open + ",)" && open + "" + ")" == open + ")"
  {
    Assoc(open, ",", ")");
    assert "," + ")" == ",)";
    assert open + "" == open;
  }

  /**
   * The second half of drgn_format_debug_info_options_list: appends the strings of list as a
   * tuple display, one string at a time.
   */
  method AppendTuple(heap: Heap, text: string, list: Ptr) returns (t: string)
    requires heap.Valid() && list in heap.lists
    ensures t == text + TupleRepr(heap.Contents(list))
  {
    ghost var items := heap.Contents(list);
    var block := heap.lists[list];
    assert forall k :: 0 <= k < |block| - 1 ==> block[k] != NULL;
    t := text + "(";
    assert t == text + ("(" + Join(Quoted(items[..0]), ", "));
    var i := 0;
    while block[i] != NULL
      invariant 0 <= i < |block|
      invariant forall k :: 0 <= k < i ==> block[k] != NULL
      invariant t == text + ("(" + Join(Quoted(items[..i]), ", "))
      decreases |block| - i
    {
      QuotedStep(items, i);
      var piece := (if i == 0 then "'" else ", '") + heap.strings[block[i]] + "'";
      assert piece == Piece(i, items[i]);
      Assoc("(", Join(Quoted(items[..i]), ", "), piece);
      Assoc(text, "(" + Join(Quoted(items[..i]), ", "), piece);
      t := t + piece;
      i := i + 1;
    }
    assert items[..i] == items;
    var close := if i == 1 then ",)" else ")";
    TupleClose(items);
    Assoc(text, "(" + Join(Quoted(items), ", "), close);
    t := t + close;
  }

  /**
   * drgn_format_debug_info_options_list: skips a list equal to its default unless the default
   * is the directories list, otherwise `name=` and the strings as a tuple display.
   */
  method FormatList(heap: Heap, text: string, name: string, first: bool, list: Ptr, defaultList: Ptr,
                    directories: Ptr) returns (t: string, f: bool)
    requires heap.Valid() && list in heap.lists && defaultList in heap.lists
    ensures (t, f) == Emit(text, first,
      ListSetting(name, defaultList == directories, heap.Contents(list), heap.Contents(defaultList)))
  {
    if defaultList != directories {
      var eq := heap.ListsEqual(list, defaultList);
      if eq {
        return text, first;
      }
    }
    t, f := FormatCommon(text, name, first);
    t := AppendTuple(heap, t, list);
    Assoc(text + (if first then "" else ", "), name + "=", TupleRepr(heap.Contents(list)));
  }

  /** A debug info options record, drgn_debug_info_options. */
  class Options {
    /** The X-macro option list, in declaration order. */
    const fields: seq<Field>
    /** The address of drgn_debug_info_options_default_directories. */
    const directories: Ptr
    var values: seq<Value>

    ghost predicate Valid(heap: Heap)
      reads this, heap
    {
      heap.Valid() && OwnsLists(fields, values, heap.lists)
    }

    /**
     * drgn_debug_info_options_create: NULL (the out-of-memory error) when malloc fails,
     * which the model leaves to a nondeterministic choice, otherwise a new record, initialised.
     */
    static method Create(fields: seq<Field>, directories: Ptr) returns (o: Options?)
      ensures o != null ==> fresh(o) && o.fields == fields && o.directories == directories
      ensures o != null ==> Fits(fields, o.values) && forall k :: 0 <= k < |fields| ==> HoldsDefault(fields[k], o.values[k])
    {
      var fails: bool := *;
      if fails {
        return null;
      }
      o := new Options(fields, directories);
    }

    /** The record a successful malloc gives, initialised. */
    constructor (fields: seq<Field>, directories: Ptr)
      ensures this.fields == fields && this.directories == directories
      ensures Fits(fields, values) && forall k :: 0 <= k < |fields| ==> HoldsDefault(fields[k], values[k])
    {
      this.fields := fields;
      this.directories := directories;
      new;
      Init();
    }

    /** drgn_debug_info_options_init: every list option gets its default list, every bool its default. */
    method Init()
      modifies this
      ensures Fits(fields, values) && forall k :: 0 <= k < |fields| ==> HoldsDefault(fields[k], values[k])
    {
      values := seq(|fields|, k requires 0 <= k < |fields| =>
        match fields[k]
        case ListField(_, d) => ListValue(d)
        case BoolField(_, d) => BoolValue(d));
    }

    /** drgn_debug_info_options_set_<name> of a bool option: the record keeps owning what it owned. */
    method SetBool(k: nat, value: bool)
      requires Fits(fields, values) && k < |fields| && fields[k].BoolField?
      modifies this
      ensures values == old(values)[k := BoolValue(value)] && Fits(fields, values)
      ensures forall lists :: OwnsLists(fields, old(values), lists) ==> OwnsLists(fields, values, lists)
    {
      forall lists | OwnsLists(fields, values, lists)
        ensures OwnsLists(fields, values[k := BoolValue(value)], lists)
      {
        BoolWriteOwns(fields, values, lists, k, value);
      }
      values := values[k := BoolValue(value)];
    }

    /**
     * drgn_debug_info_options_set_<name> of a list option: the default list is stored as it
     * is; any other list is copied first, and the copy replaces the field's list, which is
     * freed unless it is the default. When the copy fails, nothing changes.
     */
    method SetList(heap: Heap, k: nat, value: Ptr) returns (err: bool)
      requires Valid(heap) && k < |fields| && fields[k].ListField? && value in heap.lists
      modifies this, heap
      ensures Valid(heap)
      ensures err ==> value != fields[k].defaultList
      ensures err ==> values == old(values) && heap.strings == old(heap.strings) && heap.lists == old(heap.lists)
      ensures !err ==> |values| == |fields| && forall j :: 0 <= j < |fields| && j != k ==> values[j] == old(values[j])
      ensures !err && value == fields[k].defaultList ==> values[k] == ListValue(value)
      ensures !err && value != fields[k].defaultList ==>
        && values[k].list !in old(heap.lists) && values[k].list in heap.lists
        && heap.Contents(values[k].list) == old(heap.Contents(value))
      ensures !err && Owned(fields, old(values), k) ==> old(values[k].list) !in heap.lists
      ensures !err ==> forall l :: l in old(heap.lists) && !(Owned(fields, old(values), k) && l == old(values[k].list)) ==>
        l in heap.lists && heap.Contents(l) == old(heap.Contents(l))
    {
      var d := fields[k].defaultList;
      var copy: Ptr;
      ghost var s0, l0, n0 := heap.strings, heap.lists, heap.next;
      if value == d {
        copy := value;
      } else {
        copy := heap.ListDup(value);
        if copy == NULL {
          return true;
        }
        GrownExtends(s0, l0, heap.strings, heap.lists, copy);
      }
      ghost var s1, l1, n1 := heap.strings, heap.lists, heap.next;
      assert values[k].list in l1 by {
        assert Owned(fields, values, k) || values[k].list == d;
      }
      heap.ListDestroy(values[k].list, d);
      ReplaceOwns(fields, values, l0, k, copy, heap.lists);
      values := values[k := ListValue(copy)];
      err := false;
      forall l | l in l0 && !(Owned(fields, old(values), k) && l == old(values[k].list))
        ensures l in heap.lists && heap.Contents(l) == ContentsIn(s0, l0, l)
      {
        ContentsKept(s0, l0, n0, s1, l1, n1, l);
        ContentsKept(s1, l1, n1, heap.strings, heap.lists, heap.next, l);
      }
      if value != d {
        ContentsKept(s1, l1, n1, heap.strings, heap.lists, heap.next, copy);
      }
    }

    /**
     * The first half of drgn_debug_info_options_copy, run on the source: a copy of every list
     * this record owns (NULL for bool options and default lists). When a copy fails, the
     * copies made so far are freed again, the last one first, and the heap is as before.
     */
    method DupLists(heap: Heap) returns (copies: seq<Ptr>, err: bool)
      requires Valid(heap)
      modifies heap
      ensures heap.Valid() && old(heap.next) <= heap.next
      ensures err ==> heap.strings == old(heap.strings) && heap.lists == old(heap.lists)
      ensures !err ==> |copies| == |fields|
      ensures !err ==> Extends(old(heap.strings), old(heap.lists), heap.strings, heap.lists)
      ensures !err ==> CopiesHold(fields, values, old(heap.strings), old(heap.lists), heap.strings, heap.lists, copies)
    {
      ghost var strs := [heap.strings];
      ghost var lsts := [heap.lists];
      copies := [];
      var k := 0;
      while k < |fields|
        invariant 0 <= k <= |fields| && |copies| == k && |strs| == k + 1 && |lsts| == k + 1
        invariant heap.Valid() && old(heap.next) <= heap.next
        invariant heap.strings == strs[k] && heap.lists == lsts[k]
        invariant DupProgress(fields, values, old(heap.strings), old(heap.lists), strs, lsts, copies)
      {
        ghost var n1 := heap.next;
        var c, failed := DupOne(heap, k);
        if failed {
          Unwind(heap, copies, strs, lsts);
          return copies, true;
        }
        ProgressStep(fields, values, old(heap.strings), old(heap.lists), old(heap.next), n1,
                     heap.strings, heap.lists, heap.next, strs, lsts, copies, c);
        copies := copies + [c];
        strs := strs + [heap.strings];
        lsts := lsts + [heap.lists];
        k := k + 1;
      }
      return copies, false;
    }

    /** The copy of field k: a list_dup of its list when the record owns one, else NULL. */
    method DupOne(heap: Heap, k: nat) returns (c: Ptr, failed: bool)
      requires heap.Valid() && k < |fields| && |values| == |fields|
      requires Owned(fields, values, k) ==> values[k].list in heap.lists
      modifies heap
      ensures heap.Valid() && old(heap.next) <= heap.next
      ensures failed ==> heap.strings == old(heap.strings) && heap.lists == old(heap.lists)
      ensures !failed ==> Undoable(old(heap.strings), old(heap.lists), heap.strings, heap.lists, c)
      ensures !failed ==> (c != NULL <==> Owned(fields, values, k))
      ensures !failed && c != NULL ==>
        heap.Contents(c) == ContentsIn(old(heap.strings), old(heap.lists), values[k].list)
    {
      if Owned(fields, values, k) {
        c := heap.ListDup(values[k].list);
        failed := c == NULL;
      } else {
        c, failed := NULL, false;
      }
    }

    /** The cleanup of a failed copy: frees the copies made so far, the last one first. */
    static method Unwind(heap: Heap, copies: seq<Ptr>, ghost strs: seq<map<Ptr, string>>,
                         ghost lsts: seq<map<Ptr, seq<Ptr>>>)
      requires Chain(strs, lsts, copies)
      requires heap.Valid() && heap.strings == strs[|copies|] && heap.lists == lsts[|copies|]
      modifies heap
      ensures heap.Valid() && heap.strings == strs[0] && heap.lists == lsts[0] && heap.next == old(heap.next)
    {
      var j := |copies|;
      while j > 0
        invariant 0 <= j <= |copies| && heap.next == old(heap.next)
        invariant heap.Valid() && heap.strings == strs[j] && heap.lists == lsts[j]
      {
        heap.ListDestroy(copies[j - 1], NULL);
        j := j - 1;
      }
    }

    /**
     * The second half of drgn_debug_info_options_copy, run on the destination: each list
     * option frees its list unless it is the default, then takes the copy or, where there is
     * none, its default; each bool option takes the value of src.
     */
    method Install(heap: Heap, src: Options, copies: seq<Ptr>)
      requires Valid(heap) && src != this && src.fields == fields && Fits(fields, src.values)
      requires |copies| == |fields|
      requires forall k :: 0 <= k < |fields| && copies[k] != NULL ==>
        && fields[k].ListField? && copies[k] in heap.lists
        && (forall j :: 0 <= j < |fields| && fields[j].ListField? ==> copies[k] != fields[j].defaultList)
        && (forall j :: Owned(fields, values, j) ==> copies[k] != values[j].list)
      requires forall k, j :: 0 <= k < j < |fields| && copies[k] != NULL ==> copies[k] != copies[j]
      modifies this, heap
      ensures Valid(heap) && old(heap.next) == heap.next
      ensures |values| == |fields|
      ensures forall k :: 0 <= k < |fields| ==> values[k] == Installed(fields[k], src.values[k], copies[k])
      ensures forall l :: l in heap.lists ==> l in old(heap.lists) && heap.lists[l] == old(heap.lists)[l]
      ensures forall p :: p in heap.strings ==> p in old(heap.strings) && heap.strings[p] == old(heap.strings)[p]
      ensures forall l :: l in old(heap.lists) && (forall k :: Owned(fields, old(values), k) ==> l != old(values)[k].list) ==>
        l in heap.lists
      ensures forall k :: Owned(fields, old(values), k) ==> old(values)[k].list !in heap.lists
    {
      var k := 0;
      while k < |fields|
        invariant 0 <= k <= |fields| && |values| == |fields|
        invariant heap.Valid() && old(heap.next) == heap.next
        invariant forall j :: 0 <= j < k ==> values[j] == Installed(fields[j], src.values[j], copies[j])
        invariant forall j :: k <= j < |fields| ==> values[j] == old(values)[j]
        invariant forall l :: l in heap.lists ==> l in old(heap.lists) && heap.lists[l] == old(heap.lists)[l]
        invariant forall p :: p in heap.strings ==> p in old(heap.strings) && heap.strings[p] == old(heap.strings)[p]
        invariant forall l :: (l in old(heap.lists) &&
          forall j :: 0 <= j < k && Owned(fields, old(values), j) ==> l != old(values)[j].list) ==> l in heap.lists
        invariant forall j :: 0 <= j < k && Owned(fields, old(values), j) ==> old(values)[j].list !in heap.lists
      {
        assert Owned(fields, old(values), k) ==> values[k].list in heap.lists;
        InstallField(heap, src.values[k], copies[k], k);
        k := k + 1;
      }
      InstalledOwns(fields, old(values), src.values, values, copies, old(heap.lists), heap.lists);
    }

    /** One field of Install: frees the list it owns, then takes the copy, the default or src's flag. */
    method InstallField(heap: Heap, v: Value, c: Ptr, k: nat)
      requires heap.Valid() && k < |fields| && |values| == |fields|
      requires Owned(fields, values, k) ==> values[k].list in heap.lists
      modifies this, heap
      ensures heap.Valid() && heap.next == old(heap.next)
      ensures values == old(values)[k := Installed(fields[k], v, c)]
      ensures heap.lists == old(heap.lists) - (if Owned(fields, old(values), k) then {old(values)[k].list} else {})
      ensures forall p :: p in heap.strings ==> p in old(heap.strings) && heap.strings[p] == old(heap.strings)[p]
    {
      match fields[k] {
        case ListField(_, d) =>
          heap.ListDestroy(if values[k].ListValue? then values[k].list else NULL, d);
        case BoolField(_, _) =>
      }
      values := values[k := Installed(fields[k], v, c)];
    }

    /**
     * drgn_debug_info_options_copy: makes this record equal to src. Copying a record onto
     * itself does nothing. Every list src owns is copied before anything of this record
     * changes, so when a copy fails nothing changes at all; default lists are shared, not
     * copied.
     */
    method Copy(heap: Heap, src: Options) returns (err: bool)
      requires Valid(heap) && src.Valid(heap) && src.fields == fields
      requires src != this ==> Apart(fields, values, src.values)
      modifies this, heap
      ensures Valid(heap) && src.Valid(heap)
      ensures src == this ==> !err && values == old(values)
      ensures err || src == this ==>
        values == old(values) && heap.strings == old(heap.strings) && heap.lists == old(heap.lists)
      ensures !err && src != this ==> |values| == |fields| && forall k :: 0 <= k < |fields| ==>
        if fields[k].BoolField? || src.values[k].list == fields[k].defaultList then values[k] == src.values[k]
        else
          && values[k].list !in old(heap.lists) && values[k].list in heap.lists
          && heap.Contents(values[k].list) == ContentsIn(old(heap.strings), old(heap.lists), src.values[k].list)
      ensures !err && src != this ==> forall k :: Owned(fields, old(values), k) ==> old(values)[k].list !in heap.lists
      ensures !err ==> forall l :: l in old(heap.lists) && (forall k :: Owned(fields, old(values), k) ==> l != old(values)[k].list) ==>
        l in heap.lists && heap.Contents(l) == ContentsIn(old(heap.strings), old(heap.lists), l)
    {
      if src == this {
        return false;
      }
      var copies;
      copies, err := src.DupLists(heap);
      if err {
        return;
      }
      ghost var s1, l1, n1 := heap.strings, heap.lists, heap.next;
      Install(heap, src, copies);
      CopyKeeps(old(heap.strings), old(heap.lists), old(heap.next), s1, l1, n1,
                heap.strings, heap.lists, heap.next);
      forall k | 0 <= k < |fields| && copies[k] != NULL
        ensures heap.Contents(copies[k]) == ContentsIn(s1, l1, copies[k])
      {
        ContentsKept(s1, l1, n1, heap.strings, heap.lists, heap.next, copies[k]);
      }
      assert src.Valid(heap) by {
        forall j | Owned(fields, src.values, j)
          ensures src.values[j].list in heap.lists
        {
          assert forall k :: Owned(fields, old(values), k) ==> src.values[j].list != old(values)[k].list;
        }
      }
    }

    /** What the formatter sees of field k. */
    ghost function SettingAt(heap: Heap, k: nat): Setting
      reads this, heap
      requires Valid(heap) && k < |fields|
    {
      match fields[k]
      case ListField(name, d) =>
        ListSetting(name, d == directories, heap.Contents(values[k].list), heap.Contents(d))
      case BoolField(name, d) => BoolSetting(name, values[k].flag, d)
    }

    /** What the formatter sees of the first n fields. */
    ghost function Settings(heap: Heap, n: nat): (ss: seq<Setting>)
      reads this, heap
      requires Valid(heap) && n <= |fields|
      ensures |ss| == n
    {
      if n == 0 then [] else Settings(heap, n - 1) + [SettingAt(heap, n - 1)]
    }

    /** The formatter of field k, as the X-macro expands it for a list or a bool option. */
    method FormatField(heap: Heap, k: nat, text: string, first: bool) returns (t: string, f: bool)
      requires Valid(heap) && k < |fields|
      ensures (t, f) == Emit(text, first, SettingAt(heap, k))
    {
      match fields[k] {
        case ListField(name, d) =>
          assert values[k].list in heap.lists by {
            assert Owned(fields, values, k) || values[k].list == d;
          }
          t, f := FormatList(heap, text, name, first, values[k].list, d, directories);
        case BoolField(name, d) =>
          t, f := FormatBool(text, name, first, values[k].flag, d);
      }
    }

    /**
     * drgn_format_debug_info_options: the shown options as `name=value`, separated by ", ".
     * The enum options are not part of this model.
     */
    method Format(heap: Heap) returns (text: string)
      requires Valid(heap)
      ensures text == Join(Emitted(Settings(heap, |fields|)), ", ")
    {
      text := "";
      var first := true;
      var k := 0;
      while k < |fields|
        invariant 0 <= k <= |fields|
        invariant text == Join(Emitted(Settings(heap, k)), ", ")
        invariant first == (|Emitted(Settings(heap, k))| == 0)
      {
        ghost var ss := Settings(heap, k);
        ghost var s := SettingAt(heap, k);
        EmitStep(ss, s, text, first);
        assert Settings(heap, k + 1) == ss + [s];
        text, first := FormatField(heap, k, text, first);
        k := k + 1;
      }
    }
  }
}
