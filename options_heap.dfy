/**
 * The C memory that the string-list options of libdrgn/debug_info_options.c live in.
 *
 * A pointer is a natural number, 0 being NULL. The heap holds two kinds of blocks: strings
 * (each `strdup`ed or static) and NULL-terminated arrays of string pointers (the lists). A
 * list owns its strings: no string pointer occurs twice in one list or in two lists, so
 * freeing a list's strings frees nothing another list still uses. Static lists (the
 * defaults) are blocks like any other that are simply never freed.
 */
module OptionsHeap {
  import opened Text

  type Ptr = nat

  const NULL: Ptr := 0

  /** A list block: string pointers followed by the NULL terminator. */
  predicate Terminated(block: seq<Ptr>) {
    |block| > 0 && block[|block| - 1] == NULL
  }

  /** The string pointers of a list block, before its terminator. */
  function Items(block: seq<Ptr>): (items: seq<Ptr>)
    requires Terminated(block)
    ensures |items| == |block| - 1
  {
    block[..|block| - 1]
  }

  /** The set of pointers in ps. */
  ghost function Elements(ps: seq<Ptr>): set<Ptr> {
    set p | p in ps
  }

  /** The strings ps point to. */
  function Deref(ps: seq<Ptr>, strings: map<Ptr, string>): (r: seq<string>)
    requires forall i :: 0 <= i < |ps| ==> ps[i] in strings
    ensures |r| == |ps|
    ensures forall i :: 0 <= i < |ps| ==> r[i] == strings[ps[i]]
    decreases |ps|
  {
    if |ps| == 0 then [] else [strings[ps[0]]] + Deref(ps[1..], strings)
  }

  /** Two pointer sequences read the same strings from two heaps that agree on them. */
  lemma DerefAgree(ps: seq<Ptr>, s0: map<Ptr, string>, s1: map<Ptr, string>)
    requires forall i :: 0 <= i < |ps| ==> ps[i] in s0 && ps[i] in s1 && s0[ps[i]] == s1[ps[i]]
    ensures Deref(ps, s0) == Deref(ps, s1)
  {
  }

  /** Two pointer sequences that point, one by one, to equal strings read the same strings. */
  lemma DerefPointwise(ps: seq<Ptr>, s0: map<Ptr, string>, qs: seq<Ptr>, s1: map<Ptr, string>)
    requires |ps| == |qs|
    requires forall i :: 0 <= i < |ps| ==> ps[i] in s0 && qs[i] in s1 && s0[ps[i]] == s1[qs[i]]
    ensures Deref(ps, s0) == Deref(qs, s1)
  {
  }

  /**
   * The heap invariant: NULL is not allocated, every live block lies below the allocation
   * mark, every list is terminated and points only to live strings, and lists own their
   * strings.
   */
  ghost predicate WellFormed(strings: map<Ptr, string>, lists: map<Ptr, seq<Ptr>>, next: Ptr) {
    && NULL !in strings && NULL !in lists && NULL < next
    && (forall p :: p in strings ==> p < next)
    && (forall p :: p in lists ==> p < next)
    && (forall l :: l in lists ==> Terminated(lists[l]))
    && (forall l, i :: l in lists && 0 <= i < |lists[l]| - 1 ==> lists[l][i] in strings)
    && (forall l1, l2, i, j ::
          (l1 in lists && l2 in lists && 0 <= i < |lists[l1]| - 1 && 0 <= j < |lists[l2]| - 1
           && lists[l1][i] == lists[l2][j]) ==> l1 == l2 && i == j)
  }

  /** The strings of the live list l. */
  ghost function ContentsIn(strings: map<Ptr, string>, lists: map<Ptr, seq<Ptr>>, l: Ptr): seq<string> {
    if l in lists && Terminated(lists[l]) && forall i :: 0 <= i < |lists[l]| - 1 ==> lists[l][i] in strings
    then Deref(Items(lists[l]), strings)
    else []
  }

  /**
   * The heap after a successful list_dup into c: the lists of before plus c, the strings of
   * before plus exactly the strings c owns, which are all new.
   */
  ghost predicate Grown(s0: map<Ptr, string>, l0: map<Ptr, seq<Ptr>>,
                        s1: map<Ptr, string>, l1: map<Ptr, seq<Ptr>>, c: Ptr)
  {
    && c != NULL && c !in l0 && c in l1 && l1 - {c} == l0
    && Terminated(l1[c])
    && s1 - Elements(Items(l1[c])) == s0
    && Elements(Items(l1[c])) !! s0.Keys
  }

  /** Every list of l0 is in l1 unchanged, and every string of s0 in s1 unchanged. */
  ghost predicate Extends(s0: map<Ptr, string>, l0: map<Ptr, seq<Ptr>>,
                          s1: map<Ptr, string>, l1: map<Ptr, seq<Ptr>>)
  {
    && (forall l :: l in l0 ==> l in l1 && l1[l] == l0[l])
    && (forall p :: p in s0 ==> p in s1 && s1[p] == s0[p])
  }

  /** A list present in two heaps with the same block has the same strings in both. */
  lemma ContentsKept(s0: map<Ptr, string>, l0: map<Ptr, seq<Ptr>>, n0: Ptr,
                     s1: map<Ptr, string>, l1: map<Ptr, seq<Ptr>>, n1: Ptr, l: Ptr)
    requires WellFormed(s0, l0, n0) && WellFormed(s1, l1, n1)
    requires l in l0 && l in l1 && l1[l] == l0[l]
    requires forall p :: p in s1 && p in s0 ==> s1[p] == s0[p]
    ensures ContentsIn(s0, l0, l) == ContentsIn(s1, l1, l)
  {
    DerefAgree(Items(l0[l]), s0, s1);
  }

  /** A successful list_dup keeps every list and string that was there before. */
  lemma GrownExtends(s0: map<Ptr, string>, l0: map<Ptr, seq<Ptr>>,
                     s1: map<Ptr, string>, l1: map<Ptr, seq<Ptr>>, c: Ptr)
    requires Grown(s0, l0, s1, l1, c)
    ensures Extends(s0, l0, s1, l1)
  {
    forall l | l in l0
      ensures l in l1 && l1[l] == l0[l]
    {
      assert l in l1 - {c};
    }
    forall p | p in s0
      ensures p in s1 && s1[p] == s0[p]
    {
      assert p in s1 - Elements(Items(l1[c]));
    }
  }

  /** One step of a sequence of list_dup calls: nothing happened (c is NULL), or c was grown. */
  ghost predicate Undoable(s0: map<Ptr, string>, l0: map<Ptr, seq<Ptr>>,
                           s1: map<Ptr, string>, l1: map<Ptr, seq<Ptr>>, c: Ptr)
  {
    if c == NULL then s1 == s0 && l1 == l0 else Grown(s0, l0, s1, l1, c)
  }

  /** A sequence of list_dup steps, heap snapshot by heap snapshot. */
  ghost predicate Chain(strs: seq<map<Ptr, string>>, lsts: seq<map<Ptr, seq<Ptr>>>, copies: seq<Ptr>) {
    && |strs| == |copies| + 1 && |lsts| == |copies| + 1
    && forall j :: 0 <= j < |copies| ==> Undoable(strs[j], lsts[j], strs[j + 1], lsts[j + 1], copies[j])
  }

  lemma ChainSnoc(strs: seq<map<Ptr, string>>, lsts: seq<map<Ptr, seq<Ptr>>>, copies: seq<Ptr>,
                  s: map<Ptr, string>, l: map<Ptr, seq<Ptr>>, c: Ptr)
    requires Chain(strs, lsts, copies) && Undoable(strs[|copies|], lsts[|copies|], s, l, c)
    ensures Chain(strs + [s], lsts + [l], copies + [c])
  {
    Snoc(strs, s);
    Snoc(lsts, l);
    Snoc(copies, c);
  }

  /**
   * After one more step of a sequence of list_dup calls from l, the heap still extends the
   * first one, keeps the strings of every list it had, and a new list c holds the strings l
   * held in the first heap.
   */
  lemma DupStep(s0: map<Ptr, string>, l0: map<Ptr, seq<Ptr>>, n0: Ptr,
                s1: map<Ptr, string>, l1: map<Ptr, seq<Ptr>>, n1: Ptr,
                s2: map<Ptr, string>, l2: map<Ptr, seq<Ptr>>, n2: Ptr, c: Ptr, l: Ptr)
    requires WellFormed(s0, l0, n0) && WellFormed(s1, l1, n1) && WellFormed(s2, l2, n2)
    requires Extends(s0, l0, s1, l1) && Undoable(s1, l1, s2, l2, c)
    requires c != NULL ==> l in l0 && ContentsIn(s2, l2, c) == ContentsIn(s1, l1, l)
    ensures Extends(s0, l0, s2, l2)
    ensures c != NULL ==> c !in l0 && c !in l1 && c in l2 && ContentsIn(s2, l2, c) == ContentsIn(s0, l0, l)
    ensures forall m :: m in l1 ==> m in l2 && ContentsIn(s2, l2, m) == ContentsIn(s1, l1, m)
  {
    if c != NULL {
      GrownExtends(s1, l1, s2, l2, c);
      ContentsKept(s0, l0, n0, s1, l1, n1, l);
      forall m | m in l1
        ensures m in l2 && ContentsIn(s2, l2, m) == ContentsIn(s1, l1, m)
      {
        ContentsKept(s1, l1, n1, s2, l2, n2, m);
      }
    }
  }

  /**
   * A heap that extends s0 and is then shrunk to s2 keeps the strings of every list of s0
   * still there.
   */
  lemma CopyKeeps(s0: map<Ptr, string>, l0: map<Ptr, seq<Ptr>>, n0: Ptr,
                  s1: map<Ptr, string>, l1: map<Ptr, seq<Ptr>>, n1: Ptr,
                  s2: map<Ptr, string>, l2: map<Ptr, seq<Ptr>>, n2: Ptr)
    requires WellFormed(s0, l0, n0) && WellFormed(s1, l1, n1) && WellFormed(s2, l2, n2)
    requires Extends(s0, l0, s1, l1)
    requires forall l :: l in l2 ==> l in l1 && l2[l] == l1[l]
    requires forall p :: p in s2 ==> p in s1 && s2[p] == s1[p]
    ensures forall l :: l in l0 && l in l2 ==> ContentsIn(s2, l2, l) == ContentsIn(s0, l0, l)
  {
    forall l | l in l0 && l in l2
      ensures ContentsIn(s2, l2, l) == ContentsIn(s0, l0, l)
    {
      ContentsKept(s0, l0, n0, s1, l1, n1, l);
      ContentsKept(s1, l1, n1, s2, l2, n2, l);
    }
  }

  /** The allocator's state and the blocks it has handed out. */
  class Heap {
    var strings: map<Ptr, string>
    var lists: map<Ptr, seq<Ptr>>
    /** The next address the allocator hands out; every live block lies below it. */
    var next: Ptr

    ghost predicate Valid()
      reads this
    {
      WellFormed(strings, lists, next)
    }

    /** The strings of the live list l, in order. */
    ghost function Contents(l: Ptr): seq<string>
      reads this
      requires Valid() && l in lists
    {
      ContentsIn(strings, lists, l)
    }

    /** An empty heap with nothing allocated. */
    constructor ()
      ensures Valid() && strings == map[] && lists == map[]
    {
      strings := map[];
      lists := map[];
      next := 1;
    }

    /** strdup: a new string block holding s, or NULL when allocation fails. */
    method StrDup(s: string) returns (p: Ptr)
      requires Valid()
      modifies this
      ensures Valid() && lists == old(lists) && old(next) <= next
      ensures p == NULL ==> strings == old(strings)
      ensures p != NULL ==> old(next) <= p < next && strings == old(strings)[p := s]
    {
      var fails: bool := *;
      if fails {
        p := NULL;
      } else {
        p := next;
        strings := strings[p := s];
        next := next + 1;
      }
    }

    /**
     * malloc_array(n + 1, ...): a new list block with room for n strings, or NULL when
     * allocation fails. Its slots are written in order; the model keeps the block terminated
     * after the slots written so far.
     */
    method NewList(n: nat) returns (p: Ptr)
      requires Valid()
      modifies this
      ensures Valid() && strings == old(strings) && old(next) <= next
      ensures p == NULL ==> lists == old(lists)
      ensures p != NULL ==> old(next) <= p < next && lists == old(lists)[p := [NULL]]
    {
      var fails: bool := *;
      if fails {
        p := NULL;
      } else {
        p := next;
        lists := lists[p := [NULL]];
        next := next + 1;
      }
    }

    /** free of a string block. */
    method FreeString(p: Ptr)
      modifies this
      ensures strings == old(strings) - {p} && lists == old(lists) && next == old(next)
    {
      strings := strings - {p};
    }

    /** free of a list block (its strings are freed separately). */
    method FreeList(p: Ptr)
      modifies this
      ensures lists == old(lists) - {p} && strings == old(strings) && next == old(next)
    {
      lists := lists - {p};
    }

    /**
     * drgn_debug_info_options_list_destroy: frees a list and its strings, unless the list is
     * NULL or the default list, which are left alone.
     */
    method ListDestroy(list: Ptr, defaultList: Ptr)
      requires Valid()
      requires list == NULL || list == defaultList || list in lists
      modifies this
      ensures Valid() && next == old(next)
      ensures list == NULL || list == defaultList ==> strings == old(strings) && lists == old(lists)
      ensures list != NULL && list != defaultList ==>
        && lists == old(lists) - {list}
        && strings == old(strings) - Elements(Items(old(lists)[list]))
    {
      if list != NULL && list != defaultList {
        ghost var s0 := strings;
        var block := lists[list];
        assert forall k :: 0 <= k < |block| - 1 ==> block[k] != NULL;
        var i := 0;
        while block[i] != NULL
          invariant 0 <= i < |block|
          invariant forall k :: 0 <= k < i ==> block[k] != NULL
          invariant lists == old(lists) && next == old(next)
          invariant strings == s0 - Elements(block[..i])
          decreases |block| - i
        {
          assert block[..i + 1] == block[..i] + [block[i]];
          assert Elements(block[..i + 1]) == Elements(block[..i]) + {block[i]};
          FreeString(block[i]);
          i := i + 1;
        }
        FreeList(list);
        assert Valid() by {
          forall l, k | l in lists && 0 <= k < |lists[l]| - 1
            ensures lists[l][k] in strings
          {
            assert lists[l][k] in s0;
            forall m | 0 <= m < i
              ensures block[m] != lists[l][k]
            {
              assert l != list && l in old(lists) && old(lists)[l] == lists[l];
            }
            assert lists[l][k] !in Elements(block[..i]);
          }
        }
      }
    }

    /** copy[i] = s: writes a new string into the next slot of a list being filled. */
    method Store(copy: Ptr, s: Ptr)
      requires Valid() && copy in lists && s in strings
      requires forall l, k :: l in lists && 0 <= k < |lists[l]| - 1 ==> lists[l][k] != s
      modifies this
      ensures Valid() && strings == old(strings) && next == old(next)
      ensures lists == old(lists)[copy := Items(old(lists)[copy]) + [s, NULL]]
    {
      ghost var before := lists[copy];
      lists := lists[copy := Items(lists[copy]) + [s, NULL]];
      assert Items(lists[copy]) == Items(before) + [s];
      forall l1, l2, a, b |
        l1 in lists && l2 in lists && 0 <= a < |lists[l1]| - 1 && 0 <= b < |lists[l2]| - 1
        && lists[l1][a] == lists[l2][b]
        ensures l1 == l2 && a == b
      {
        if lists[l1][a] == s {
          assert l1 == copy && a == |before| - 1;
          assert l2 == copy && b == |before| - 1;
        } else {
          assert l1 in old(lists) && (l1 == copy ==> a < |before| - 1 && lists[l1][a] == before[a]);
          assert l2 in old(lists) && (l2 == copy ==> b < |before| - 1 && lists[l2][b] == before[b]);
        }
      }
    }

    /**
     * The clean-up of list_dup after a failed strdup: frees the strings already copied into the
     * list being filled, then the list itself.
     */
    method FreeCopied(copy: Ptr)
      requires copy in lists && Terminated(lists[copy])
      modifies this
      ensures lists == old(lists) - {copy} && next == old(next)
      ensures strings == old(strings) - Elements(Items(old(lists)[copy]))
    {
      var cells := Items(lists[copy]);
      var j := 0;
      while j < |cells|
        invariant 0 <= j <= |cells|
        invariant lists == old(lists) && next == old(next)
        invariant strings == old(strings) - Elements(cells[..j])
      {
        assert cells[..j + 1] == cells[..j] + [cells[j]];
        assert Elements(cells[..j + 1]) == Elements(cells[..j]) + {cells[j]};
        FreeString(lists[copy][j]);
        j := j + 1;
      }
      assert cells[..j] == cells;
      FreeList(copy);
    }

    /**
     * The copying loop of list_dup: strdups each string of block into the slots of copy, a
     * list just allocated with no slot written. On a failed strdup it frees what it copied and
     * the list, and answers false.
     */
    method CopyStrings(copy: Ptr, block: seq<Ptr>) returns (ok: bool)
      requires Valid() && copy in lists && lists[copy] == [NULL]
      requires Terminated(block) && forall k :: 0 <= k < |block| - 1 ==> block[k] in strings
      modifies this
      ensures Valid() && old(next) <= next
      ensures !ok ==> strings == old(strings) && lists == old(lists) - {copy}
      ensures ok ==>
        && lists - {copy} == old(lists) - {copy} && copy in lists && Terminated(lists[copy])
        && strings - Elements(Items(lists[copy])) == old(strings)
        && Elements(Items(lists[copy])) !! old(strings).Keys
        && Deref(Items(lists[copy]), strings) == Deref(Items(block), old(strings))
    {
      ghost var s0 := old(strings);
      ghost var l0 := old(lists) - {copy};
      var n := |block| - 1;
      var i := 0;
      while i < n
        invariant 0 <= i <= n
        invariant Valid() && old(next) <= next
        invariant copy in lists && lists - {copy} == l0
        invariant |lists[copy]| == i + 1
        invariant forall k :: 0 <= k < i ==> strings[lists[copy][k]] == s0[block[k]]
        invariant strings - Elements(Items(lists[copy])) == s0
        invariant Elements(Items(lists[copy])) !! s0.Keys
      {
        ghost var s1 := strings;
        ghost var cells := Items(lists[copy]);
        var s := StrDup(strings[block[i]]);
        if s == NULL {
          FreeCopied(copy);
          return false;
        }
        assert s !in s1 && s !in s0;
        Store(copy, s);
        assert Items(lists[copy]) == cells + [s];
        assert Elements(Items(lists[copy])) == Elements(cells) + {s};
        i := i + 1;
      }
      DerefPointwise(Items(lists[copy]), strings, Items(block), s0);
      return true;
    }

    /**
     * drgn_debug_info_options_list_dup: a new list with a new copy of each string of list, or
     * NULL when any allocation fails, in which case everything allocated so far is freed
     * again.
     */
    method ListDup(list: Ptr) returns (copy: Ptr)
      requires Valid() && list in lists
      modifies this
      ensures Valid() && old(next) <= next
      ensures copy == NULL ==> strings == old(strings) && lists == old(lists)
      ensures copy != NULL ==>
        && Grown(old(strings), old(lists), strings, lists, copy)
        && Contents(copy) == old(Contents(list))
    {
      var block := lists[list];
      assert forall k :: 0 <= k < |block| - 1 ==> block[k] != NULL;
      var n := 0;
      while block[n] != NULL
        invariant 0 <= n < |block|
        invariant forall k :: 0 <= k < n ==> block[k] != NULL
        decreases |block| - n
      {
        n := n + 1;
      }
      copy := NewList(n);
      if copy == NULL {
        return;
      }
      assert lists - {copy} == old(lists);
      var ok := CopyStrings(copy, block);
      if !ok {
        copy := NULL;
      }
    }

    /**
     * drgn_debug_info_options_lists_equal: whether two lists hold equal strings pairwise and
     * have the same length; the same pointer is equal to itself without a look.
     */
    method ListsEqual(a: Ptr, b: Ptr) returns (eq: bool)
      requires Valid() && a in lists && b in lists
      ensures eq <==> Contents(a) == Contents(b)
    {
      if a == b {
        return true;
      }
      var x := lists[a];
      var y := lists[b];
      assert forall k :: 0 <= k < |x| - 1 ==> x[k] != NULL;
      assert forall k :: 0 <= k < |y| - 1 ==> y[k] != NULL;
      var i := 0;
      while x[i] != NULL
        invariant 0 <= i < |x| && i < |y|
        invariant forall k :: 0 <= k < i ==> x[k] != NULL && y[k] != NULL && strings[x[k]] == strings[y[k]]
        decreases |x| - i
      {
        if y[i] == NULL || strings[x[i]] != strings[y[i]] {
          assert Contents(a)[i] == strings[x[i]];
          return false;
        }
        i := i + 1;
      }
      eq := y[i] == NULL;
      if y[i] == NULL {
        assert Contents(a) == Contents(b);
      } else {
        assert |Contents(b)| > i;
      }
    }
  }
}
