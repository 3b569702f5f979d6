/**
 * Sorting the ORC index permutation (the start of drgn_module_parse_orc): the indices start
 * as the identity, a pass over neighbours decides whether the table is already in
 * compare_orc_entries order, and only if it is not are they sorted.
 *
 * qsort_arg is represented by its promise alone, a permutation sorted by the key of each
 * index; the stand-in that keeps that promise is a stable insertion sort on sequences.
 */
module OrcSort {
  import opened OrcFormat

  /** Every index names an element of a table of n entries. */
  predicate InRange(ids: seq<nat>, n: nat) {
    forall k :: 0 <= k < |ids| ==> ids[k] < n
  }

  /** The indices are in nondecreasing order of their keys. */
  predicate SortedBy(ids: seq<nat>, keys: seq<int>)
    requires InRange(ids, |keys|)
  {
    forall i, j :: 0 <= i < j < |ids| ==> keys[ids[i]] <= keys[ids[j]]
  }

  /** No neighbouring pair is out of order: what the source's check loop looks for. */
  predicate AdjacentSorted(ids: seq<nat>, keys: seq<int>)
    requires InRange(ids, |keys|)
  {
    forall i :: 1 <= i < |ids| ==> keys[ids[i - 1]] <= keys[ids[i]]
  }

  /** The indices 0, 1, ..., n-1. */
  function Identity(n: nat): (r: seq<nat>)
    ensures |r| == n && forall k :: 0 <= k < n ==> r[k] == k
    ensures InRange(r, n)
  {
    seq(n, k => k)
  }

  /** The sort keys of a raw table, in slot order. */
  function Keys(raw: RawOrc): (keys: seq<int>)
    requires raw.Valid()
    ensures |keys| == |raw.entries|
    ensures forall i :: 0 <= i < |keys| ==> keys[i] == SortKey(raw, i)
  {
    seq(|raw.entries|, i requires 0 <= i < |raw.entries| => SortKey(raw, i))
  }

  /** Comparing two slots' keys is compare_orc_entries: less, equal or greater alike. */
  lemma KeysCompare(raw: RawOrc, a: nat, b: nat)
    requires raw.Valid() && a < |raw.entries| && b < |raw.entries|
    ensures Keys(raw)[a] < Keys(raw)[b] <==> CompareOrcEntries(raw, a, b) < 0
    ensures Keys(raw)[a] == Keys(raw)[b] <==> CompareOrcEntries(raw, a, b) == 0
    ensures Keys(raw)[a] > Keys(raw)[b] <==> CompareOrcEntries(raw, a, b) > 0
  {
  }

  /** Order implies neighbour order. */
  lemma AdjacentFromSorted(ids: seq<nat>, keys: seq<int>)
    requires InRange(ids, |keys|) && SortedBy(ids, keys)
    ensures AdjacentSorted(ids, keys)
  {
    forall i | 1 <= i < |ids| ensures keys[ids[i - 1]] <= keys[ids[i]] {
      assert 0 <= i - 1 < i < |ids|;
    }
  }

  /** One neighbouring pair out of order: the identity is neither sorted nor neighbour-sorted. */
  lemma IdentityDisordered(keys: seq<int>, j: nat)
    requires 1 <= j < |keys| && keys[j - 1] > keys[j]
    ensures !AdjacentSorted(Identity(|keys|), keys) && !SortedBy(Identity(|keys|), keys)
  {
    var ids := Identity(|keys|);
    assert ids[j - 1] == j - 1 && ids[j] == j;
  }

  /** Neighbour order is enough for order: the check loop's conclusion is sound. */
  lemma {:induction false} AdjacentSortedIsSorted(ids: seq<nat>, keys: seq<int>)
    requires InRange(ids, |keys|) && AdjacentSorted(ids, keys)
    ensures SortedBy(ids, keys)
  {
    if |ids| > 1 {
      var prefix := ids[..|ids| - 1];
      assert InRange(prefix, |keys|);
      assert AdjacentSorted(prefix, keys) by {
        forall i | 1 <= i < |prefix| ensures keys[prefix[i - 1]] <= keys[prefix[i]] {
          assert prefix[i - 1] == ids[i - 1] && prefix[i] == ids[i];
        }
      }
      AdjacentSortedIsSorted(prefix, keys);
      forall i, j | 0 <= i < j < |ids| ensures keys[ids[i]] <= keys[ids[j]] {
        if j < |ids| - 1 {
          assert ids[i] == prefix[i] && ids[j] == prefix[j];
        } else if i < j - 1 {
          assert ids[i] == prefix[i] && ids[j - 1] == prefix[j - 1];
        }
      }
    }
  }

  /** Insert x into a sequence after the trailing elements whose keys exceed x's. */
  function Insert(x: nat, s: seq<nat>, keys: seq<int>): (r: seq<nat>)
    requires x < |keys| && InRange(s, |keys|)
    ensures multiset(r) == multiset(s) + multiset{x}
    ensures |r| == |s| + 1
  {
    if |s| == 0 then [x]
    else if keys[s[|s| - 1]] <= keys[x] then s + [x]
    else
      assert s == s[..|s| - 1] + [s[|s| - 1]];
      Insert(x, s[..|s| - 1], keys) + [s[|s| - 1]]
  }

  /** Every index has a key of at most b. */
  predicate KeysAtMost(ids: seq<nat>, keys: seq<int>, b: int)
    requires InRange(ids, |keys|)
  {
    forall k :: 0 <= k < |ids| ==> keys[ids[k]] <= b
  }

  /** Insertion introduces no key above a bound that x and s respect. */
  lemma {:induction false} InsertKeysAtMost(x: nat, s: seq<nat>, keys: seq<int>, b: int)
    requires x < |keys| && InRange(s, |keys|) && KeysAtMost(s, keys, b) && keys[x] <= b
    ensures InRange(Insert(x, s, keys), |keys|) && KeysAtMost(Insert(x, s, keys), keys, b)
  {
    if |s| > 0 && keys[s[|s| - 1]] > keys[x] {
      var prefix := s[..|s| - 1];
      assert forall k :: 0 <= k < |prefix| ==> prefix[k] == s[k];
      InsertKeysAtMost(x, prefix, keys, b);
    }
  }

  /** Inserting into a sorted sequence keeps it sorted. */
  lemma {:induction false} InsertSorted(x: nat, s: seq<nat>, keys: seq<int>)
    requires x < |keys| && InRange(s, |keys|) && SortedBy(s, keys)
    ensures InRange(Insert(x, s, keys), |keys|) && SortedBy(Insert(x, s, keys), keys)
  {
    if |s| > 0 && keys[s[|s| - 1]] > keys[x] {
      var prefix := s[..|s| - 1];
      var last := s[|s| - 1];
      assert forall k :: 0 <= k < |prefix| ==> prefix[k] == s[k];
      var ins := Insert(x, prefix, keys);
      InsertSorted(x, prefix, keys);
      InsertKeysAtMost(x, prefix, keys, keys[last]);
      var r := ins + [last];
      assert forall k :: 0 <= k < |ins| ==> r[k] == ins[k];
    }
  }

  /** A stable insertion sort by key: one of the orders qsort_arg may produce. */
  function SortByKey(ids: seq<nat>, keys: seq<int>): (r: seq<nat>)
    requires InRange(ids, |keys|)
    ensures InRange(r, |keys|) && SortedBy(r, keys)
    ensures multiset(r) == multiset(ids)
    ensures |r| == |ids|
  {
    if |ids| == 0 then []
    else
      var prefix := ids[..|ids| - 1];
      assert ids == prefix + [ids[|ids| - 1]];
      InsertSorted(ids[|ids| - 1], SortByKey(prefix, keys), keys);
      Insert(ids[|ids| - 1], SortByKey(prefix, keys), keys)
  }

  /** A permutation of the indices of n entries sorted by the entries' keys. */
  predicate IsSortedPermutation(ids: seq<nat>, keys: seq<int>) {
    InRange(ids, |keys|) && SortedBy(ids, keys) && multiset(ids) == multiset(Identity(|keys|))
  }

  /**
   * The check loop: whether some neighbouring pair of indices compares greater than zero
   * under compare_orc_entries.
   */
  method NeedsSort(raw: RawOrc, indices: array<nat>) returns (unsorted: bool)
    requires raw.Valid() && InRange(indices[..], |raw.entries|)
    ensures unsorted <==> exists i :: 1 <= i < indices.Length && CompareOrcEntries(raw, indices[i - 1], indices[i]) > 0
    ensures !unsorted ==> SortedBy(indices[..], Keys(raw))
  {
    var i := 1;
    while i < indices.Length
      invariant 1 <= i <= indices.Length || indices.Length == 0
      invariant forall k :: 1 <= k < i && k < indices.Length ==> CompareOrcEntries(raw, indices[k - 1], indices[k]) <= 0
    {
      if CompareOrcEntries(raw, indices[i - 1], indices[i]) > 0 {
        return true;
      }
      i := i + 1;
    }
    var keys := Keys(raw);
    assert AdjacentSorted(indices[..], keys) by {
      forall k | 1 <= k < indices.Length ensures keys[indices[..][k - 1]] <= keys[indices[..][k]] {
        assert CompareOrcEntries(raw, indices[k - 1], indices[k]) <= 0;
      }
    }
    AdjacentSortedIsSorted(indices[..], keys);
    return false;
  }

  /** qsort_arg over the indices with compare_orc_entries: a sorted permutation of them. */
  method SortIndices(keys: seq<int>, indices: array<nat>)
    requires InRange(indices[..], |keys|)
    modifies indices
    ensures InRange(indices[..], |keys|) && SortedBy(indices[..], keys)
    ensures multiset(indices[..]) == multiset(old(indices[..]))
  {
    var sorted := SortByKey(indices[..], keys);
    forall k | 0 <= k < indices.Length {
      indices[k] := sorted[k];
    }
    assert indices[..] == sorted;
  }

  /** The indices array of parse_orc: the identity, then sorted if the check loop finds disorder. */
  method OrderIndices(raw: RawOrc) returns (indices: array<nat>)
    requires raw.Valid()
    ensures fresh(indices) && indices.Length == |raw.entries|
    ensures IsSortedPermutation(indices[..], Keys(raw))
    ensures indices[..] == Identity(|raw.entries|) <==> AdjacentSorted(Identity(|raw.entries|), Keys(raw))
  {
    var n := |raw.entries|;
    indices := new nat[n];
    var i := 0;
    while i < n
      invariant 0 <= i <= n
      invariant forall k :: 0 <= k < i ==> indices[k] == k
    {
      indices[i] := i;
      i := i + 1;
    }
    assert indices[..] == Identity(n);
    var keys := Keys(raw);
    var unsorted := NeedsSort(raw, indices);
    if unsorted {
      var j :| 1 <= j < indices.Length && CompareOrcEntries(raw, indices[j - 1], indices[j]) > 0;
      KeysCompare(raw, indices[j - 1], indices[j]);
      IdentityDisordered(keys, j);
      SortIndices(keys, indices);
    } else {
      AdjacentFromSorted(indices[..], keys);
    }
  }
}
