/**
 * Order-preserving removal of duplicates, the effect of `OrderedDict.fromkeys` on a list
 * and of first-seen insertion into a Python dict.
 */
module Unique {
  predicate NoDuplicates<T(==)>(s: seq<T>) {
    forall i, j :: 0 <= i < j < |s| ==> s[i] != s[j]
  }

  /** The elements of s, each at its first occurrence, in the order they first occur. */
  function Dedup<T(==)>(s: seq<T>): seq<T> {
    if |s| == 0 then []
    else
      var prefix := s[..|s| - 1];
      var last := s[|s| - 1];
      if last in prefix then Dedup(prefix) else Dedup(prefix) + [last]
  }

  /** Dedup removes only repeats: it has exactly the elements of s, each once. */
  lemma {:induction false} DedupMembers<T>(s: seq<T>)
    ensures forall x :: x in Dedup(s) <==> x in s
    ensures NoDuplicates(Dedup(s))
  {
    if |s| > 0 {
      var prefix := s[..|s| - 1];
      var last := s[|s| - 1];
      assert s == prefix + [last];
      DedupMembers(prefix);
    }
  }

  /** Appending one element: Dedup grows by it exactly when it is new. */
  lemma DedupSnoc<T>(s: seq<T>, x: T)
    ensures Dedup(s + [x]) == if x in s then Dedup(s) else Dedup(s) + [x]
  {
    assert (s + [x])[..|s|] == s;
  }

  /** The position at which x first occurs in s. */
  function FirstIndex<T(==)>(s: seq<T>, x: T): (i: nat)
    requires x in s
    ensures i < |s| && s[i] == x && x !in s[..i]
  {
    if s[0] == x then 0
    else
      assert x in s[1..];
      var i := 1 + FirstIndex(s[1..], x);
      assert s[..i] == [s[0]] + s[1..][..i - 1];
      i
  }

  /** A position holding x with no x before it is the first index of x. */
  lemma FirstIndexUnique<T>(s: seq<T>, x: T, i: nat)
    requires i < |s| && s[i] == x && x !in s[..i]
    ensures FirstIndex(s, x) == i
  {
  }

  /** Extending s at the end does not move the first occurrence of an element already in s. */
  lemma FirstIndexOfPrefix<T>(s: seq<T>, t: seq<T>, x: T)
    requires x in s
    ensures x in s + t && FirstIndex(s + t, x) == FirstIndex(s, x)
  {
    var i := FirstIndex(s, x);
    assert (s + t)[..i] == s[..i];
    FirstIndexUnique(s + t, x, i);
  }

  /** Dedup keeps the first-seen order: an earlier element of Dedup(s) was seen earlier in s. */
  lemma {:induction false} DedupFirstSeenOrder<T>(s: seq<T>)
    ensures forall x :: x in Dedup(s) <==> x in s
    ensures forall i, j :: 0 <= i < j < |Dedup(s)| ==> FirstIndex(s, Dedup(s)[i]) < FirstIndex(s, Dedup(s)[j])
  {
    DedupMembers(s);
    if |s| > 0 {
      var prefix := s[..|s| - 1];
      var last := s[|s| - 1];
      assert s == prefix + [last];
      DedupFirstSeenOrder(prefix);
      DedupMembers(prefix);
      var p := Dedup(prefix);
      var r := Dedup(s);
      assert r == if last in prefix then p else p + [last];
      forall i, j | 0 <= i < j < |r| ensures FirstIndex(s, r[i]) < FirstIndex(s, r[j]) {
        assert i < |p|;
        assert r[i] == p[i];
        MemberOfDedup(prefix, p[i]);
        assert r[i] in prefix;
        FirstIndexOfPrefix(prefix, [last], r[i]);
        if j < |p| {
          assert r[j] == p[j] && r[j] in prefix;
          FirstIndexOfPrefix(prefix, [last], r[j]);
        } else {
          assert r[j] == last && last !in prefix;
          assert s[..|s| - 1] == prefix;
          FirstIndexUnique(s, last, |s| - 1);
        }
      }
    }
  }

  lemma MemberOfDedup<T>(s: seq<T>, x: T)
    requires x in Dedup(s)
    ensures x in s
  {
    DedupMembers(s);
  }

  /** A list without duplicates is left as it is. */
  lemma {:induction false} DedupOfDistinct<T>(s: seq<T>)
    requires NoDuplicates(s)
    ensures Dedup(s) == s
  {
    if |s| > 0 {
      var prefix := s[..|s| - 1];
      assert NoDuplicates(prefix);
      DedupOfDistinct(prefix);
      assert s[|s| - 1] !in prefix;
      assert s == prefix + [s[|s| - 1]];
    }
  }
}
