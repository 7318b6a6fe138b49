/**
 The include and exclude directory lists of the store are ordered sets of
 paths. Adding a batch rebuilds the list from the current paths followed by
 the new ones through a set, which keeps every path only at its first
 occurrence, in insertion order; removing a path filters out every entry equal
 to it. This module defines both operations
 on sequences of paths and proves the set and order properties they keep.
 */
module DirList {

  type Path = string

  /** No path occurs twice. */
  predicate NoDup(s: seq<Path>) {
    forall i, j :: 0 <= i < j < |s| ==> s[i] != s[j]
  }

  /** Index of the first occurrence of `x` in `s`. */
  function FirstIndex(s: seq<Path>, x: Path): (k: nat)
    requires x in s
    ensures k < |s| && s[k] == x
    ensures x !in s[..k]
  {
    if s[0] == x then 0 else 1 + FirstIndex(s[1..], x)
  }

  /**
   The list a JavaScript `Set` iterates after the elements of `s` were
   inserted into it one after the other: an element already present is
   ignored, a new one goes to the end.
   */
  function Dedup(s: seq<Path>): (r: seq<Path>)
    ensures NoDup(r)
    ensures forall x :: x in r <==> x in s
    ensures |r| <= |s|
  {
    if |s| == 0 then []
    else
      var p := Dedup(s[..|s| - 1]);
      assert s == s[..|s| - 1] + [s[|s| - 1]];
      if s[|s| - 1] in p then p else p + [s[|s| - 1]]
  }

  /** Unfolds `Dedup` on a sequence with one more element at the end. */
  lemma DedupSnoc(s: seq<Path>, x: Path)
    ensures Dedup(s + [x]) == if x in s then Dedup(s) else Dedup(s) + [x]
  {
    assert (s + [x])[..|s + [x]| - 1] == s;
  }

  /** `Dedup` lists its elements in the order of their first occurrence in `s`. */
  lemma {:induction false} DedupFirstOccurrenceOrder(s: seq<Path>)
    ensures forall i, j :: 0 <= i < j < |Dedup(s)| ==>
              FirstIndex(s, Dedup(s)[i]) < FirstIndex(s, Dedup(s)[j])
  {
    if |s| > 0 {
      var a, x := s[..|s| - 1], s[|s| - 1];
      assert s == a + [x];
      DedupFirstOccurrenceOrder(a);
      DedupSnoc(a, x);
      forall y | y in a
        ensures FirstIndex(s, y) == FirstIndex(a, y)
      {
        FirstIndexAppend(a, [x], y);
      }
      if x !in a {
        forall y | y in a
          ensures FirstIndex(s, y) < |a|
        {
        }
        assert FirstIndex(s, x) == |a| by {
          assert s[..|a|] == a;
        }
      }
    }
  }

  /** The first occurrence in `a + b` of an element of `a` is its first occurrence in `a`. */
  lemma {:induction false} FirstIndexAppend(a: seq<Path>, b: seq<Path>, y: Path)
    requires y in a
    ensures FirstIndex(a + b, y) == FirstIndex(a, y)
  {
    if a[0] != y {
      assert (a + b)[1..] == a[1..] + b;
      FirstIndexAppend(a[1..], b, y);
    }
  }

  /** An element of `b` that is not in `a` first occurs in `a + b` right after `a`, at its first index in `b`. */
  lemma {:induction false} FirstIndexAfter(a: seq<Path>, b: seq<Path>, y: Path)
    requires y !in a && y in b
    ensures FirstIndex(a + b, y) == |a| + FirstIndex(b, y)
  {
    if |a| > 0 {
      assert (a + b)[1..] == a[1..] + b;
      FirstIndexAfter(a[1..], b, y);
    } else {
      assert a + b == b;
    }
  }

  /** A list without duplicates is its own de-duplication. */
  lemma {:induction false} DedupOfNoDup(s: seq<Path>)
    requires NoDup(s)
    ensures Dedup(s) == s
  {
    if |s| > 0 {
      var a := s[..|s| - 1];
      assert s == a + [s[|s| - 1]];
      DedupOfNoDup(a);
      DedupSnoc(a, s[|s| - 1]);
    }
  }

  /** Appending more elements never reorders or drops what was already de-duplicated. */
  lemma {:induction false} DedupPrefix(a: seq<Path>, b: seq<Path>)
    ensures Dedup(a) <= Dedup(a + b)
  {
    if |b| == 0 {
      assert a + b == a;
    } else {
      var b', x := b[..|b| - 1], b[|b| - 1];
      assert a + b == (a + b') + [x];
      DedupPrefix(a, b');
      DedupSnoc(a + b', x);
    }
  }

  /** De-duplicating an already de-duplicated prefix changes nothing. */
  lemma {:induction false} DedupAbsorb(a: seq<Path>, b: seq<Path>)
    ensures Dedup(Dedup(a) + b) == Dedup(a + b)
  {
    if |b| == 0 {
      assert Dedup(a) + b == Dedup(a);
      assert a + b == a;
      DedupOfNoDup(Dedup(a));
    } else {
      var b', x := b[..|b| - 1], b[|b| - 1];
      assert Dedup(a) + b == (Dedup(a) + b') + [x];
      assert a + b == (a + b') + [x];
      DedupAbsorb(a, b');
      DedupSnoc(Dedup(a) + b', x);
      DedupSnoc(a + b', x);
    }
  }

  /** Elements that are all present already add nothing. */
  lemma {:induction false} DedupPresent(a: seq<Path>, b: seq<Path>)
    requires forall x :: x in b ==> x in a
    ensures Dedup(a + b) == Dedup(a)
  {
    if |b| == 0 {
      assert a + b == a;
    } else {
      var b', x := b[..|b| - 1], b[|b| - 1];
      assert a + b == (a + b') + [x];
      DedupPresent(a, b');
      DedupSnoc(a + b', x);
    }
  }

  /** Every entry of `s` except those equal to `d`, in their original order. */
  function Remove(s: seq<Path>, d: Path): (r: seq<Path>)
    ensures forall x :: x in r <==> x in s && x != d
    ensures d !in s ==> r == s
  {
    if |s| == 0 then []
    else if s[0] == d then Remove(s[1..], d)
    else [s[0]] + Remove(s[1..], d)
  }

  /** Removing from a concatenation removes from each part. */
  lemma {:induction false} RemoveAppend(a: seq<Path>, b: seq<Path>, d: Path)
    ensures Remove(a + b, d) == Remove(a, d) + Remove(b, d)
  {
    if |a| == 0 {
      assert a + b == b;
    } else {
      assert (a + b)[1..] == a[1..] + b;
      RemoveAppend(a[1..], b, d);
    }
  }

  /** Removal drops exactly the copies of `d` and keeps every other copy of every other path. */
  lemma {:induction false} RemoveCounts(s: seq<Path>, d: Path)
    ensures multiset(Remove(s, d)) == multiset(s)[d := 0]
  {
    if |s| > 0 {
      assert s == [s[0]] + s[1..];
      RemoveCounts(s[1..], d);
    }
  }

  /** `r` can be obtained from `s` by deleting some entries: order is kept. */
  predicate IsSubsequence(r: seq<Path>, s: seq<Path>)
    decreases |s|
  {
    if |r| == 0 then true
    else if |s| == 0 then false
    else if r[0] == s[0] then IsSubsequence(r[1..], s[1..])
    else IsSubsequence(r, s[1..])
  }

  /** The entries that survive a removal keep their relative order. */
  lemma {:induction false} RemoveKeepsOrder(s: seq<Path>, d: Path)
    ensures IsSubsequence(Remove(s, d), s)
  {
    if |s| > 0 {
      RemoveKeepsOrder(s[1..], d);
      if s[0] != d {
        assert ([s[0]] + Remove(s[1..], d))[1..] == Remove(s[1..], d);
      }
    }
  }

  /** Removal keeps a duplicate-free list duplicate-free. */
  lemma {:induction false} RemoveNoDup(s: seq<Path>, d: Path)
    ensures NoDup(s) ==> NoDup(Remove(s, d))
  {
    if |s| > 0 && NoDup(s) {
      RemoveNoDup(s[1..], d);
      if s[0] != d {
        var r := [s[0]] + Remove(s[1..], d);
        forall i, j | 0 <= i < j < |r|
          ensures r[i] != r[j]
        {
          if i == 0 {
            assert r[j] in Remove(s[1..], d);
          }
        }
      }
    }
  }

  /** Removing a path commutes with de-duplication. */
  lemma {:induction false} RemoveDedup(s: seq<Path>, d: Path)
    ensures Remove(Dedup(s), d) == Dedup(Remove(s, d))
  {
    if |s| > 0 {
      var a, x := s[..|s| - 1], s[|s| - 1];
      assert s == a + [x];
      RemoveDedup(a, d);
      DedupSnoc(a, x);
      RemoveAppend(a, [x], d);
      if x !in a {
        RemoveAppend(Dedup(a), [x], d);
      }
      if x != d {
        assert Remove([x], d) == [x];
        DedupSnoc(Remove(a, d), x);
      } else {
        assert Remove([x], d) == [];
        assert Remove(a, d) + [] == Remove(a, d);
        assert Dedup(a) + [x] == Dedup(a) + [x];
      }
    } else {
      assert Remove(s, d) == [];
    }
  }
}
