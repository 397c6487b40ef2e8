/**
 * Sequence helpers shared by the corpus loader and the explanation builder:
 * concatenation of a list of lists and the insertion-ordered set of a JavaScript
 * `Set`.
 */
module Seqs {

  /** The elements of every list of xs, list after list. */
  function Concat<T>(xs: seq<seq<T>>): seq<T>
  {
    if xs == [] then [] else Concat(xs[..|xs| - 1]) + xs[|xs| - 1]
  }

  /** The total number of elements over all lists of xs. */
  function TotalLength<T>(xs: seq<seq<T>>): nat
  {
    if xs == [] then 0 else TotalLength(xs[..|xs| - 1]) + |xs[|xs| - 1]|
  }

  lemma {:induction false} ConcatLength<T>(xs: seq<seq<T>>)
    ensures |Concat(xs)| == TotalLength(xs)
  {
    if xs != [] {
      ConcatLength(xs[..|xs| - 1]);
    }
  }

  lemma {:induction false} ConcatAppend<T>(xs: seq<seq<T>>, ys: seq<seq<T>>)
    ensures Concat(xs + ys) == Concat(xs) + Concat(ys)
    decreases |ys|
  {
    if ys == [] {
      assert xs + ys == xs;
    } else {
      var init, last := ys[..|ys| - 1], ys[|ys| - 1];
      assert xs + ys == (xs + init) + [last];
      ConcatSnoc(xs + init, last);
      ConcatAppend(xs, init);
    }
  }

  lemma ConcatSnoc<T>(xs: seq<seq<T>>, x: seq<T>)
    ensures Concat(xs + [x]) == Concat(xs) + x
  {
    assert (xs + [x])[..|xs|] == xs;
  }

  /** The elements of the first k lists come first, unchanged. */
  lemma {:induction false} ConcatPrefix<T>(xs: seq<seq<T>>, k: nat)
    requires k <= |xs|
    ensures Concat(xs[..k]) <= Concat(xs)
  {
    ConcatAppend(xs[..k], xs[k..]);
    assert xs == xs[..k] + xs[k..];
  }

  /** Element i of list k sits right after the elements of lists 0..k-1. */
  lemma ConcatAt<T>(xs: seq<seq<T>>, k: nat, i: nat)
    requires k < |xs| && i < |xs[k]|
    ensures |Concat(xs[..k])| + i < |Concat(xs)|
    ensures Concat(xs)[|Concat(xs[..k])| + i] == xs[k][i]
  {
    var upTo := xs[..k + 1];
    assert upTo[..k] == xs[..k];
    assert Concat(upTo) == Concat(xs[..k]) + xs[k];
    ConcatPrefix(xs, k + 1);
  }

  /** A non-empty sequence holds its last element and the elements before it. */
  lemma MultisetOfLast<T>(s: seq<T>)
    requires s != []
    ensures multiset(s) == multiset(s[..|s| - 1]) + multiset{s[|s| - 1]}
  {
    assert s == s[..|s| - 1] + [s[|s| - 1]];
  }

  // ---------------------------------------------------------------------------
  // Insertion-ordered sets
  // ---------------------------------------------------------------------------

  /** No element occurs twice in s. */
  predicate NoDups<T(==)>(s: seq<T>)
  {
    forall i, j :: 0 <= i < j < |s| ==> s[i] != s[j]
  }

  /** `set.add(x)`: x goes to the end unless it is already present. */
  function AddNew<T(==)>(s: seq<T>, x: T): seq<T>
  {
    if x in s then s else s + [x]
  }

  /** The iteration order of `new Set(s)`: each element once, where it first occurs. */
  function Dedup<T(==)>(s: seq<T>): seq<T>
  {
    if s == [] then [] else AddNew(Dedup(s[..|s| - 1]), s[|s| - 1])
  }

  /** The position of the first occurrence of x in s. */
  function IndexOf<T(==)>(s: seq<T>, x: T): (k: nat)
    requires x in s
    ensures k < |s| && s[k] == x && x !in s[..k]
  {
    if s[0] == x then 0 else 1 + IndexOf(s[1..], x)
  }

  lemma {:induction false} IndexOfAppend<T>(s: seq<T>, x: T, y: T)
    requires y in s
    ensures IndexOf(s + [x], y) == IndexOf(s, y)
  {
    if s[0] != y {
      assert (s + [x])[1..] == s[1..] + [x];
      IndexOfAppend(s[1..], x, y);
    }
  }

  /** An element of a keeps its position when b is appended. */
  lemma {:induction false} IndexOfPrefix<T>(a: seq<T>, b: seq<T>, x: T)
    requires x in a
    ensures IndexOf(a + b, x) == IndexOf(a, x)
  {
    if a[0] != x {
      assert (a + b)[1..] == a[1..] + b;
      IndexOfPrefix(a[1..], b, x);
    }
  }

  /** An element first found in b sits after all of a. */
  lemma {:induction false} IndexOfSuffix<T>(a: seq<T>, b: seq<T>, x: T)
    requires x !in a && x in b
    ensures IndexOf(a + b, x) == |a| + IndexOf(b, x)
  {
    if a == [] {
      assert a + b == b;
    } else {
      assert (a + b)[0] == a[0] != x;
      assert (a + b)[1..] == a[1..] + b;
      IndexOfSuffix(a[1..], b, x);
    }
  }

  /**
   * Dedup keeps exactly the elements of s, each once, ordered by where they first
   * occur in s.
   */
  lemma {:induction false} DedupSpec<T>(s: seq<T>)
    ensures forall x :: x in Dedup(s) <==> x in s
    ensures NoDups(Dedup(s))
    ensures forall i, j :: 0 <= i < j < |Dedup(s)| ==> IndexOf(s, Dedup(s)[i]) < IndexOf(s, Dedup(s)[j])
  {
    if s != [] {
      var init, last := s[..|s| - 1], s[|s| - 1];
      DedupSpec(init);
      assert s == init + [last];
      var d := Dedup(init);
      if last in d {
        DedupKeep(init, last, d);
      } else {
        DedupExtend(init, last, d);
      }
    }
  }

  /** Two elements of s appear in Dedup(s) in the order of their first occurrences in s. */
  lemma DedupOrder<T>(s: seq<T>, x: T, y: T)
    requires x in s && y in s
    ensures x in Dedup(s) && y in Dedup(s)
    ensures IndexOf(Dedup(s), x) < IndexOf(Dedup(s), y) <==> IndexOf(s, x) < IndexOf(s, y)
  {
    DedupSpec(s);
    var d := Dedup(s);
    var i, j := IndexOf(d, x), IndexOf(d, y);
    if j < i {
      assert IndexOf(s, d[j]) < IndexOf(s, d[i]);
    }
  }

  /** An x already present leaves a faithful dedup of s faithful for s + [x]. */
  lemma DedupKeep<T>(s: seq<T>, x: T, d: seq<T>)
    requires x in d
    requires forall y :: y in d <==> y in s
    requires NoDups(d)
    requires forall i, j :: 0 <= i < j < |d| ==> IndexOf(s, d[i]) < IndexOf(s, d[j])
    ensures forall y :: y in d <==> y in s + [x]
    ensures forall i, j :: 0 <= i < j < |d| ==> IndexOf(s + [x], d[i]) < IndexOf(s + [x], d[j])
  {
    forall y | y in s
      ensures IndexOf(s + [x], y) == IndexOf(s, y)
    {
      IndexOfAppend(s, x, y);
    }
  }

  /** A new x, appended to a faithful dedup of s, gives a faithful dedup of s + [x]. */
  lemma DedupExtend<T>(s: seq<T>, x: T, d: seq<T>)
    requires x !in d
    requires forall y :: y in d <==> y in s
    requires NoDups(d)
    requires forall i, j :: 0 <= i < j < |d| ==> IndexOf(s, d[i]) < IndexOf(s, d[j])
    ensures forall y :: y in d + [x] <==> y in s + [x]
    ensures NoDups(d + [x])
    ensures forall i, j :: 0 <= i < j < |d + [x]| ==> IndexOf(s + [x], (d + [x])[i]) < IndexOf(s + [x], (d + [x])[j])
  {
    forall y | y in s
      ensures IndexOf(s + [x], y) == IndexOf(s, y)
    {
      IndexOfAppend(s, x, y);
    }
    assert IndexOf(s + [x], x) == |s|;
    forall i | 0 <= i < |d|
      ensures IndexOf(s + [x], d[i]) < IndexOf(s + [x], x)
    {
      assert d[i] in d;
    }
  }
}
