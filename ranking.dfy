/**
 * The ranking step of `recommend`: every recipe is paired with its score, the list
 * is sorted in place by descending score with a stable sort, and the first three
 * entries are kept.
 */
module Ranking {
  import opened Recipes
  import opened Seqs
  import opened Similarity

  /** How many results `recommend` shows. */
  const TopCount: nat := 3

  /** One element of the `scores` list: `{recipe, score}`. */
  datatype Scored = Scored(recipe: Recipe, score: real)

  /** The query vector can be compared with every embedding of the corpus. */
  predicate Comparable(userVec: seq<real>, recipes: seq<Recipe>)
  {
    forall i :: 0 <= i < |recipes| ==> |userVec| <= |recipes[i].embedding|
  }

  /** The `scores` list before sorting: one entry per recipe, in corpus order. */
  function ScoreAll(userVec: seq<real>, recipes: seq<Recipe>, sqrt: real -> real): seq<Scored>
    requires Comparable(userVec, recipes)
    requires IsSqrt(sqrt)
  {
    seq(|recipes|, i requires 0 <= i < |recipes| => Scored(recipes[i], CosineOf(userVec, recipes[i].embedding, sqrt)))
  }

  // ---------------------------------------------------------------------------
  // The order the comparator `(a, b) => b.score - a.score` asks for
  // ---------------------------------------------------------------------------

  /** Scores never increase along s. */
  predicate NonIncreasing(s: seq<Scored>)
  {
    forall i, j :: 0 <= i < j < |s| ==> s[i].score >= s[j].score
  }

  /** The entries of s whose score is v, in the order s has them. */
  function WithScore(s: seq<Scored>, v: real): seq<Scored>
  {
    if s == [] then []
    else WithScore(s[..|s| - 1], v) + (if s[|s| - 1].score == v then [s[|s| - 1]] else [])
  }

  /**
   * Puts x into t after every entry whose score is at least x's: walking from the end
   * of t, entries with a strictly smaller score move one place to the right.
   */
  function Insert(t: seq<Scored>, x: Scored): seq<Scored>
  {
    if t == [] || t[|t| - 1].score >= x.score then t + [x]
    else Insert(t[..|t| - 1], x) + [t[|t| - 1]]
  }

  /** The list `scores.sort((a, b) => b.score - a.score)` leaves behind. */
  function SortByScore(s: seq<Scored>): seq<Scored>
  {
    if s == [] then [] else Insert(SortByScore(s[..|s| - 1]), s[|s| - 1])
  }

  /** `slice(0, k)`: the first k entries, or all of them when there are fewer. */
  function Take(s: seq<Scored>, k: nat): (r: seq<Scored>)
  {
    s[..if k < |s| then k else |s|]
  }

  // ---------------------------------------------------------------------------
  // Properties of the sort
  // ---------------------------------------------------------------------------

  lemma {:induction false} InsertPermutes(t: seq<Scored>, x: Scored)
    ensures multiset(Insert(t, x)) == multiset(t) + multiset{x}
    ensures |Insert(t, x)| == |t| + 1
  {
    if t != [] && t[|t| - 1].score < x.score {
      var init := t[..|t| - 1];
      InsertPermutes(init, x);
      MultisetOfLast(t);
    }
  }

  /** The sorted list is a permutation of the list it sorts. */
  lemma {:induction false} SortPermutes(s: seq<Scored>)
    ensures multiset(SortByScore(s)) == multiset(s)
    ensures |SortByScore(s)| == |s|
  {
    if s != [] {
      var init := s[..|s| - 1];
      SortPermutes(init);
      InsertPermutes(SortByScore(init), s[|s| - 1]);
      MultisetOfLast(s);
    }
  }

  lemma {:induction false} InsertNonIncreasing(t: seq<Scored>, x: Scored)
    requires NonIncreasing(t)
    ensures NonIncreasing(Insert(t, x))
  {
    if t != [] && t[|t| - 1].score < x.score {
      var init, last := t[..|t| - 1], t[|t| - 1];
      InsertNonIncreasing(init, x);
      InsertPermutes(init, x);
      var r := Insert(init, x);
      forall e | e in r
        ensures e.score >= last.score
      {
        assert e in multiset(r);
        if e != x {
          assert e in multiset(init);
        }
      }
      AppendLowest(r, last);
    }
  }

  /** An entry scoring at most every entry of a non-increasing list can follow it. */
  lemma AppendLowest(r: seq<Scored>, last: Scored)
    requires NonIncreasing(r)
    requires forall e :: e in r ==> e.score >= last.score
    ensures NonIncreasing(r + [last])
  {
    forall i, j | 0 <= i < j < |r| + 1
      ensures (r + [last])[i].score >= (r + [last])[j].score
    {
      if j == |r| {
        assert r[i] in r;
      }
    }
  }

  /** Scores never increase along the sorted list. */
  lemma {:induction false} SortNonIncreasing(s: seq<Scored>)
    ensures NonIncreasing(SortByScore(s))
  {
    if s != [] {
      SortNonIncreasing(s[..|s| - 1]);
      InsertNonIncreasing(SortByScore(s[..|s| - 1]), s[|s| - 1]);
    }
  }

  lemma {:induction false} WithScoreAppend(a: seq<Scored>, b: seq<Scored>, v: real)
    ensures WithScore(a + b, v) == WithScore(a, v) + WithScore(b, v)
    decreases |b|
  {
    if b != [] {
      var init := b[..|b| - 1];
      assert (a + b)[..|a + b| - 1] == a + init;
      WithScoreAppend(a, init, v);
    } else {
      assert a + b == a;
    }
  }

  lemma WithScoreSingle(e: Scored, v: real)
    ensures WithScore([e], v) == if e.score == v then [e] else []
  {
    assert [e][..0] == [];
  }

  lemma {:induction false} InsertStable(t: seq<Scored>, x: Scored, v: real)
    ensures WithScore(Insert(t, x), v) == WithScore(t, v) + WithScore([x], v)
  {
    WithScoreSingle(x, v);
    if t != [] && t[|t| - 1].score < x.score {
      var init, last := t[..|t| - 1], t[|t| - 1];
      var r := Insert(init, x);
      assert Insert(t, x) == r + [last];
      InsertStable(init, x, v);
      WithScoreAppend(r, [last], v);
      WithScoreSingle(last, v);
      if x.score == v {
        // last has a smaller score than x, so it is not listed
        assert WithScore(Insert(t, x), v) == WithScore(r, v) == WithScore(init, v) + [x];
        assert WithScore(t, v) == WithScore(init, v);
      } else {
        assert WithScore(Insert(t, x), v) == WithScore(init, v) + WithScore([last], v);
      }
    } else {
      WithScoreAppend(t, [x], v);
    }
  }

  /**
   * Stability: for every score, the entries with that score appear in the sorted
   * list in the same relative order as in the list that was sorted.
   */
  lemma {:induction false} SortStable(s: seq<Scored>, v: real)
    ensures WithScore(SortByScore(s), v) == WithScore(s, v)
  {
    if s != [] {
      var init, last := s[..|s| - 1], s[|s| - 1];
      SortStable(init, v);
      InsertStable(SortByScore(init), last, v);
      assert [last][..0] == [];
    }
  }

  lemma {:induction false} WithScoreMembers(s: seq<Scored>, v: real, e: Scored)
    ensures e in WithScore(s, v) <==> e in s && e.score == v
  {
    if s != [] {
      var init := s[..|s| - 1];
      WithScoreMembers(init, v, e);
      assert s == init + [s[|s| - 1]];
    }
  }

  lemma LastIsLeast(s: seq<Scored>, e: Scored)
    requires NonIncreasing(s) && e in s
    ensures e.score >= s[|s| - 1].score
  {
    var k :| 0 <= k < |s| && s[k] == e;
  }

  /** Dropping the last entry drops the last entry of its score's list and nothing else. */
  lemma WithScoreInit(s: seq<Scored>, v: real)
    requires s != []
    ensures s[|s| - 1].score == v ==>
              WithScore(s, v) != [] &&
              WithScore(s, v)[|WithScore(s, v)| - 1] == s[|s| - 1] &&
              WithScore(s[..|s| - 1], v) == WithScore(s, v)[..|WithScore(s, v)| - 1]
    ensures s[|s| - 1].score != v ==> WithScore(s[..|s| - 1], v) == WithScore(s, v)
  {
  }

  /** Two non-increasing lists that agree on every score end with the same entry. */
  lemma LastsAgree(x: seq<Scored>, y: seq<Scored>)
    requires NonIncreasing(x) && NonIncreasing(y) && x != [] && y != []
    requires forall v :: WithScore(x, v) == WithScore(y, v)
    ensures x[|x| - 1] == y[|y| - 1]
  {
    var lx, ly := x[|x| - 1], y[|y| - 1];
    WithScoreMembers(x, lx.score, lx);
    WithScoreMembers(y, lx.score, lx);
    LastIsLeast(y, lx);
    WithScoreMembers(y, ly.score, ly);
    WithScoreMembers(x, ly.score, ly);
    LastIsLeast(x, ly);
    WithScoreInit(x, lx.score);
    WithScoreInit(y, lx.score);
  }

  /**
   * A non-increasing list is determined by the order it gives the entries of each
   * score: two such lists that agree on every score are equal.
   */
  lemma {:induction false} StableOrderUnique(x: seq<Scored>, y: seq<Scored>)
    requires NonIncreasing(x) && NonIncreasing(y)
    requires forall v :: WithScore(x, v) == WithScore(y, v)
    ensures x == y
    decreases |x|
  {
    if x == [] || y == [] {
      if x != [] {
        WithScoreMembers(x, x[0].score, x[0]);
      } else if y != [] {
        WithScoreMembers(y, y[0].score, y[0]);
      }
    } else {
      LastsAgree(x, y);
      var x', y' := x[..|x| - 1], y[..|y| - 1];
      var m := x[|x| - 1].score;
      forall v
        ensures WithScore(x', v) == WithScore(y', v)
      {
        WithScoreInit(x, v);
        WithScoreInit(y, v);
      }
      assert NonIncreasing(x') && NonIncreasing(y');
      StableOrderUnique(x', y');
      assert x == x' + [x[|x| - 1]] && y == y' + [y[|y| - 1]];
    }
  }

  /**
   * SortByScore is the only stable descending order of s: any list that is
   * non-increasing and keeps the relative order of equal scores is SortByScore(s).
   * So the result does not depend on the algorithm a stable sort uses.
   */
  lemma SortIsUniqueStableOrder(s: seq<Scored>, t: seq<Scored>)
    requires NonIncreasing(t)
    requires forall v :: WithScore(t, v) == WithScore(s, v)
    ensures t == SortByScore(s)
  {
    SortNonIncreasing(s);
    forall v
      ensures WithScore(t, v) == WithScore(SortByScore(s), v)
    {
      SortStable(s, v);
    }
    StableOrderUnique(t, SortByScore(s));
  }

  // ---------------------------------------------------------------------------
  // The in-place sort and the ranking step
  // ---------------------------------------------------------------------------

  /**
   * The state of the array while x = old a[i] travels left: the prefix t = old a[..i]
   * is intact before j, shifted one place right from j to i, and the rest untouched.
   */
  ghost predicate Shifting(cur: seq<Scored>, orig: seq<Scored>, i: nat, j: nat, x: Scored)
  {
    && j <= i < |cur| == |orig|
    && cur[..j] == orig[..j]
    && cur[j + 1..i + 1] == orig[j..i]
    && cur[i + 1..] == orig[i + 1..]
    && Insert(orig[..i], x) == Insert(orig[..j], x) + orig[j..i]
  }

  lemma ShiftingStart(orig: seq<Scored>, i: nat)
    requires i < |orig|
    ensures Shifting(orig, orig, i, i, orig[i])
  {
  }

  lemma ShiftingStep(cur: seq<Scored>, orig: seq<Scored>, i: nat, j: nat, x: Scored)
    requires Shifting(cur, orig, i, j, x)
    requires 0 < j && cur[j - 1].score < x.score
    ensures Shifting(cur[j := cur[j - 1]], orig, i, j - 1, x)
  {
    var t := orig[..i];
    assert orig[..j][..j - 1] == orig[..j - 1];
    assert orig[j - 1..i] == [orig[j - 1]] + orig[j..i];
    var next := cur[j := cur[j - 1]];
    assert next[j..i + 1] == [next[j]] + next[j + 1..i + 1];
  }

  lemma ShiftingFinish(cur: seq<Scored>, orig: seq<Scored>, i: nat, j: nat, x: Scored)
    requires Shifting(cur, orig, i, j, x)
    requires j == 0 || cur[j - 1].score >= x.score
    ensures cur[j := x][..i + 1] == Insert(orig[..i], x)
    ensures cur[j := x][i + 1..] == orig[i + 1..]
  {
    var head := orig[..j];
    if j > 0 {
      assert head[j - 1] == cur[..j][j - 1] == cur[j - 1];
    }
    assert Insert(head, x) == head + [x];
    var r := cur[j := x];
    assert r[..j] == cur[..j] && r[j + 1..i + 1] == cur[j + 1..i + 1];
    SplitAround(r, j, i + 1);
  }

  /** r[..n] is what comes before j, then r[j], then what follows up to n. */
  lemma SplitAround<T>(r: seq<T>, j: nat, n: nat)
    requires j < n <= |r|
    ensures r[..n] == r[..j] + [r[j]] + r[j + 1..n]
  {
  }

  /**
   * One round of the insertion sort: a[i] is moved left past every entry of the
   * prefix a[..i] with a strictly smaller score.
   */
  method InsertInPlace(a: array<Scored>, i: nat)
    requires i < a.Length
    modifies a
    ensures a[..i + 1] == Insert(old(a[..i]), old(a[i]))
    ensures a[i + 1..] == old(a[i + 1..])
  {
    ghost var orig := a[..];
    var x := a[i];
    var j := i;
    ShiftingStart(orig, i);
    while j > 0 && a[j - 1].score < x.score
      invariant Shifting(a[..], orig, i, j, x)
    {
      ghost var cur := a[..];
      ShiftingStep(cur, orig, i, j, x);
      a[j] := a[j - 1];
      assert a[..] == cur[j := cur[j - 1]];
      j := j - 1;
    }
    ghost var cur := a[..];
    ShiftingFinish(cur, orig, i, j, x);
    a[j] := x;
    assert a[..] == cur[j := x];
    assert orig[..i] == old(a[..i]);
  }

  /** `scores.sort((a, b) => b.score - a.score)`, as a stable insertion sort in place. */
  method SortInPlace(a: array<Scored>)
    modifies a
    ensures a[..] == SortByScore(old(a[..]))
  {
    ghost var s := a[..];
    var i := 0;
    while i < a.Length
      invariant 0 <= i <= a.Length
      invariant a[..i] == SortByScore(s[..i])
      invariant a[i..] == s[i..]
    {
      ghost var pre := a[..];
      assert pre[i] == s[i] by {
        assert pre[i..][0] == s[i..][0];
      }
      assert pre[i + 1..] == s[i + 1..] by {
        assert pre[i + 1..] == pre[i..][1..] && s[i + 1..] == s[i..][1..];
      }
      InsertInPlace(a, i);
      assert SortByScore(s[..i + 1]) == Insert(SortByScore(s[..i]), s[i]) by {
        assert s[..i + 1][..i] == s[..i];
      }
      i := i + 1;
    }
    assert a[..] == a[..a.Length] && s == s[..a.Length];
  }

  /** The scores of all recipes, sorted, cut to the first TopCount. */
  method Rank(userVec: seq<real>, recipes: seq<Recipe>, sqrt: real -> real) returns (top: seq<Scored>)
    requires Comparable(userVec, recipes)
    requires IsSqrt(sqrt)
    ensures top == Take(SortByScore(ScoreAll(userVec, recipes, sqrt)), TopCount)
  {
    var scores := new Scored[|recipes|];
    for i := 0 to |recipes|
      invariant scores[..i] == ScoreAll(userVec, recipes, sqrt)[..i]
    {
      var score := Cosine(userVec, recipes[i].embedding, sqrt);
      scores[i] := Scored(recipes[i], score);
    }
    assert scores[..] == ScoreAll(userVec, recipes, sqrt);
    SortInPlace(scores);
    top := scores[..if TopCount < scores.Length then TopCount else scores.Length];
  }

  // ---------------------------------------------------------------------------
  // What the ranking step delivers
  // ---------------------------------------------------------------------------

  /**
   * The scores list has one entry per recipe, in corpus order, pairing it with its
   * cosine score, and every score lies in [-1, 1].
   */
  lemma ScoreAllEntries(userVec: seq<real>, recipes: seq<Recipe>, sqrt: real -> real)
    requires Comparable(userVec, recipes)
    requires IsSqrt(sqrt)
    ensures |ScoreAll(userVec, recipes, sqrt)| == |recipes|
    ensures forall i :: 0 <= i < |recipes| ==>
              ScoreAll(userVec, recipes, sqrt)[i].recipe == recipes[i] &&
              -1.0 <= ScoreAll(userVec, recipes, sqrt)[i].score <= 1.0
  {
    forall i | 0 <= i < |recipes|
      ensures -1.0 <= ScoreAll(userVec, recipes, sqrt)[i].score <= 1.0
    {
      CosineBounded(userVec, recipes[i].embedding, sqrt);
    }
  }

  /** The first k entries of a non-increasing list, and what that cut leaves behind. */
  lemma TakeOfNonIncreasing(t: seq<Scored>, k: nat)
    requires NonIncreasing(t)
    ensures |Take(t, k)| == if |t| < k then |t| else k
    ensures Take(t, k) <= t
    ensures NonIncreasing(Take(t, k))
    ensures forall i, j :: 0 <= i < |Take(t, k)| <= j < |t| ==> Take(t, k)[i].score >= t[j].score
    ensures multiset(Take(t, k)) + multiset(t[|Take(t, k)|..]) == multiset(t)
  {
    var top := Take(t, k);
    assert t == top + t[|top|..];
  }

  /**
   * The first TopCount entries of the sorted list: min(TopCount, |s|) of them, a
   * prefix of the sorted list, in descending order, and no entry left out has a
   * higher score than one kept; kept and left-out entries together are exactly s.
   */
  lemma TopSelectsBest(s: seq<Scored>)
    ensures |Take(SortByScore(s), TopCount)| == if |s| < TopCount then |s| else TopCount
    ensures Take(SortByScore(s), TopCount) <= SortByScore(s)
    ensures NonIncreasing(Take(SortByScore(s), TopCount))
    ensures forall i, j :: 0 <= i < |Take(SortByScore(s), TopCount)| <= j < |SortByScore(s)| ==>
              Take(SortByScore(s), TopCount)[i].score >= SortByScore(s)[j].score
    ensures multiset(Take(SortByScore(s), TopCount)) + multiset(SortByScore(s)[|Take(SortByScore(s), TopCount)|..])
              == multiset(s)
  {
    SortPermutes(s);
    SortNonIncreasing(s);
    TakeOfNonIncreasing(SortByScore(s), TopCount);
  }
}
