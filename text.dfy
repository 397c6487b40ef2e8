/**
 * The string operations the retrieval path relies on: JavaScript's `trim`, the case
 * mappings of `toLowerCase`/`toUpperCase` for the Latin and Cyrillic letters, the
 * split on `/[^a-zа-яё]+/`, `includes` and `join`.
 */
module Text {
  import opened Seqs

  // ---------------------------------------------------------------------------
  // Character classes and case mapping
  // ---------------------------------------------------------------------------

  /** The class `[a-zа-яё]`: Latin a-z, Cyrillic а-я (U+0430..U+044F) and ё (U+0451). */
  predicate IsTokenChar(c: char)
  {
    ('a' <= c <= 'z') || ('\U{0430}' <= c <= '\U{044F}') || c == '\U{0451}'
  }

  /** `toLowerCase` on one character, for A-Z, А-Я (U+0410..U+042F) and Ѐ-Џ (U+0400..U+040F). */
  function LowerChar(c: char): char
  {
    if 'A' <= c <= 'Z' then (c as int + 32) as char
    else if '\U{0410}' <= c <= '\U{042F}' then (c as int + 32) as char
    else if '\U{0400}' <= c <= '\U{040F}' then (c as int + 80) as char
    else c
  }

  /** `toUpperCase` on one character, for a-z, а-я (U+0430..U+044F) and ѐ-џ (U+0450..U+045F). */
  function UpperChar(c: char): char
  {
    if 'a' <= c <= 'z' then (c as int - 32) as char
    else if '\U{0430}' <= c <= '\U{044F}' then (c as int - 32) as char
    else if '\U{0450}' <= c <= '\U{045F}' then (c as int - 80) as char
    else c
  }

  function Lower(s: string): string
  {
    seq(|s|, i requires 0 <= i < |s| => LowerChar(s[i]))
  }

  function Upper(s: string): string
  {
    seq(|s|, i requires 0 <= i < |s| => UpperChar(s[i]))
  }

  /** A letter of either alphabet, in either case. */
  predicate IsCasedLetter(c: char)
  {
    ('A' <= c <= 'Z') || ('a' <= c <= 'z') || ('\U{0400}' <= c <= '\U{045F}')
  }

  /**
   * On the letters both mappings cover, lower-casing ends in lower case, upper-casing
   * in upper case, and each mapping undoes the other; everything else is left alone.
   */
  lemma CaseMapping(c: char)
    ensures IsCasedLetter(c) ==> UpperChar(LowerChar(c)) == UpperChar(c) && LowerChar(UpperChar(c)) == LowerChar(c)
    ensures IsCasedLetter(c) ==> LowerChar(LowerChar(c)) == LowerChar(c) && UpperChar(UpperChar(c)) == UpperChar(c)
    ensures IsCasedLetter(c) ==> LowerChar(c) != UpperChar(c)
    ensures !IsCasedLetter(c) ==> LowerChar(c) == c && UpperChar(c) == c
    ensures IsTokenChar(LowerChar(c)) <==> ('A' <= c <= 'Z' || 'a' <= c <= 'z' || '\U{0410}' <= c <= '\U{044F}' || c == '\U{0401}' || c == '\U{0451}')
  {
  }

  // ---------------------------------------------------------------------------
  // trim
  // ---------------------------------------------------------------------------

  /**
   * What `String.prototype.trim` strips: the white space characters (tab, vertical
   * tab, form feed, space, no-break space, U+FEFF and the other space separators)
   * and the line terminators (line feed, carriage return, U+2028, U+2029).
   */
  predicate IsTrimmed(c: char)
  {
    || c == '\t' || c == '\n' || c == '\U{000B}' || c == '\U{000C}' || c == '\r'
    || c == ' ' || c == '\U{00A0}' || c == '\U{1680}' || ('\U{2000}' <= c <= '\U{200A}')
    || c == '\U{2028}' || c == '\U{2029}' || c == '\U{202F}' || c == '\U{205F}'
    || c == '\U{3000}' || c == '\U{FEFF}'
  }

  /** s[lo..hi] is white space only. */
  predicate Blank(s: string, lo: int, hi: int)
    requires 0 <= lo <= hi <= |s|
  {
    forall k :: lo <= k < hi ==> IsTrimmed(s[k])
  }

  /** s without its leading white space. */
  function TrimStart(s: string): (r: string)
    ensures |r| <= |s| && r == s[|s| - |r|..]
    ensures Blank(s, 0, |s| - |r|)
    ensures r == [] || !IsTrimmed(r[0])
  {
    if s != [] && IsTrimmed(s[0]) then TrimStart(s[1..]) else s
  }

  /** s without its trailing white space. */
  function TrimEnd(s: string): (r: string)
    ensures |r| <= |s| && r == s[..|r|]
    ensures Blank(s, |r|, |s|)
    ensures r == [] || !IsTrimmed(r[|r| - 1])
  {
    if s != [] && IsTrimmed(s[|s| - 1]) then TrimEnd(s[..|s| - 1]) else s
  }

  /** `s.trim()`. */
  function Trim(s: string): string
  {
    TrimEnd(TrimStart(s))
  }

  /** Trim(s) is what is left of s between its leading and its trailing white space. */
  lemma TrimIsSlice(s: string) returns (i: int, j: int)
    ensures 0 <= i <= j <= |s| && Trim(s) == s[i..j]
    ensures Blank(s, 0, i) && Blank(s, j, |s|)
    ensures Trim(s) == [] || (!IsTrimmed(s[i]) && !IsTrimmed(s[j - 1]))
  {
    i, j := SliceOfTrims(s, TrimStart(s), Trim(s));
  }

  /**
   * A suffix u of s after white space, and a prefix r of u before white space, is a
   * slice of s with white space on both sides.
   */
  lemma SliceOfTrims(s: string, u: string, r: string) returns (i: int, j: int)
    requires |u| <= |s| && u == s[|s| - |u|..] && Blank(s, 0, |s| - |u|)
    requires u == [] || !IsTrimmed(u[0])
    requires |r| <= |u| && r == u[..|r|] && Blank(u, |r|, |u|)
    requires r == [] || !IsTrimmed(r[|r| - 1])
    ensures 0 <= i <= j <= |s| && r == s[i..j]
    ensures Blank(s, 0, i) && Blank(s, j, |s|)
    ensures r == [] || (!IsTrimmed(s[i]) && !IsTrimmed(s[j - 1]))
  {
    i := |s| - |u|;
    j := i + |r|;
    assert u[..|r|] == s[i..j];
    if r != [] {
      assert r[0] == u[0] && s[i] == u[0];
      assert s[j - 1] == r[|r| - 1];
    }
    BlankInSuffix(s, i, |r|);
  }

  /** White space in s[i..] between lo and |s| - i is white space in s between i + lo and |s|. */
  lemma BlankInSuffix(s: string, i: int, lo: int)
    requires 0 <= i <= |s| && 0 <= lo <= |s| - i
    requires Blank(s[i..], lo, |s| - i)
    ensures Blank(s, i + lo, |s|)
  {
    forall k | i + lo <= k < |s|
      ensures IsTrimmed(s[k])
    {
      assert s[k] == s[i..][k - i];
    }
  }

  /** Trimming leaves nothing exactly when s consists of white space only. */
  lemma TrimEmptyIff(s: string)
    ensures Trim(s) == [] <==> Blank(s, 0, |s|)
  {
    var i, j := TrimIsSlice(s);
    if Trim(s) == [] {
      forall k | 0 <= k < |s|
        ensures IsTrimmed(s[k])
      {
        if k < i {
          assert Blank(s, 0, i);
        } else {
          assert Blank(s, j, |s|);
        }
      }
    } else {
      assert !IsTrimmed(s[i]);
    }
  }

  /** Trimming twice trims nothing more. */
  lemma TrimIdempotent(s: string)
    ensures Trim(Trim(s)) == Trim(s)
  {
    var r := Trim(s);
    var i, j := TrimIsSlice(s);
    if r != [] {
      assert r[0] == s[i] && r[|r| - 1] == s[j - 1];
      assert TrimStart(r) == r;
    }
  }

  // ---------------------------------------------------------------------------
  // split(/[^a-zа-яё]+/)
  // ---------------------------------------------------------------------------

  /** s[lo..hi] consists of token characters only. */
  predicate Letters(s: string, lo: int, hi: int)
    requires 0 <= lo <= hi <= |s|
  {
    forall k :: lo <= k < hi ==> IsTokenChar(s[k])
  }

  /** s has no token character. */
  predicate NoLetters(s: string)
  {
    forall k :: 0 <= k < |s| ==> !IsTokenChar(s[k])
  }

  /** The length of the run of token characters s starts with. */
  function RunLength(s: string): (n: nat)
    ensures n <= |s|
    ensures Letters(s, 0, n)
    ensures n == |s| || !IsTokenChar(s[n])
  {
    if s == [] || !IsTokenChar(s[0]) then 0 else 1 + RunLength(s[1..])
  }

  /** A run of m token characters followed by the end or a non-token character has length m. */
  lemma {:induction false} RunLengthExact(s: string, m: nat)
    requires m <= |s| && Letters(s, 0, m)
    requires m == |s| || !IsTokenChar(s[m])
    ensures RunLength(s) == m
  {
    if m > 0 {
      assert IsTokenChar(s[0]);
      RunLengthExact(s[1..], m - 1);
    }
  }

  /**
   * The non-empty strings `s.split(/[^a-zа-яё]+/)` returns, in order (the split can
   * also yield an empty first or last string, which the tokenizer filters out).
   */
  function Pieces(s: string): seq<string>
    decreases |s|
  {
    if s == [] then []
    else if !IsTokenChar(s[0]) then Pieces(s[1..])
    else
      var n := RunLength(s);
      [s[..n]] + Pieces(s[n..])
  }

  /** s[i..j] is a maximal run of token characters of s. */
  ghost predicate MaximalRun(s: string, i: int, j: int)
  {
    && 0 <= i < j <= |s|
    && Letters(s, i, j)
    && (i == 0 || !IsTokenChar(s[i - 1]))
    && (j == |s| || !IsTokenChar(s[j]))
  }

  /** A maximal run of s[d..] is one of s, unless it starts s[d..] right after a token character. */
  lemma RunOfSuffix(s: string, d: nat, i: int, j: int)
    requires d <= |s| && MaximalRun(s[d..], i, j)
    requires i > 0 || d == 0 || !IsTokenChar(s[d - 1])
    ensures MaximalRun(s, d + i, d + j) && s[d + i..d + j] == s[d..][i..j]
  {
    var u := s[d..];
    assert forall k :: 0 <= k < |u| ==> u[k] == s[d + k];
    assert Letters(s, d + i, d + j) by {
      assert Letters(u, i, j);
      forall k | d + i <= k < d + j
        ensures IsTokenChar(s[k])
      {
        assert s[k] == u[k - d];
      }
    }
  }

  /** A maximal run of s that starts at or after d is a maximal run of s[d..]. */
  lemma RunInSuffix(s: string, d: nat, i: int, j: int)
    requires MaximalRun(s, i, j) && d <= i
    ensures MaximalRun(s[d..], i - d, j - d) && s[d..][i - d..j - d] == s[i..j]
  {
    var u := s[d..];
    assert forall k :: 0 <= k < |u| ==> u[k] == s[d + k];
    assert Letters(u, i - d, j - d) by {
      assert Letters(s, i, j);
      forall k | i - d <= k < j - d
        ensures IsTokenChar(u[k])
      {
        assert u[k] == s[k + d];
      }
    }
  }

  /** Every piece of s is a maximal run of s. */
  lemma PieceIsRun(s: string, t: string) returns (i: int, j: int)
    requires t in Pieces(s)
    ensures MaximalRun(s, i, j) && s[i..j] == t
  {
    var starts := PiecesInOrder(s);
    var k :| 0 <= k < |Pieces(s)| && Pieces(s)[k] == t;
    assert RunOf(s, t, starts[k]);
    i, j := starts[k], starts[k] + |t|;
  }

  /** Every maximal run of s is a piece of s. */
  lemma RunIsPiece(s: string, i: int, j: int)
    requires MaximalRun(s, i, j)
    ensures s[i..j] in Pieces(s)
  {
    var starts := PiecesInOrder(s);
    var ps := Pieces(s);
    var k :| 0 <= k < |starts| && starts[k] == i;
    assert RunOf(s, ps[k], i);
    RunEndUnique(s, i, i + |ps[k]|, j);
    assert ps[k] == s[i..j];
  }

  /** The pieces of s are exactly its maximal runs of token characters. */
  lemma PiecesAreMaximalRuns(s: string, t: string)
    ensures t in Pieces(s) <==> exists i, j :: MaximalRun(s, i, j) && s[i..j] == t
  {
    if t in Pieces(s) {
      var i, j := PieceIsRun(s, t);
    }
    if exists i, j :: MaximalRun(s, i, j) && s[i..j] == t {
      var i, j :| MaximalRun(s, i, j) && s[i..j] == t;
      RunIsPiece(s, i, j);
    }
  }

  /** t is spelled by the maximal run of s that starts at i. */
  ghost predicate RunOf(s: string, t: string, i: int)
  {
    MaximalRun(s, i, i + |t|) && s[i..i + |t|] == t
  }

  /** The maximal run starting at i is the leftmost run of s that spells t. */
  ghost predicate FirstRunOf(s: string, t: string, i: int)
  {
    RunOf(s, t, i) && forall i' :: 0 <= i' < i ==> !RunOf(s, t, i')
  }

  /** Two maximal runs that start at the same position also end at the same position. */
  lemma RunEndUnique(s: string, i: int, j: int, j': int)
    requires MaximalRun(s, i, j) && MaximalRun(s, i, j')
    ensures j == j'
  {
  }

  /** The positions xs, each moved d places to the right. */
  function Shift(xs: seq<nat>, d: nat): seq<nat>
  {
    seq(|xs|, k requires 0 <= k < |xs| => xs[k] + d)
  }

  /**
   * ps lists the maximal runs of s from left to right, each once: ps[k] is the run that
   * starts at starts[k], the starts increase strictly, and every maximal run starts at
   * one of them.
   */
  ghost predicate ListsRuns(s: string, ps: seq<string>, starts: seq<nat>)
  {
    && |starts| == |ps|
    && (forall k :: 0 <= k < |starts| ==> RunOf(s, ps[k], starts[k]))
    && (forall k, l :: 0 <= k < l < |starts| ==> starts[k] < starts[l])
    && (forall i, j :: MaximalRun(s, i, j) ==> i in starts)
  }

  /** The split lists the maximal runs of s from left to right, each once. */
  lemma {:induction false} PiecesInOrder(s: string) returns (starts: seq<nat>)
    ensures ListsRuns(s, Pieces(s), starts)
    decreases |s|
  {
    if s == [] {
      starts := [];
    } else if !IsTokenChar(s[0]) {
      var rest := PiecesInOrder(s[1..]);
      ListsRunsSkip(s, Pieces(s[1..]), rest);
      starts := Shift(rest, 1);
    } else {
      var n := RunLength(s);
      var rest := PiecesInOrder(s[n..]);
      ListsRunsAfterRun(s, n, Pieces(s[n..]), rest);
      starts := [0] + Shift(rest, n);
    }
  }

  /** A leading non-token character moves every run one place right and adds none. */
  lemma ListsRunsSkip(s: string, ps: seq<string>, rest: seq<nat>)
    requires s != [] && !IsTokenChar(s[0])
    requires ListsRuns(s[1..], ps, rest)
    ensures ListsRuns(s, ps, Shift(rest, 1))
  {
    ShiftedRunsAreRuns(s, 1, rest, ps);
    ShiftedRunsCover(s, 1, rest, ps);
    forall i, j | MaximalRun(s, i, j)
      ensures i in Shift(rest, 1)
    {
      assert i != 0 by {
        assert Letters(s, i, j);
      }
    }
  }

  /** A leading run of token characters is the first run, followed by the runs after it. */
  lemma ListsRunsAfterRun(s: string, n: nat, ps: seq<string>, rest: seq<nat>)
    requires 0 < n <= |s| && Letters(s, 0, n) && (n == |s| || !IsTokenChar(s[n]))
    requires ListsRuns(s[n..], ps, rest)
    ensures ListsRuns(s, [s[..n]] + ps, [0] + Shift(rest, n))
  {
    LeadingRunThenRuns(s, n, ps, rest);
    LeadingRunThenCover(s, n, ps, rest);
    LeadingRunThenIncreasing(n, rest);
  }

  lemma LeadingRunThenIncreasing(n: nat, rest: seq<nat>)
    requires 0 < n
    requires forall k, l :: 0 <= k < l < |rest| ==> rest[k] < rest[l]
    ensures forall k, l :: 0 <= k < l < |[0] + Shift(rest, n)| ==> ([0] + Shift(rest, n))[k] < ([0] + Shift(rest, n))[l]
  {
  }

  lemma LeadingRunThenRuns(s: string, n: nat, ps: seq<string>, rest: seq<nat>)
    requires 0 < n <= |s| && Letters(s, 0, n) && (n == |s| || !IsTokenChar(s[n]))
    requires ListsRuns(s[n..], ps, rest)
    ensures forall k :: 0 <= k < |[0] + Shift(rest, n)| ==> RunOf(s, ([s[..n]] + ps)[k], ([0] + Shift(rest, n))[k])
  {
    var starts, all := [0] + Shift(rest, n), [s[..n]] + ps;
    forall k | 0 <= k < |starts|
      ensures RunOf(s, all[k], starts[k])
    {
      if k == 0 {
        assert all[k] == s[..n] && starts[k] == 0;
        assert RunOf(s, s[..n], 0);
      } else {
        var t, i := ps[k - 1], rest[k - 1];
        assert RunOf(s[n..], t, i);
        RunShiftsRight(s, n, t, i);
        assert all[k] == t && starts[k] == n + i;
      }
    }
  }

  lemma LeadingRunThenCover(s: string, n: nat, ps: seq<string>, rest: seq<nat>)
    requires 0 < n <= |s| && Letters(s, 0, n)
    requires ListsRuns(s[n..], ps, rest)
    ensures forall i, j :: MaximalRun(s, i, j) ==> i in [0] + Shift(rest, n)
  {
    ShiftedRunsCover(s, n, rest, ps);
    forall i, j | MaximalRun(s, i, j)
      ensures i in [0] + Shift(rest, n)
    {
      if i != 0 {
        assert n <= i by {
          assert Letters(s, 0, n);
        }
        assert i in Shift(rest, n);
      }
    }
  }

  /**
   * When s[d - 1] or s[d] is no token character, a run of s[d..] is a run of s, moved
   * d places right.
   */
  lemma RunShiftsRight(s: string, d: nat, t: string, i: int)
    requires 1 <= d <= |s|
    requires !IsTokenChar(s[d - 1]) || d == |s| || !IsTokenChar(s[d])
    requires RunOf(s[d..], t, i)
    ensures RunOf(s, t, i + d)
  {
    assert i > 0 || !IsTokenChar(s[d - 1]) by {
      if i == 0 {
        assert Letters(s[d..], i, i + |t|) && s[d..][0] == s[d];
      }
    }
    var j := i + |t|;
    RunOfSuffix(s, d, i, j);
    var lo, hi := d + i, d + j;
    assert hi == lo + |t| && MaximalRun(s, lo, hi) && s[lo..hi] == t;
  }

  /** The runs listed for s[d..], moved d places right, are runs of s. */
  lemma ShiftedRunsAreRuns(s: string, d: nat, rest: seq<nat>, ps: seq<string>)
    requires 1 <= d <= |s|
    requires !IsTokenChar(s[d - 1]) || d == |s| || !IsTokenChar(s[d])
    requires ListsRuns(s[d..], ps, rest)
    ensures forall k :: 0 <= k < |rest| ==> RunOf(s, ps[k], Shift(rest, d)[k])
  {
    forall k | 0 <= k < |rest|
      ensures RunOf(s, ps[k], rest[k] + d)
    {
      RunShiftsRight(s, d, ps[k], rest[k]);
    }
  }

  /** Every run of s from d on is listed for s[d..], moved d places right. */
  lemma ShiftedRunsCover(s: string, d: nat, rest: seq<nat>, ps: seq<string>)
    requires d <= |s|
    requires ListsRuns(s[d..], ps, rest)
    ensures forall i, j :: MaximalRun(s, i, j) && d <= i ==> i in Shift(rest, d)
  {
    forall i, j | MaximalRun(s, i, j) && d <= i
      ensures i in Shift(rest, d)
    {
      RunInSuffix(s, d, i, j);
      var k :| 0 <= k < |rest| && rest[k] == i - d;
      assert Shift(rest, d)[k] == i;
    }
  }

  /** A run of t has a leftmost run of t at or before it. */
  lemma {:induction false} FirstRunAtOrBefore(s: string, t: string, i: int)
    requires RunOf(s, t, i)
    ensures exists i' :: 0 <= i' <= i && FirstRunOf(s, t, i')
    decreases i
  {
    if !FirstRunOf(s, t, i) {
      var i' :| 0 <= i' < i && RunOf(s, t, i');
      FirstRunAtOrBefore(s, t, i');
    }
  }

  /** Every piece of s has a leftmost run. */
  lemma PieceHasFirstRun(s: string, t: string)
    requires t in Pieces(s)
    ensures exists i :: FirstRunOf(s, t, i)
  {
    var i, j := PieceIsRun(s, t);
    assert RunOf(s, t, i);
    FirstRunAtOrBefore(s, t, i);
  }

  /**
   * Of two words of s, the one whose leftmost run comes first is the one the split
   * lists first.
   */
  lemma PiecesByFirstRun(s: string, t: string, u: string, i: int, j: int)
    requires FirstRunOf(s, t, i) && FirstRunOf(s, u, j)
    ensures t in Pieces(s) && u in Pieces(s)
    ensures IndexOf(Pieces(s), t) < IndexOf(Pieces(s), u) <==> i < j
  {
    var starts := PiecesInOrder(s);
    var kt := FirstRunIndex(s, Pieces(s), starts, t, i);
    var ku := FirstRunIndex(s, Pieces(s), starts, u, j);
    if kt < ku {
      assert i < j;
    } else if ku < kt {
      assert j < i;
    }
  }

  /** The leftmost run of t is the first piece equal to t. */
  lemma FirstRunIndex(s: string, ps: seq<string>, starts: seq<nat>, t: string, i: int) returns (k: nat)
    requires ListsRuns(s, ps, starts)
    requires FirstRunOf(s, t, i)
    ensures k < |ps| && starts[k] == i && t in ps && IndexOf(ps, t) == k
  {
    assert MaximalRun(s, i, i + |t|);
    k :| 0 <= k < |starts| && starts[k] == i;
    assert RunOf(s, ps[k], i);
    RunEndUnique(s, i, i + |ps[k]|, i + |t|);
    assert ps[k] == t;
    var k0 := IndexOf(ps, t);
    assert RunOf(s, t, starts[k0]);
  }

  /** The token characters of s, in order. */
  function TokenChars(s: string): string
  {
    if s == [] then [] else (if IsTokenChar(s[0]) then [s[0]] else []) + TokenChars(s[1..])
  }

  lemma {:induction false} TokenCharsOfRun(s: string, n: nat)
    requires n <= |s| && Letters(s, 0, n)
    ensures TokenChars(s) == s[..n] + TokenChars(s[n..])
  {
    if n > 0 {
      TokenCharsOfRun(s[1..], n - 1);
      assert s[1..][n - 1..] == s[n..];
      assert s[..n] == [s[0]] + s[1..][..n - 1];
    }
  }

  /** Read one after the other, the pieces give back every token character of s, in order. */
  lemma {:induction false} PiecesKeepTokenChars(s: string)
    ensures Concat(Pieces(s)) == TokenChars(s)
    decreases |s|
  {
    if s != [] {
      if !IsTokenChar(s[0]) {
        PiecesKeepTokenChars(s[1..]);
      } else {
        var n := RunLength(s);
        PiecesKeepTokenChars(s[n..]);
        ConcatAppend([s[..n]], Pieces(s[n..]));
        assert Concat([s[..n]]) == s[..n] by {
          assert [s[..n]][..0] == [];
        }
        TokenCharsOfRun(s, n);
      }
    }
  }

  // ---------------------------------------------------------------------------
  // includes and join
  // ---------------------------------------------------------------------------

  /** t occurs in s at position k. */
  ghost predicate OccursAt(s: string, t: string, k: int)
  {
    0 <= k && k + |t| <= |s| && s[k..k + |t|] == t
  }

  /** `s.includes(t)`. */
  function Includes(s: string, t: string): bool
    decreases |s|
  {
    if |t| > |s| then false else s[..|t|] == t || Includes(s[1..], t)
  }

  /** `includes` holds exactly when t occurs somewhere in s. */
  lemma {:induction false} IncludesSpec(s: string, t: string)
    ensures Includes(s, t) <==> exists k :: OccursAt(s, t, k)
    decreases |s|
  {
    if |t| <= |s| {
      if s[..|t|] == t {
        assert OccursAt(s, t, 0);
      } else if Includes(s[1..], t) {
        IncludesSpec(s[1..], t);
        var k :| OccursAt(s[1..], t, k);
        assert s[1..][k..k + |t|] == s[k + 1..k + 1 + |t|];
        assert OccursAt(s, t, k + 1);
      } else if exists k :: OccursAt(s, t, k) {
        var k :| OccursAt(s, t, k);
        assert k != 0;
        IncludesSpec(s[1..], t);
        assert s[1..][k - 1..k - 1 + |t|] == s[k..k + |t|];
        assert OccursAt(s[1..], t, k - 1);
      }
    }
  }

  /** `ts.join(sep)`. */
  function Join(ts: seq<string>, sep: string): string
  {
    if ts == [] then "" else if |ts| == 1 then ts[0] else ts[0] + (sep + Join(ts[1..], sep))
  }

  /** Every string of ts is a non-empty run of token characters. */
  ghost predicate AllTokenWords(ts: seq<string>)
  {
    forall t :: t in ts ==> t != [] && Letters(t, 0, |t|)
  }

  lemma {:induction false} PiecesAfterWord(u: string, v: string)
    requires u != [] && Letters(u, 0, |u|)
    requires v == [] || !IsTokenChar(v[0])
    ensures Pieces(u + v) == [u] + Pieces(v)
  {
    var s := u + v;
    assert Letters(s, 0, |u|) by {
      assert forall k :: 0 <= k < |u| ==> s[k] == u[k];
    }
    assert |u| == |s| || s[|u|] == v[0];
    RunLengthExact(s, |u|);
    assert s[..|u|] == u && s[|u|..] == v;
  }

  lemma {:induction false} PiecesSkip(sep: string, v: string)
    requires NoLetters(sep)
    ensures Pieces(sep + v) == Pieces(v)
  {
    if sep != [] {
      var w := sep + v;
      assert w != [] && w[0] == sep[0] && !IsTokenChar(w[0]);
      assert Pieces(w) == Pieces(w[1..]);
      assert w[1..] == sep[1..] + v;
      PiecesSkip(sep[1..], v);
    } else {
      assert sep + v == v;
    }
  }

  /**
   * Joining token words with a separator free of token characters can be undone by
   * the tokenizer's split: the words come back, in order.
   */
  lemma {:induction false} PiecesOfJoin(ts: seq<string>, sep: string)
    requires AllTokenWords(ts)
    requires sep != [] && NoLetters(sep)
    ensures Pieces(Join(ts, sep)) == ts
  {
    if ts == [] {
    } else if |ts| == 1 {
      PiecesAfterWord(ts[0], []);
      assert ts[0] + [] == ts[0];
    } else {
      assert ts[0] in ts;
      var rest := Join(ts[1..], sep);
      assert AllTokenWords(ts[1..]) by {
        forall t | t in ts[1..] ensures t in ts { }
      }
      PiecesOfJoin(ts[1..], sep);
      PiecesSkip(sep, rest);
      assert (sep + rest)[0] == sep[0] && !IsTokenChar(sep[0]);
      PiecesAfterWord(ts[0], sep + rest);
      assert Pieces(Join(ts, sep)) == [ts[0]] + ts[1..];
      assert ts == [ts[0]] + ts[1..];
    }
  }

  /** Lower-casing leaves lower-case letters and spaces alone. */
  lemma LowerKeepsWord(w: string)
    requires forall k :: 0 <= k < |w| ==> IsTokenChar(w[k]) || w[k] == ' '
    ensures Lower(w) == w
  {
  }

  /** A single word of token characters splits into itself. */
  lemma WordPieces(w: string)
    requires w != [] && Letters(w, 0, |w|)
    ensures Pieces(w) == [w]
  {
    PiecesAfterWord(w, []);
    assert w + [] == w;
  }
}
