/**
 * The explanation shown under each recommended recipe: the query's words that occur in
 * the recipe's ingredient names, framed by a sentence naming the cuisine.
 */
module Explanation {
  import opened Seqs
  import opened Text
  import opened Recipes

  // ---------------------------------------------------------------------------
  // Query tokens
  // ---------------------------------------------------------------------------

  /** The strings of ts longer than one character, in order (`filter(t => t.length > 1)`). */
  function Long(ts: seq<string>): seq<string>
  {
    if ts == [] then []
    else Long(ts[..|ts| - 1]) + (if |ts[|ts| - 1]| > 1 then [ts[|ts| - 1]] else [])
  }

  lemma {:induction false} LongMembers(ts: seq<string>)
    ensures forall t :: t in Long(ts) <==> t in ts && |t| > 1
  {
    if ts != [] {
      LongMembers(ts[..|ts| - 1]);
      assert ts == ts[..|ts| - 1] + [ts[|ts| - 1]];
    }
  }

  /** Long keeps the order of the strings it keeps: positions compare as they do in ts. */
  lemma {:induction false} LongOrder(ts: seq<string>, t: string, u: string)
    requires t in Long(ts) && u in Long(ts)
    ensures t in ts && u in ts
    ensures IndexOf(Long(ts), t) < IndexOf(Long(ts), u) <==> IndexOf(ts, t) < IndexOf(ts, u)
  {
    LongMembers(ts);
    var n := |ts| - 1;
    var init, last := ts[..n], ts[n];
    var l := Long(init);
    var tail := if |last| > 1 then [last] else [];
    LongMembers(init);
    assert ts == init + [last];
    assert Long(ts) == l + tail;
    if t in l && u in l {
      LongOrder(init, t, u);
      IndexOfPrefix(l, tail, t);
      IndexOfPrefix(l, tail, u);
      IndexOfAppend(init, last, t);
      IndexOfAppend(init, last, u);
    } else if t in l {
      assert u == last && u !in init;
      IndexOfPrefix(l, tail, t);
      IndexOfSuffix(l, tail, u);
      IndexOfAppend(init, last, t);
      IndexOfSuffix(init, [last], u);
    } else if u in l {
      assert t == last && t !in init;
      IndexOfPrefix(l, tail, u);
      IndexOfSuffix(l, tail, t);
      IndexOfAppend(init, last, u);
      IndexOfSuffix(init, [last], t);
    } else {
      assert t == last && u == last;
    }
  }

  /** The query tokens: the lower-cased query split into words, one-letter words dropped, as a set in first-seen order. */
  function Tokens(query: string): seq<string>
  {
    Dedup(Long(Pieces(Lower(query))))
  }

  /** Every piece of s is a non-empty word of token characters. */
  lemma PiecesAreWords(s: string)
    ensures AllTokenWords(Pieces(s))
  {
    forall t | t in Pieces(s)
      ensures t != [] && Letters(t, 0, |t|)
    {
      var i, j := PieceIsRun(s, t);
      assert forall k :: 0 <= k < |t| ==> t[k] == s[i + k];
    }
  }

  /**
   * The query tokens are the maximal letter runs of the lower-cased query that have at
   * least two letters, each listed once.
   */
  lemma TokensSpec(query: string)
    ensures NoDups(Tokens(query))
    ensures AllTokenWords(Tokens(query))
    ensures forall t :: t in Tokens(query) <==> |t| > 1 && t in Pieces(Lower(query))
    ensures forall t :: t in Tokens(query) ==> exists i, j :: MaximalRun(Lower(query), i, j) && Lower(query)[i..j] == t
    ensures forall t :: t in Tokens(query) ==> exists i :: FirstRunOf(Lower(query), t, i)
  {
    var p := Pieces(Lower(query));
    LongMembers(p);
    DedupSpec(Long(p));
    PiecesAreWords(Lower(query));
    forall t | t in Tokens(query)
      ensures exists i, j :: MaximalRun(Lower(query), i, j) && Lower(query)[i..j] == t
    {
      PiecesAreMaximalRuns(Lower(query), t);
    }
    forall t | t in Tokens(query)
      ensures exists i :: FirstRunOf(Lower(query), t, i)
    {
      PieceHasFirstRun(Lower(query), t);
    }
  }

  /**
   * The query tokens are listed in the order of their first occurrences in the
   * lower-cased query: t precedes u exactly when the first maximal run equal to t
   * starts before the first maximal run equal to u.
   */
  lemma TokensInQueryOrder(query: string, t: string, u: string, i: int, j: int)
    requires t in Tokens(query) && u in Tokens(query)
    requires FirstRunOf(Lower(query), t, i) && FirstRunOf(Lower(query), u, j)
    ensures IndexOf(Tokens(query), t) < IndexOf(Tokens(query), u) <==> i < j
  {
    var p := Pieces(Lower(query));
    DedupSpec(Long(p));
    DedupOrder(Long(p), t, u);
    LongOrder(p, t, u);
    PiecesByFirstRun(Lower(query), t, u, i, j);
  }

  // ---------------------------------------------------------------------------
  // Overlap with the ingredients
  // ---------------------------------------------------------------------------

  /** The tokens found inside the lower-cased ingredient name low, in token order. */
  function Matching(tokens: seq<string>, low: string): seq<string>
  {
    if tokens == [] then []
    else
      var t := tokens[|tokens| - 1];
      Matching(tokens[..|tokens| - 1], low) + (if Includes(low, t) then [t] else [])
  }

  /** The matches of every ingredient, ingredient after ingredient, repetitions kept. */
  function AllMatches(tokens: seq<string>, ingredients: seq<string>): seq<string>
  {
    if ingredients == [] then []
    else
      AllMatches(tokens, ingredients[..|ingredients| - 1])
      + Matching(tokens, Lower(ingredients[|ingredients| - 1]))
  }

  /** The overlap set, in insertion order. */
  function SharedTokens(tokens: seq<string>, ingredients: seq<string>): seq<string>
  {
    Dedup(AllMatches(tokens, ingredients))
  }

  /** Some ingredient's lower-cased name contains t. */
  ghost predicate InSomeIngredient(t: string, ingredients: seq<string>)
  {
    exists i :: 0 <= i < |ingredients| && Includes(Lower(ingredients[i]), t)
  }

  lemma {:induction false} MatchingMembers(tokens: seq<string>, low: string)
    ensures forall t :: t in Matching(tokens, low) <==> t in tokens && Includes(low, t)
  {
    if tokens != [] {
      MatchingMembers(tokens[..|tokens| - 1], low);
      assert tokens == tokens[..|tokens| - 1] + [tokens[|tokens| - 1]];
    }
  }

  lemma {:induction false} AllMatchesMembers(tokens: seq<string>, ingredients: seq<string>)
    ensures forall t :: t in AllMatches(tokens, ingredients) <==> t in tokens && InSomeIngredient(t, ingredients)
  {
    if ingredients != [] {
      var n := |ingredients| - 1;
      var init := ingredients[..n];
      AllMatchesMembers(tokens, init);
      MatchingMembers(tokens, Lower(ingredients[n]));
      forall t ensures InSomeIngredient(t, ingredients) <==> InSomeIngredient(t, init) || Includes(Lower(ingredients[n]), t)
      {
        if InSomeIngredient(t, init) {
          var i :| 0 <= i < |init| && Includes(Lower(init[i]), t);
          assert init[i] == ingredients[i];
        }
        if InSomeIngredient(t, ingredients) {
          var i :| 0 <= i < |ingredients| && Includes(Lower(ingredients[i]), t);
          if i < n {
            assert init[i] == ingredients[i];
          }
        }
      }
    }
  }

  /**
   * A token is shared exactly when it is a query token contained in some ingredient
   * name; each shared token is listed once, and the shared tokens follow the order in
   * which the ingredients first matched them.
   */
  lemma SharedTokensSpec(tokens: seq<string>, ingredients: seq<string>)
    ensures NoDups(SharedTokens(tokens, ingredients))
    ensures forall t :: t in SharedTokens(tokens, ingredients) <==> t in tokens && InSomeIngredient(t, ingredients)
    ensures forall t :: t in SharedTokens(tokens, ingredients) <==> t in AllMatches(tokens, ingredients)
    ensures forall i, j :: 0 <= i < j < |SharedTokens(tokens, ingredients)| ==>
              IndexOf(AllMatches(tokens, ingredients), SharedTokens(tokens, ingredients)[i])
              < IndexOf(AllMatches(tokens, ingredients), SharedTokens(tokens, ingredients)[j])
  {
    AllMatchesMembers(tokens, ingredients);
    DedupSpec(AllMatches(tokens, ingredients));
  }

  /** The index of the first ingredient whose lower-cased name contains t. */
  function FirstMatch(t: string, ingredients: seq<string>): (k: nat)
    requires InSomeIngredient(t, ingredients)
    ensures k < |ingredients| && Includes(Lower(ingredients[k]), t)
    ensures forall i :: 0 <= i < k ==> !Includes(Lower(ingredients[i]), t)
    decreases |ingredients|
  {
    if Includes(Lower(ingredients[0]), t) then 0
    else
      assert InSomeIngredient(t, ingredients[1..]) by {
        var i :| 0 <= i < |ingredients| && Includes(Lower(ingredients[i]), t);
        assert ingredients[1..][i - 1] == ingredients[i];
      }
      1 + FirstMatch(t, ingredients[1..])
  }

  /** t comes before u in the shared list: an earlier first ingredient, or the same one and an earlier query position. */
  ghost predicate MatchedBefore(t: string, u: string, tokens: seq<string>, ingredients: seq<string>)
    requires t in tokens && u in tokens
    requires InSomeIngredient(t, ingredients) && InSomeIngredient(u, ingredients)
  {
    || FirstMatch(t, ingredients) < FirstMatch(u, ingredients)
    || (FirstMatch(t, ingredients) == FirstMatch(u, ingredients) && IndexOf(tokens, t) < IndexOf(tokens, u))
  }

  /** Matching keeps the query order of the tokens it keeps. */
  lemma {:induction false} MatchingOrder(tokens: seq<string>, low: string, t: string, u: string)
    requires NoDups(tokens)
    requires t in Matching(tokens, low) && u in Matching(tokens, low)
    ensures t in tokens && u in tokens
    ensures IndexOf(Matching(tokens, low), t) < IndexOf(Matching(tokens, low), u) <==> IndexOf(tokens, t) < IndexOf(tokens, u)
  {
    MatchingMembers(tokens, low);
    var n := |tokens| - 1;
    var init, last := tokens[..n], tokens[n];
    var m := Matching(init, low);
    MatchingMembers(init, low);
    assert tokens == init + [last];
    assert NoDups(init);
    assert last !in init;
    if Includes(low, last) {
      if t in m && u in m {
        MatchingOrder(init, low, t, u);
        IndexOfAppend(m, last, t);
        IndexOfAppend(m, last, u);
        IndexOfAppend(init, last, t);
        IndexOfAppend(init, last, u);
      } else if t in m {
        assert u == last;
        IndexOfAppend(m, last, t);
        IndexOfSuffix(m, [last], u);
        IndexOfAppend(init, last, t);
        IndexOfSuffix(init, [last], u);
      } else if u in m {
        assert t == last;
        IndexOfAppend(m, last, u);
        IndexOfSuffix(m, [last], t);
        IndexOfAppend(init, last, u);
        IndexOfSuffix(init, [last], t);
      }
    } else {
      assert Matching(tokens, low) == m;
      MatchingOrder(init, low, t, u);
      IndexOfAppend(init, last, t);
      IndexOfAppend(init, last, u);
    }
  }

  /** A token some earlier ingredient contains is first matched there. */
  lemma FirstMatchInit(t: string, ingredients: seq<string>, n: nat)
    requires n <= |ingredients| && InSomeIngredient(t, ingredients[..n])
    ensures InSomeIngredient(t, ingredients)
    ensures FirstMatch(t, ingredients) == FirstMatch(t, ingredients[..n])
  {
    var k := FirstMatch(t, ingredients[..n]);
    assert ingredients[..n][k] == ingredients[k];
  }

  /** A token only the last ingredient contains is first matched there. */
  lemma FirstMatchLast(t: string, ingredients: seq<string>)
    requires ingredients != []
    requires !InSomeIngredient(t, ingredients[..|ingredients| - 1])
    requires Includes(Lower(ingredients[|ingredients| - 1]), t)
    ensures InSomeIngredient(t, ingredients)
    ensures FirstMatch(t, ingredients) == |ingredients| - 1
  {
  }

  /** The concatenated matches list the tokens by first matching ingredient, then by query position. */
  lemma {:induction false} AllMatchesOrder(tokens: seq<string>, ingredients: seq<string>, t: string, u: string)
    requires NoDups(tokens)
    requires t in AllMatches(tokens, ingredients) && u in AllMatches(tokens, ingredients) && t != u
    ensures t in tokens && u in tokens && InSomeIngredient(t, ingredients) && InSomeIngredient(u, ingredients)
    ensures IndexOf(AllMatches(tokens, ingredients), t) < IndexOf(AllMatches(tokens, ingredients), u)
            <==> MatchedBefore(t, u, tokens, ingredients)
    decreases |ingredients|
  {
    AllMatchesMembers(tokens, ingredients);
    var n := |ingredients| - 1;
    var init := ingredients[..n];
    var a := AllMatches(tokens, init);
    var m := Matching(tokens, Lower(ingredients[n]));
    AllMatchesMembers(tokens, init);
    MatchingMembers(tokens, Lower(ingredients[n]));
    if t in a && u in a {
      AllMatchesOrder(tokens, init, t, u);
      IndexOfPrefix(a, m, t);
      IndexOfPrefix(a, m, u);
      FirstMatchInit(t, ingredients, n);
      FirstMatchInit(u, ingredients, n);
    } else if t in a {
      IndexOfPrefix(a, m, t);
      IndexOfSuffix(a, m, u);
      FirstMatchInit(t, ingredients, n);
      FirstMatchLast(u, ingredients);
    } else if u in a {
      IndexOfPrefix(a, m, u);
      IndexOfSuffix(a, m, t);
      FirstMatchInit(u, ingredients, n);
      FirstMatchLast(t, ingredients);
    } else {
      IndexOfSuffix(a, m, t);
      IndexOfSuffix(a, m, u);
      FirstMatchLast(t, ingredients);
      FirstMatchLast(u, ingredients);
      MatchingOrder(tokens, Lower(ingredients[n]), t, u);
    }
  }

  /**
   * With duplicate-free query tokens, the shared list is ordered by the first
   * ingredient that matched, then by position in the query.
   */
  lemma SharedTokensOrder(tokens: seq<string>, ingredients: seq<string>)
    requires NoDups(tokens)
    ensures forall t :: t in SharedTokens(tokens, ingredients) ==> t in tokens && InSomeIngredient(t, ingredients)
    ensures forall i, j :: 0 <= i < j < |SharedTokens(tokens, ingredients)| ==>
              MatchedBefore(SharedTokens(tokens, ingredients)[i], SharedTokens(tokens, ingredients)[j], tokens, ingredients)
  {
    var shared := SharedTokens(tokens, ingredients);
    SharedTokensSpec(tokens, ingredients);
    forall i, j | 0 <= i < j < |shared|
      ensures MatchedBefore(shared[i], shared[j], tokens, ingredients)
    {
      assert shared[i] in shared && shared[j] in shared;
      AllMatchesOrder(tokens, ingredients, shared[i], shared[j]);
    }
  }

  /** The matches of one ingredient gain at most one token when one more token is tried. */
  lemma MatchingStep(tokens: seq<string>, m: nat, low: string)
    requires m < |tokens|
    ensures Matching(tokens[..m + 1], low) == Matching(tokens[..m], low) + (if Includes(low, tokens[m]) then [tokens[m]] else [])
  {
    assert tokens[..m + 1][..m] == tokens[..m];
  }

  lemma AllMatchesStep(tokens: seq<string>, ingredients: seq<string>, k: nat)
    requires k < |ingredients|
    ensures AllMatches(tokens, ingredients[..k + 1]) == AllMatches(tokens, ingredients[..k]) + Matching(tokens, Lower(ingredients[k]))
  {
    assert ingredients[..k + 1][..k] == ingredients[..k];
  }

  lemma DedupStep<T>(s: seq<T>, x: T)
    ensures Dedup(s + [x]) == AddNew(Dedup(s), x)
  {
    assert (s + [x])[..|s|] == s;
  }

  /**
   * The overlap loop: for each ingredient, lower-cased, and each query token in order,
   * a token the ingredient contains joins the overlap unless it is there already.
   */
  method CollectOverlap(qTokens: seq<string>, ingredients: seq<string>) returns (shared: seq<string>)
    ensures shared == SharedTokens(qTokens, ingredients)
  {
    var overlap: seq<string> := [];
    for k := 0 to |ingredients|
      invariant overlap == Dedup(AllMatches(qTokens, ingredients[..k]))
    {
      var lowIng := Lower(ingredients[k]);
      ghost var before := AllMatches(qTokens, ingredients[..k]);
      assert before + Matching(qTokens[..0], lowIng) == before;
      for m := 0 to |qTokens|
        invariant overlap == Dedup(before + Matching(qTokens[..m], lowIng))
      {
        var t := qTokens[m];
        MatchingStep(qTokens, m, lowIng);
        if Includes(lowIng, t) {
          DedupStep(before + Matching(qTokens[..m], lowIng), t);
          assert before + Matching(qTokens[..m + 1], lowIng) == before + Matching(qTokens[..m], lowIng) + [t];
          if t !in overlap {
            overlap := overlap + [t];
          }
        } else {
          assert Matching(qTokens[..m + 1], lowIng) == Matching(qTokens[..m], lowIng);
        }
      }
      assert qTokens[..|qTokens|] == qTokens;
      AllMatchesStep(qTokens, ingredients, k);
    }
    assert ingredients[..|ingredients|] == ingredients;
    shared := overlap;
  }

  // ---------------------------------------------------------------------------
  // The explanation text
  // ---------------------------------------------------------------------------

  const Fallback: string := "It is " + "semantically close to your ingredient combination."
  const ListSeparator: string := ", "

  /** The first sentence: the cuisine, upper-cased. */
  function CuisineSentence(cuisine: string): string
  {
    "This is a " + Upper(cuisine) + " recipe. "
  }

  /** The second sentence, naming the shared words. */
  function UsesSentence(shared: seq<string>): string
  {
    "It uses your ingredients: " + Join(shared, ListSeparator) + "."
  }

  /** `buildExplanation(query, recipe)`. */
  function ExplanationOf(query: string, recipe: Recipe): string
  {
    var shared := SharedTokens(Tokens(query), recipe.ingredients);
    CuisineSentence(recipe.cuisine) + (if |shared| > 0 then UsesSentence(shared) else Fallback)
  }

  /** The explanation, built step by step as the source does. */
  method BuildExplanation(query: string, recipe: Recipe) returns (reason: string)
    ensures reason == ExplanationOf(query, recipe)
  {
    var qTokens := Tokens(query);
    var shared := CollectOverlap(qTokens, recipe.ingredients);
    reason := "This is a " + Upper(recipe.cuisine) + " recipe. ";
    if |shared| > 0 {
      reason := reason + "It uses your ingredients: " + Join(shared, ListSeparator) + ".";
    } else {
      reason := reason + Fallback;
    }
  }

  lemma SeparatorHasNoTokenChars()
    ensures ListSeparator != [] && NoLetters(ListSeparator)
  {
  }

  /** The explanation always opens with the sentence naming the upper-cased cuisine. */
  lemma ExplanationNamesCuisine(query: string, recipe: Recipe)
    ensures |CuisineSentence(recipe.cuisine)| <= |ExplanationOf(query, recipe)|
    ensures ExplanationOf(query, recipe)[..|CuisineSentence(recipe.cuisine)|] == CuisineSentence(recipe.cuisine)
  {
  }

  lemma UsesIsNotFallback(shared: seq<string>)
    ensures UsesSentence(shared) != Fallback
  {
    assert UsesSentence(shared)[3] == 'u';
    assert Fallback[3] == 'i';
  }

  /**
   * The explanation ends with the generic closeness sentence exactly when no query
   * word occurs in any ingredient name.
   */
  lemma ExplanationFallbackIff(query: string, recipe: Recipe)
    ensures ExplanationOf(query, recipe) == CuisineSentence(recipe.cuisine) + Fallback <==>
            forall t :: t in Tokens(query) ==> !InSomeIngredient(t, recipe.ingredients)
  {
    var tokens := Tokens(query);
    var shared := SharedTokens(tokens, recipe.ingredients);
    SharedTokensSpec(tokens, recipe.ingredients);
    var head := CuisineSentence(recipe.cuisine);
    if |shared| > 0 {
      assert shared[0] in shared;
      UsesIsNotFallback(shared);
      assert ExplanationOf(query, recipe) == head + UsesSentence(shared);
      assert (head + UsesSentence(shared))[|head|..] == UsesSentence(shared);
      assert (head + Fallback)[|head|..] == Fallback;
    }
  }

  /**
   * When some query word occurs in an ingredient name, the explanation lists the
   * shared words, and splitting that list as the tokenizer splits gives them back.
   */
  lemma ExplanationListsShared(query: string, recipe: Recipe)
    requires exists t :: t in Tokens(query) && InSomeIngredient(t, recipe.ingredients)
    ensures ExplanationOf(query, recipe) == CuisineSentence(recipe.cuisine) + UsesSentence(SharedTokens(Tokens(query), recipe.ingredients))
    ensures Pieces(Join(SharedTokens(Tokens(query), recipe.ingredients), ListSeparator)) == SharedTokens(Tokens(query), recipe.ingredients)
  {
    var tokens := Tokens(query);
    var shared := SharedTokens(tokens, recipe.ingredients);
    SharedTokensSpec(tokens, recipe.ingredients);
    TokensSpec(query);
    var t :| t in tokens && InSomeIngredient(t, recipe.ingredients);
    assert t in shared;
    assert AllTokenWords(shared) by {
      forall w | w in shared ensures w in tokens { }
    }
    SeparatorHasNoTokenChars();
    PiecesOfJoin(shared, ListSeparator);
  }
}
