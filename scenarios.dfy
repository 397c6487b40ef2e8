/**
 * Worked scenarios: a two-recipe corpus ranked against a query vector, and the
 * explanations produced for two query texts.
 */
module Scenarios {
  import opened Seqs
  import opened Text
  import opened Recipes
  import opened Similarity
  import opened Ranking
  import opened Explanation

  // ---------------------------------------------------------------------------
  // Ranking
  // ---------------------------------------------------------------------------

  /** Two recipes with orthogonal embeddings. */
  function ScenarioCorpus(): seq<Recipe>
  {
    [ Recipe(1, "italian", ["tomato", "basil"], [1.0, 0.0]),
      Recipe(2, "french", ["butter", "cream"], [0.0, 1.0]) ]
  }

  lemma SquareBelow(r: real)
    requires 0.0 <= r < 1.0
    ensures r * r <= r
  {
  }

  /** The only non-negative square root of 1 is 1. */
  lemma SqrtOne(sqrt: real -> real)
    requires IsSqrt(sqrt)
    ensures sqrt(1.0) == 1.0
  {
    var r := sqrt(1.0);
    assert r >= 0.0 && r * r == 1.0;
    if r < 1.0 {
      SquareBelow(r);
    }
  }

  /** The two scores: 0.9 and 0.1 over the norm of the query vector. */
  lemma ScenarioScores(sqrt: real -> real)
    requires IsSqrt(sqrt)
    ensures 0.0 < sqrt(0.82)
    ensures CosineOf([0.9, 0.1], [1.0, 0.0], sqrt) == 0.9 / sqrt(0.82)
    ensures CosineOf([0.9, 0.1], [0.0, 1.0], sqrt) == 0.1 / sqrt(0.82)
  {
    var q, e1, e2 := [0.9, 0.1], [1.0, 0.0], [0.0, 1.0];
    SqrtOne(sqrt);
    assert SumSq(q, 2) == 0.82;
    assert SumSq(e1, 2) == 1.0;
    assert SumSq(e2, 2) == 1.0;
    assert Dot(q, e1, 2) == 0.9;
    assert Dot(q, e2, 2) == 0.1;
    CosineQuotient(q, e1, sqrt);
    CosineQuotient(q, e2, sqrt);
  }

  lemma SquaredQuotient(d: real, p: real, n: real)
    requires 0.0 < p && p * p == n
    ensures (d / p) * (d / p) * n == d * d
  {
    var c := d / p;
    assert c * p == d;
    assert c * c * (p * p) == d * d;
  }

  /** Two entries already in descending order stay as they are. */
  lemma SortTwo(x: Scored, y: Scored)
    requires x.score >= y.score
    ensures SortByScore([x, y]) == [x, y]
  {
    assert [x, y][..1] == [x] && [x][..0] == [];
    assert SortByScore([x]) == [x];
  }

  /**
   * The query vector [0.9, 0.1] ranks the italian recipe first and the french one
   * second, with squared scores 81/82 and 1/82 (about 0.994 and 0.110).
   */
  lemma ScenarioRanking(sqrt: real -> real)
    requires IsSqrt(sqrt)
    ensures Comparable([0.9, 0.1], ScenarioCorpus())
    ensures |Take(SortByScore(ScoreAll([0.9, 0.1], ScenarioCorpus(), sqrt)), TopCount)| == 2
    ensures Take(SortByScore(ScoreAll([0.9, 0.1], ScenarioCorpus(), sqrt)), TopCount)[0].recipe.id == 1
    ensures Take(SortByScore(ScoreAll([0.9, 0.1], ScenarioCorpus(), sqrt)), TopCount)[1].recipe.id == 2
    ensures var top := Take(SortByScore(ScoreAll([0.9, 0.1], ScenarioCorpus(), sqrt)), TopCount);
            top[0].score > top[1].score > 0.0 &&
            top[0].score * top[0].score == 81.0 / 82.0 && top[1].score * top[1].score == 1.0 / 82.0
  {
    var corpus := ScenarioCorpus();
    ScenarioScores(sqrt);
    var p := sqrt(0.82);
    var c1, c2 := 0.9 / p, 0.1 / p;
    SquaredQuotient(0.9, p, 0.82);
    SquaredQuotient(0.1, p, 0.82);
    assert c1 > c2 > 0.0;
    var s := ScoreAll([0.9, 0.1], corpus, sqrt);
    assert s == [Scored(corpus[0], c1), Scored(corpus[1], c2)];
    SortTwo(s[0], s[1]);
  }

  // ---------------------------------------------------------------------------
  // Explanations
  // ---------------------------------------------------------------------------

  lemma SaffronTokens()
    ensures Tokens("saffron") == ["saffron"]
  {
    var w := "saffron";
    assert Letters(w, 0, |w|);
    LowerKeepsWord(w);
    WordPieces(w);
    assert Long([w]) == [w];
  }

  /** "saffron" occurs in neither ingredient of the italian recipe: the generic sentence follows. */
  lemma SaffronExplanation()
    ensures ExplanationOf("saffron", Recipe(1, "italian", ["tomato", "basil"], [1.0, 0.0])) ==
            CuisineSentence("italian") + Fallback
  {
    SaffronTokens();
    var ings := ["tomato", "basil"];
    assert !Includes(Lower(ings[0]), "saffron");
    assert !Includes(Lower(ings[1]), "saffron");
    ExplanationFallbackIff("saffron", Recipe(1, "italian", ings, [1.0, 0.0]));
  }

  /** A query of two distinct lower-case words separated by a space yields both, in order. */
  lemma TwoWordTokens(u: string, v: string)
    requires |u| > 1 && |v| > 1 && u != v
    requires Letters(u, 0, |u|) && Letters(v, 0, |v|)
    ensures Tokens(u + " " + v) == [u, v]
  {
    var q := u + " " + v;
    assert forall k :: 0 <= k < |q| ==> IsTokenChar(q[k]) || q[k] == ' ';
    LowerKeepsWord(q);
    assert q == u + (" " + v);
    PiecesAfterWord(u, " " + v);
    PiecesSkip(" ", v);
    WordPieces(v);
    assert Pieces(q) == [u, v];
    TwoWordsKept(u, v);
  }

  /** Two distinct words of two or more letters pass the length filter and the dedup. */
  lemma TwoWordsKept(u: string, v: string)
    requires |u| > 1 && |v| > 1 && u != v
    ensures Dedup(Long([u, v])) == [u, v]
  {
    var p := [u, v];
    assert p[..1] == [u] && [u][..0] == [];
    assert Long([u]) == [u];
    assert Long(p) == p;
    assert Dedup([u]) == [u];
  }

  lemma TomatoTokens()
    ensures Tokens("tomato garlic") == ["tomato", "garlic"]
  {
    assert "tomato garlic" == "tomato" + " " + "garlic";
    TwoWordTokens("tomato", "garlic");
  }

  lemma TomatoShared()
    ensures SharedTokens(["tomato", "garlic"], ["tomato", "basil"]) == ["tomato"]
  {
    var tokens := ["tomato", "garlic"];
    var ings := ["tomato", "basil"];
    LowerKeepsWord("tomato");
    LowerKeepsWord("basil");
    assert Includes("tomato", "tomato");
    assert !Includes("tomato", "garlic") by {
      assert "tomato"[..6] != "garlic" by { assert "tomato"[0] != "garlic"[0]; }
    }
    assert tokens[..1] == ["tomato"] && ["tomato"][..0] == [];
    assert Matching(tokens, "tomato") == ["tomato"];
    assert Matching(tokens, "basil") == [];
    assert ings[..1] == ["tomato"] && ["tomato"][..0] == [];
    assert AllMatches(tokens, ings) == ["tomato"];
    assert Dedup(["tomato"]) == ["tomato"];
  }

  /**
   * "tomato garlic" against the italian recipe: "tomato" is shared, "garlic" is not,
   * so the explanation reads "This is a ITALIAN recipe. It uses your ingredients: tomato."
   */
  lemma TomatoExplanation()
    ensures ExplanationOf("tomato garlic", Recipe(1, "italian", ["tomato", "basil"], [1.0, 0.0])) ==
            CuisineSentence("italian") + UsesSentence(["tomato"])
    ensures Upper("italian") == "ITALIAN"
    ensures Join(["tomato"], ListSeparator) == "tomato"
  {
    TomatoTokens();
    TomatoShared();
    ItalianUpper();
  }

  lemma ItalianUpper()
    ensures Upper("italian") == "ITALIAN"
  {
    var u := Upper("italian");
    assert |u| == 7;
    assert u[0] == 'I' && u[1] == 'T' && u[2] == 'A' && u[3] == 'L';
    assert u[4] == 'I' && u[5] == 'A' && u[6] == 'N';
  }
}
