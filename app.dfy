/**
 * The page's state and its two entry points into the core: loading the corpus once,
 * and answering a query with the three closest recipes and their explanations.
 */
module App {
  import opened Seqs
  import opened Recipes
  import opened Similarity
  import opened Ranking
  import opened Text
  import opened Explanation

  /** The number of corpus chunks, `chunks/part1.json` to `chunks/part17.json`. */
  const TotalChunks: nat := 17

  /** Every chunk was fetched and parsed. */
  predicate AllFetched(parts: seq<Option<seq<Recipe>>>)
  {
    forall i :: 0 <= i < |parts| ==> parts[i].Some?
  }

  /** The recipes of each fetched chunk. */
  function Contents(parts: seq<Option<seq<Recipe>>>): seq<seq<Recipe>>
    requires AllFetched(parts)
  {
    seq(|parts|, i requires 0 <= i < |parts| => parts[i].value)
  }

  /**
   * The corpus after a load: the current one if it is non-empty, otherwise the chunks
   * in index order if every fetch succeeded, otherwise (the load threw) unchanged.
   */
  function AfterLoad(current: seq<Recipe>, parts: seq<Option<seq<Recipe>>>): seq<Recipe>
  {
    if |current| > 0 then current
    else if AllFetched(parts) then Concat(Contents(parts))
    else current
  }

  /** One recommendation card: the recipe, its score and its explanation. */
  datatype Card = Card(recipe: Recipe, score: real, explanation: string)

  /** How a click on the search button ends. */
  datatype Outcome =
    | Ignored          // the trimmed input is empty
    | ModelNotReady    // the embedding model has not loaded: only an alert
    | EmbeddingFailed  // the embedder threw; the error is reported
    | Shown(cards: seq<Card>)

  /** The cards for the selected entries, each with the explanation `explain` gives its recipe. */
  function CardsFor(explain: Recipe -> string, top: seq<Scored>): (cards: seq<Card>)
    ensures |cards| == |top|
    ensures forall i :: 0 <= i < |top| ==> cards[i] == Card(top[i].recipe, top[i].score, explain(top[i].recipe))
  {
    if top == [] then []
    else
      var last := top[|top| - 1];
      CardsFor(explain, top[..|top| - 1]) + [Card(last.recipe, last.score, explain(last.recipe))]
  }

  /** The explanation attached to each card for the query text txt. */
  function Explainer(txt: string): Recipe -> string
  {
    r => ExplanationOf(txt, r)
  }

  /** The cards `recommend` shows for the query text txt and its vector userVec. */
  function Answer(txt: string, userVec: seq<real>, recipes: seq<Recipe>, sqrt: real -> real): seq<Card>
    requires Comparable(userVec, recipes)
    requires IsSqrt(sqrt)
  {
    CardsFor(Explainer(txt), Take(SortByScore(ScoreAll(userVec, recipes, sqrt)), TopCount))
  }

  class App {
    /** The loaded corpus; empty until a load succeeds. */
    var recipes: seq<Recipe>
    /** Whether the embedding model has loaded. */
    var modelReady: bool

    constructor()
      ensures recipes == [] && !modelReady
    {
      recipes := [];
      modelReady := false;
    }

    /**
     * `loadChunks`: parts[i - 1] is the parsed content of chunk i, or None when its
     * fetch or parse failed, which makes the load throw before `recipes` is assigned.
     * ok is false exactly when the load threw.
     */
    method LoadChunks(parts: seq<Option<seq<Recipe>>>) returns (ok: bool)
      requires |parts| == TotalChunks
      modifies this
      ensures recipes == AfterLoad(old(recipes), parts)
      ensures ok <==> |old(recipes)| > 0 || AllFetched(parts)
      ensures modelReady == old(modelReady)
    {
      if |recipes| > 0 {
        return true;
      }
      var all: seq<Recipe> := [];
      for i := 1 to TotalChunks + 1
        invariant recipes == old(recipes) && modelReady == old(modelReady)
        invariant AllFetched(parts[..i - 1])
        invariant all == Concat(Contents(parts[..i - 1]))
      {
        var chunk := parts[i - 1];
        if chunk.None? {
          assert !parts[i - 1].Some?;
          return false;
        }
        assert Contents(parts[..i]) == Contents(parts[..i - 1]) + [chunk.value];
        ConcatAppend(Contents(parts[..i - 1]), [chunk.value]);
        ConcatSingle(chunk.value);
        all := all + chunk.value;
      }
      assert parts[..TotalChunks] == parts;
      recipes := all;
      ok := true;
    }

    /** The end of `loadModel`: the flag is set once the pipeline was created. */
    method LoadModel(created: bool)
      modifies this
      ensures modelReady == (old(modelReady) || created)
      ensures recipes == old(recipes)
    {
      if created {
        modelReady := true;
      }
    }

    /**
     * `recommend`: input is the text field's value, embedded the embedder's vector for
     * the trimmed text (None when the embedder threw).
     */
    method Recommend(input: string, embedded: Option<seq<real>>, sqrt: real -> real) returns (out: Outcome)
      requires IsSqrt(sqrt)
      requires embedded.Some? ==> Comparable(embedded.value, recipes)
      ensures Trim(input) == [] ==> out == Ignored
      ensures Trim(input) != [] && !modelReady ==> out == ModelNotReady
      ensures Trim(input) != [] && modelReady && embedded.None? ==> out == EmbeddingFailed
      ensures Trim(input) != [] && modelReady && embedded.Some? ==>
                out == Shown(Answer(Trim(input), embedded.value, recipes, sqrt))
    {
      var txt := Trim(input);
      if txt == [] {
        return Ignored;
      }
      if !modelReady {
        return ModelNotReady;
      }
      if embedded.None? {
        return EmbeddingFailed;
      }
      var top := Rank(embedded.value, recipes, sqrt);
      var cards := RenderCards(txt, top);
      out := Shown(cards);
    }
  }

  /** The `top.map(...)` that pairs each selected entry with its explanation. */
  method RenderCards(txt: string, top: seq<Scored>) returns (cards: seq<Card>)
    ensures cards == CardsFor(Explainer(txt), top)
  {
    cards := [];
    for i := 0 to |top|
      invariant cards == CardsFor(Explainer(txt), top[..i])
    {
      var explanation := BuildExplanation(txt, top[i].recipe);
      CardsForStep(Explainer(txt), top, i);
      cards := cards + [Card(top[i].recipe, top[i].score, explanation)];
    }
    assert top[..|top|] == top;
  }

  lemma CardsForStep(explain: Recipe -> string, top: seq<Scored>, i: nat)
    requires i < |top|
    ensures CardsFor(explain, top[..i + 1]) == CardsFor(explain, top[..i]) + [Card(top[i].recipe, top[i].score, explain(top[i].recipe))]
  {
    assert top[..i + 1][..i] == top[..i];
  }

  lemma ConcatSingle<T>(xs: seq<T>)
    ensures Concat([xs]) == xs
  {
    assert [xs][..0] == [];
  }

  // ---------------------------------------------------------------------------
  // Properties of the load
  // ---------------------------------------------------------------------------

  /**
   * A load into an empty corpus with every chunk fetched yields the chunks one after
   * the other: every recipe of chunk k + 1 sits at its offset after chunks 1..k, and
   * nothing else is there.
   */
  lemma LoadedInChunkOrder(parts: seq<Option<seq<Recipe>>>, k: nat, i: nat)
    requires AllFetched(parts) && k < |parts| && i < |parts[k].value|
    ensures |AfterLoad([], parts)| == TotalLength(Contents(parts))
    ensures |Concat(Contents(parts)[..k])| + i < |AfterLoad([], parts)|
    ensures AfterLoad([], parts)[|Concat(Contents(parts)[..k])| + i] == parts[k].value[i]
  {
    ConcatLength(Contents(parts));
    ConcatAt(Contents(parts), k, i);
  }

  /**
   * Loading is memoised: a second load after one that left a non-empty corpus changes
   * nothing, whatever the chunks fetched then.
   */
  lemma LoadIdempotent(current: seq<Recipe>, first: seq<Option<seq<Recipe>>>, second: seq<Option<seq<Recipe>>>)
    requires |AfterLoad(current, first)| > 0
    ensures AfterLoad(AfterLoad(current, first), second) == AfterLoad(current, first)
  {
  }

  /**
   * A load that finds only empty chunks leaves the corpus empty, so the next load
   * fetches again.
   */
  lemma {:induction false} EmptyChunksRefetch(parts: seq<Option<seq<Recipe>>>, again: seq<Option<seq<Recipe>>>)
    requires AllFetched(parts) && forall i :: 0 <= i < |parts| ==> parts[i].value == []
    requires AllFetched(again)
    ensures AfterLoad([], parts) == []
    ensures AfterLoad(AfterLoad([], parts), again) == Concat(Contents(again))
  {
    ConcatLength(Contents(parts));
    TotalLengthZero(Contents(parts));
  }

  lemma {:induction false} TotalLengthZero(xs: seq<seq<Recipe>>)
    requires forall i :: 0 <= i < |xs| ==> xs[i] == []
    ensures TotalLength(xs) == 0
  {
    if xs != [] {
      TotalLengthZero(xs[..|xs| - 1]);
    }
  }

  // ---------------------------------------------------------------------------
  // Properties of a shown answer
  // ---------------------------------------------------------------------------

  /** Every entry of the ranked prefix is the scored entry of some corpus recipe. */
  lemma TopFromCorpus(userVec: seq<real>, recipes: seq<Recipe>, sqrt: real -> real, i: nat)
    requires Comparable(userVec, recipes)
    requires IsSqrt(sqrt)
    requires i < |Take(SortByScore(ScoreAll(userVec, recipes, sqrt)), TopCount)|
    ensures exists k :: 0 <= k < |recipes| && Take(SortByScore(ScoreAll(userVec, recipes, sqrt)), TopCount)[i] == ScoreAll(userVec, recipes, sqrt)[k]
  {
    var s := ScoreAll(userVec, recipes, sqrt);
    var top := Take(SortByScore(s), TopCount);
    SortPermutes(s);
    assert top[i] == SortByScore(s)[i];
    assert top[i] in multiset(SortByScore(s));
    assert top[i] in s;
  }

  /** Card i of an answer shows a corpus recipe, its score in [-1, 1] and its explanation. */
  lemma CardFromCorpus(txt: string, userVec: seq<real>, recipes: seq<Recipe>, sqrt: real -> real, i: nat)
    requires Comparable(userVec, recipes)
    requires IsSqrt(sqrt)
    requires i < |Answer(txt, userVec, recipes, sqrt)|
    ensures exists k :: 0 <= k < |recipes| &&
              var card := Answer(txt, userVec, recipes, sqrt)[i];
              && card.recipe == recipes[k]
              && card.score == CosineOf(userVec, recipes[k].embedding, sqrt)
              && -1.0 <= card.score <= 1.0
              && card.explanation == ExplanationOf(txt, recipes[k])
  {
    var s := ScoreAll(userVec, recipes, sqrt);
    var top := Take(SortByScore(s), TopCount);
    var card := Answer(txt, userVec, recipes, sqrt)[i];
    TopFromCorpus(userVec, recipes, sqrt, i);
    var k :| 0 <= k < |recipes| && top[i] == s[k];
    CosineBounded(userVec, recipes[k].embedding, sqrt);
    assert card == Card(top[i].recipe, top[i].score, Explainer(txt)(top[i].recipe));
  }

  /**
   * The cards shown for a query: min(3, corpus size) of them, each a corpus recipe with
   * its cosine score against the query vector and the explanation for the query text,
   * in non-increasing score order.
   */
  lemma ShownCards(txt: string, userVec: seq<real>, recipes: seq<Recipe>, sqrt: real -> real)
    requires Comparable(userVec, recipes)
    requires IsSqrt(sqrt)
    ensures |Answer(txt, userVec, recipes, sqrt)| == if |recipes| < TopCount then |recipes| else TopCount
    ensures forall i :: 0 <= i < |Answer(txt, userVec, recipes, sqrt)| ==>
              exists k :: 0 <= k < |recipes| &&
                var card := Answer(txt, userVec, recipes, sqrt)[i];
                && card.recipe == recipes[k]
                && card.score == CosineOf(userVec, recipes[k].embedding, sqrt)
                && -1.0 <= card.score <= 1.0
                && card.explanation == ExplanationOf(txt, recipes[k])
    ensures forall i, j :: 0 <= i < j < |Answer(txt, userVec, recipes, sqrt)| ==>
              Answer(txt, userVec, recipes, sqrt)[i].score >= Answer(txt, userVec, recipes, sqrt)[j].score
  {
    var s := ScoreAll(userVec, recipes, sqrt);
    TopSelectsBest(s);
    forall i | 0 <= i < |Answer(txt, userVec, recipes, sqrt)|
      ensures exists k :: 0 <= k < |recipes| &&
                var card := Answer(txt, userVec, recipes, sqrt)[i];
                && card.recipe == recipes[k]
                && card.score == CosineOf(userVec, recipes[k].embedding, sqrt)
                && -1.0 <= card.score <= 1.0
                && card.explanation == ExplanationOf(txt, recipes[k])
    {
      CardFromCorpus(txt, userVec, recipes, sqrt, i);
    }
  }
}
