# Recipe retrieval core, modelled in Dafny

The application answers a free-text ingredient query with the three corpus recipes
whose embeddings are closest to the query's embedding. It also gives a short lexical
reason for each one. This project models the deterministic part of `app.js`:

- **Corpus load** (`loadChunks`). The load is memoised: it does nothing once `recipes` is non-empty. Otherwise it concatenates the 17 chunk files in index order and assigns the result once.
- **Cosine similarity** (`cosine`). One accumulation loop computes `dot`, `na` and `nb`. A zero-norm guard returns 0.
- **Ranking** (inside `recommend`). Each recipe gets a score, in corpus order. The list is sorted in place, stably, by descending score, and the first three entries are kept.
- **Explanations** (`buildExplanation`). The query is tokenised and its words are matched against the lower-cased ingredient names. One of two sentence templates is emitted.
- **Guards of `recommend`**. A trimmed empty input is ignored. Otherwise, a model that is not ready stops the query with an alert. Only after both checks does the query go on to embedding and ranking.

Modules, one file each:

| file | module | contents |
|---|---|---|
| `seqs.dfy` | `Seqs` | concatenation of a list of lists; insertion-ordered sets (`new Set`, `Set.add`) |
| `recipes.dfy` | `Recipes` | the `Recipe` record and `Option` |
| `similarity.dfy` | `Similarity` | the `Cosine` loop, its specification `CosineOf`, and its properties |
| `ranking.dfy` | `Ranking` | scoring, the stable descending sort (specification and in-place array sort), `slice(0, 3)` |
| `text.dfy` | `Text` | `trim`, `toLowerCase`/`toUpperCase`, the split on `/[^a-zа-яё]+/`, `includes`, `join` |
| `explanation.dfy` | `Explanation` | query tokens, the overlap loop, the explanation text |
| `app.dfy` | `App` | the page state (`recipes`, `modelReady`) as a class; `LoadChunks`, `LoadModel`, `Recommend` |
| `scenarios.dfy` | `Scenarios` | a worked ranking and two worked explanations |

Representation choices:

- `Math.sqrt` is a parameter `sqrt: real -> real`. All that is known about it is `IsSqrt`: it returns a non-negative square root of every non-negative real.
- Scores are reals.
- The engine's stable `Array.prototype.sort` is modelled by an in-place insertion sort (`Ranking.SortInPlace`). Its specification is `SortByScore`. `SortIsUniqueStableOrder` proves that every stable descending sort produces that same list, so the result does not depend on the algorithm.
- The result of each chunk's `fetch(...).then(r => r.json())` is an input. `None` stands for a fetch or parse that threw.
- The embedder's output for the trimmed text is an input too, where `None` means the embedder threw.

Behaviour of the code that the model keeps:

- Chunks are fetched one after the other, and the first failure aborts the whole load. The corpus then stays as it was. Failed chunks are not skipped.
- A load that yields no recipes leaves `recipes` empty, so the next load fetches everything again (`EmptyChunksRefetch`). This is not an error.
- `recommend` does not check that the corpus has been loaded. With an empty corpus it shows no cards.
- The list of shared words has an order: first by the first ingredient that matched, then by the order of the query tokens. The query tokens in turn follow the first occurrence of each word in the lower-cased query. It is not an unordered set.

## Model

| member | source | states |
|---|---|---|
| `App.App.constructor` | app.js:5-7 | the page starts with an empty corpus and the model not ready |
| `App.App.LoadChunks` | app.js:16-30 | a non-empty corpus is left unchanged; otherwise, if all 17 chunks were fetched, the corpus becomes chunk 1 ++ … ++ chunk 17, and if one failed it stays empty; the result reports failure exactly when a fetch failed on an empty corpus; `modelReady` is untouched |
| `App.LoadedInChunkOrder` | app.js:19-27 | after a full load into an empty corpus, its length is the total of the chunk lengths and recipe i of chunk k sits right after all recipes of chunks 1..k-1 |
| `App.LoadIdempotent` | app.js:17 | once a load has left a non-empty corpus, every later load leaves it unchanged, whatever it would fetch |
| `App.EmptyChunksRefetch` | app.js:17-27 | a load that finds only empty chunks leaves the corpus empty, and the next load installs the chunks it then fetches |
| `App.App.LoadModel` | app.js:43 | `modelReady` becomes true once the pipeline is created and never goes back to false; the corpus is untouched |
| `App.App.Recommend` | app.js:101-129 | a trimmed empty input is ignored whether or not the model is ready; a non-empty input with the model not ready only raises the alert; an embedder failure is reported; otherwise the cards are the first three entries of the stably sorted scores, each with the explanation for the trimmed text |
| `App.RenderCards` | app.js:132-134 | one card per selected entry, in order, with the entry's recipe, score and explanation |
| `App.ShownCards` | app.js:122-134 | the shown cards number min(3, corpus size); each is a corpus recipe with its cosine score (within [-1, 1]) and its explanation; their scores do not increase |
| `Similarity.Cosine` | app.js:54-66 | the loop computes exactly `CosineOf`: the dot product over the query's length divided by the product of the norms, or 0 when either sum of squares is 0 |
| `Similarity.SumSqZeroIff` | app.js:55-63 | the accumulated sum of squares is 0 exactly when every component it covers is 0 |
| `Similarity.CosineZeroGuard` | app.js:64-65 | a vector that is zero on the compared positions gives score 0 (never a division); otherwise the score is the dot product over a strictly positive product of norms |
| `Similarity.CosineSymmetric` | app.js:54-65 | for vectors of equal length, swapping the arguments does not change the score |
| `Similarity.CosineSelf` | app.js:54-65 | a non-zero vector scores exactly 1 against itself |
| `Similarity.CauchySchwarz` | app.js:57-63 | the squared dot accumulator never exceeds the product of the two sums of squares |
| `Similarity.CosineBounded` | app.js:54-65 | every score lies in [-1, 1] |
| `Ranking.Rank` | app.js:122-129 | scoring every recipe, sorting in place and slicing yields the first three entries of the stable descending order of the scores list |
| `Ranking.ScoreAllEntries` | app.js:122-125 | the scores list has one entry per recipe, in corpus order, pairing recipe i with its score, and every score lies in [-1, 1] |
| `Ranking.InsertInPlace` | app.js:128 | one round of the in-place sort moves the new entry left past exactly the entries of strictly smaller score and leaves the rest of the array untouched |
| `Ranking.SortInPlace` | app.js:128 | the sort leaves the array holding the stable descending order of its old contents |
| `Ranking.SortPermutes` | app.js:128 | the sorted list is a permutation of the scores list |
| `Ranking.SortNonIncreasing` | app.js:128 | scores never increase along the sorted list |
| `Ranking.SortStable` | app.js:128 | for every score value, the entries with that score keep their corpus order |
| `Ranking.SortIsUniqueStableOrder` | app.js:128 | any non-increasing list that keeps the corpus order within every score equals the modelled sort's result |
| `Ranking.TopSelectsBest` | app.js:129 | `slice(0, 3)` keeps min(3, n) entries, a prefix of the sorted list, in descending order; no left-out entry scores higher than a kept one; kept and left-out entries together are the whole list |
| `Text.TrimIsSlice` | app.js:102 | the trimmed text is a slice of the input with only white space before and after it, and it neither starts nor ends with white space |
| `Text.TrimEmptyIff` | app.js:102-103 | the trimmed input is empty exactly when the input consists of white space only |
| `Text.TrimIdempotent` | app.js:102 | trimming the trimmed text changes nothing |
| `Text.CaseMapping` | app.js:73 | on Latin and Cyrillic letters lower- and upper-casing end in the matching case and undo each other; other characters are unchanged; a lower-cased character is a token letter exactly when it was a Latin letter, а-я/А-Я, ё or Ё |
| `Text.RunLength` | app.js:73 | the length of the leading run of token letters: all of them are letters and the next character is not |
| `Text.PiecesAreMaximalRuns` | app.js:73 | the split yields exactly the maximal runs of characters of `[a-zа-яё]` |
| `Text.PiecesInOrder` | app.js:73 | the split has one entry per maximal run of `[a-zа-яё]` characters: entry k is the run that starts at the k-th of a strictly increasing list of start positions, and every maximal run starts at one of them |
| `Text.PiecesByFirstRun` | app.js:73 | of two pieces, the one whose first occurrence as a maximal run starts earlier comes first in the split |
| `Text.PiecesKeepTokenChars` | app.js:73 | the pieces, read one after the other, are all the token letters of the text, in order |
| `Text.IncludesSpec` | app.js:80 | `includes` holds exactly when the word occurs at some position of the ingredient name |
| `Text.PiecesOfJoin` | app.js:90 | joining words of token letters with a separator free of them can be split back into the same words |
| `Seqs.DedupSpec` | app.js:72-74 | a `Set` built from a list holds each of its elements once, ordered by first occurrence |
| `Seqs.DedupOrder` | app.js:72-74 | two elements of a list keep, in the `Set` built from it, the order of their first occurrences |
| `Explanation.LongMembers` | app.js:73 | the length filter keeps exactly the words longer than one character |
| `Explanation.TokensSpec` | app.js:72-74 | the query tokens are the maximal letter runs of the lower-cased query with at least two letters, each once, and each has a first occurrence as such a run |
| `Explanation.LongOrder` | app.js:73 | the length filter keeps the relative order of the words it keeps |
| `Explanation.TokensInQueryOrder` | app.js:72-74 | one query token precedes another exactly when its first occurrence as a maximal run in the lower-cased query starts earlier |
| `Explanation.CollectOverlap` | app.js:76-86 | the nested loops build exactly the overlap set, in insertion order |
| `Explanation.SharedTokensSpec` | app.js:76-86 | a token is shared exactly when it is a query token contained in some lower-cased ingredient name, and no token is listed twice |
| `Explanation.SharedTokensOrder` | app.js:76-86 | shared tokens are ordered by the first ingredient that contains them, then by their order among the query tokens (which `Explanation.TokensInQueryOrder` ties to the query text) |
| `Explanation.BuildExplanation` | app.js:71-96 | the text built step by step is the cuisine sentence followed by either the list of shared words or the generic sentence |
| `Explanation.ExplanationNamesCuisine` | app.js:87 | every explanation starts with "This is a " + the upper-cased cuisine + " recipe. " |
| `Explanation.ExplanationFallbackIff` | app.js:89-93 | the explanation ends with "It is semantically close to your ingredient combination." exactly when no query token occurs in any ingredient name |
| `Explanation.ExplanationListsShared` | app.js:89-90 | when some token is shared, the explanation ends with "It uses your ingredients: " + the shared words joined by ", " + ".", and splitting that list gives the shared words back |
| `Scenarios.ScenarioRanking` | app.js:122-129 | with two orthogonal recipe embeddings and query vector [0.9, 0.1], recipe 1 ranks before recipe 2, with squared scores 81/82 and 1/82 |
| `Scenarios.TwoWordTokens` | app.js:72-74 | a query of two distinct words separated by a space yields both words as tokens, in order |
| `Scenarios.TomatoExplanation` | app.js:87-90 | "tomato garlic" against an italian recipe of tomato and basil shares only "tomato" and names the cuisine ITALIAN |
| `Scenarios.SaffronExplanation` | app.js:89-93 | "saffron" against the same recipe gives the generic closeness sentence |

## Left out

- Network and JSON parsing in `loadChunks` (app.js:23): each chunk's parsed content is an input, and `None` marks a fetch or parse that threw.
- Progress and console messages (app.js:21, 28-29, 44, 46-47): display only.
- The body of `loadModel` (app.js:35-49): creating the transformers.js pipeline is foreign code. Only its effect on `modelReady` is modelled, in `App.App.LoadModel`.
- The embedder call (app.js:115-119): mean pooling and normalisation happen inside the library. Its output vector is an input of `App.App.Recommend`.
- DOM work: the card markup, `toFixed(4)`, the joined ingredient list on the card, `alert`, `loading.textContent` and `resultsDiv.innerHTML` (app.js:9-11, 106, 110-111, 136-147). These are display only. `App.Outcome` records which way the click ended.
- The `catch` of `recommend` (app.js:148-151) is modelled only for the embedder failing. Nothing else in the modelled path can throw over the reals.
- `init` and the button wiring (app.js:156-176): promise sequencing with no state beyond what `LoadChunks` and `LoadModel` capture.
- IEEE-754 arithmetic: rounding, infinities and NaN are not modelled. Scores are reals, and `Math.sqrt` is the abstract parameter `sqrt`, constrained only by `IsSqrt`.
- Similarity.Cosine: requires the second vector to be at least as long as the first. With a shorter second vector the source reads `undefined` and produces NaN, unless the query vector is zero over its length, in which case `na === 0` returns 0 first (app.js:64). Reals cannot express NaN.
- Ranking.Rank: requires every embedding to be at least as long as the query vector (`Comparable`), for the same reason. A NaN score would also break the comparator.
- App.App.Recommend: requires the embedder's vector to be `Comparable` with the corpus, for the same reason.
- Full Unicode case mapping: `LowerChar`/`UpperChar` map only A-Z, А-Я and Ѐ-Џ (U+0400..U+045F). Other scripts and the special cases (`ß` upper-casing to `SS`, dotted `İ`, the Kelvin sign) are left unchanged.
- The regular-expression engine: the split is modelled by the character-class predicate `IsTokenChar`. The empty strings that `split` returns at the ends are not represented, since the length filter drops them anyway.
- The engine's sort algorithm: modelled by insertion sort, which `Ranking.SortIsUniqueStableOrder` justifies for any stable sort.
- Ranking.SortByScore: orders by `>=` on scores, the meaning of the comparator `b.score - a.score` on finite reals. Subtraction overflow and NaN comparisons are not modelled.
