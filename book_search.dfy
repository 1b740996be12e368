/**
 * The in-memory book recommender: the corpus snapshot loaded once per session
 * (only books with a usable description, each with its embedding) and the
 * brute-force top-k similarity search over it.
 */
module BookSearch {
  import opened Documents
  import opened Text
  import Ranking

  /** A book survives loading when `Description` is present, is a `str`, and is not blank. */
  predicate HasUsableDescription(b: Document) {
    HasTextDescription(b) && Strip(b["Description"].s) != ""
  }

  /** The list comprehension that drops incomplete books, keeping the order of the rest. */
  function KeepDescribed(books: seq<Document>): (kept: seq<Document>)
    ensures |kept| <= |books|
    ensures forall k :: 0 <= k < |kept| ==> HasUsableDescription(kept[k])
  {
    if books == [] then []
    else
      var last := books[|books| - 1];
      var init := KeepDescribed(books[..|books| - 1]);
      if HasUsableDescription(last) then init + [last] else init
  }

  /** The positions of the books that pass the filter, in increasing order. */
  ghost function KeptPositions(books: seq<Document>): (idx: seq<nat>)
    ensures forall k :: 0 <= k < |idx| ==> idx[k] < |books|
    ensures forall a, b :: 0 <= a < b < |idx| ==> idx[a] < idx[b]
    ensures forall j :: 0 <= j < |books| ==> (j in idx <==> HasUsableDescription(books[j]))
  {
    if books == [] then []
    else
      var n := |books| - 1;
      var init := KeptPositions(books[..n]);
      assert forall j :: 0 <= j < n ==> books[..n][j] == books[j];
      if HasUsableDescription(books[n]) then init + [n] else init
  }

  /**
   * The filter keeps exactly the usable books, in their original order: the k-th
   * kept book is the book at the k-th usable position.
   */
  lemma {:induction false} KeepDescribedIsSubsequence(books: seq<Document>)
    ensures |KeepDescribed(books)| == |KeptPositions(books)|
    ensures forall k :: 0 <= k < |KeptPositions(books)| ==>
              KeepDescribed(books)[k] == books[KeptPositions(books)[k]]
  {
    if books != [] {
      var n := |books| - 1;
      var init, initIdx := KeepDescribed(books[..n]), KeptPositions(books[..n]);
      KeepDescribedIsSubsequence(books[..n]);
      var kept, idx := KeepDescribed(books), KeptPositions(books);
      assert kept[..|init|] == init && idx[..|initIdx|] == initIdx;
      forall k | 0 <= k < |idx| ensures kept[k] == books[idx[k]] {
        if k < |initIdx| {
          assert kept[k] == init[k] == books[..n][initIdx[k]];
        }
      }
    }
  }

  /** A book is dropped exactly when its description is missing, not a string, or only whitespace. */
  lemma UsableDescriptionIff(b: Document)
    ensures HasUsableDescription(b) <==>
              "Description" in b && b["Description"].Str? && !IsBlank(b["Description"].s)
  {
    if "Description" in b && b["Description"].Str? {
      StripEmptyIffBlank(b["Description"].s);
    }
  }

  /** `Description` is present and holds a `str`. */
  predicate HasTextDescription(b: Document) {
    "Description" in b && b["Description"].Str?
  }

  /** `[b["Description"] for b in books]`: row i is the description of book i. */
  function Descriptions(books: seq<Document>): (texts: seq<string>)
    requires forall k :: 0 <= k < |books| ==> HasTextDescription(books[k])
    ensures |texts| == |books|
    ensures forall k :: 0 <= k < |books| ==> HasTextDescription(books[k]) && books[k]["Description"] == Str(texts[k])
  {
    seq(|books|, k requires 0 <= k < |books| => assert HasTextDescription(books[k]); books[k]["Description"].s)
  }

  /** The session snapshot: the books and one embedding row per book. */
  datatype Corpus = Corpus(books: seq<Document>, embeddings: seq<Embedding>)

  /**
   * Filters the fetched books and encodes their descriptions in one batch;
   * embedding row i is the encoding of book i's description.
   */
  function LoadBooksAndEmbeddings(found: seq<Document>, encode: string -> Embedding): (c: Corpus)
    ensures |c.embeddings| == |c.books| <= |found|
    ensures forall k :: 0 <= k < |c.books| ==>
              HasUsableDescription(c.books[k])
              && c.embeddings[k] == encode(c.books[k]["Description"].s)
    ensures c.books == KeepDescribed(found)
  {
    var books := KeepDescribed(found);
    var texts := Descriptions(books);
    Corpus(books, seq(|texts|, k requires 0 <= k < |texts| => encode(texts[k])))
  }

  /** One similarity per embedding row, against the query vector. */
  function Similarities(embeddings: seq<Embedding>, queryVec: Embedding,
                        similarity: (Embedding, Embedding) -> real): (sims: seq<real>)
    ensures |sims| == |embeddings|
    ensures forall k :: 0 <= k < |embeddings| ==> sims[k] == similarity(embeddings[k], queryVec)
  {
    seq(|embeddings|, k requires 0 <= k < |embeddings| => similarity(embeddings[k], queryVec))
  }

  /** `book.copy()` with `book["score"] = score`. */
  function Scored(book: Document, score: real): (copy: Document)
    ensures copy.Keys == book.Keys + {"score"} && copy["score"] == Float(score)
    ensures forall key :: key in book && key != "score" ==> copy[key] == book[key]
  {
    book["score" := Float(score)]
  }

  /** Every result carries a float `score`, and the scores never increase down the list. */
  ghost predicate ScoresDescending(results: seq<Document>) {
    && (forall k :: 0 <= k < |results| ==> "score" in results[k] && results[k]["score"].Float?)
    && (forall a, b :: 0 <= a < b < |results| ==> results[a]["score"].x >= results[b]["score"].x)
  }

  /** `results[k]` is a scored copy of the book at `top[k]`. */
  ghost predicate ScoredCopiesAt(results: seq<Document>, books: seq<Document>, sims: seq<real>, top: seq<nat>)
    requires Ranking.IndicesBelow(top, |books|) && |sims| == |books|
  {
    |results| == |top| && forall k :: 0 <= k < |top| ==> results[k] == Scored(books[top[k]], sims[top[k]])
  }

  /** The loop that copies each selected book and sets its `score`, in ranking order. */
  method CollectScored(books: seq<Document>, sims: seq<real>, top: seq<nat>) returns (results: seq<Document>)
    requires |sims| == |books| && Ranking.IndicesBelow(top, |books|)
    ensures ScoredCopiesAt(results, books, sims, top)
  {
    results := [];
    for i := 0 to |top|
      invariant |results| == i
      invariant forall k :: 0 <= k < i ==> results[k] == Scored(books[top[k]], sims[top[k]])
    {
      var book := books[top[i]];
      book := book["score" := Float(sims[top[i]])];
      results := results + [book];
    }
  }

  /**
   * What `semantic_search` may answer for similarities `sims`: scored copies of
   * the books at `top`, an admissible top-k ranking of `sims` (ties in any
   * order), in that order, so that the scores never increase down the list.
   */
  ghost predicate IsRankedAnswer(results: seq<Document>, books: seq<Document>, sims: seq<real>, topK: int, top: seq<nat>)
    requires |sims| == |books|
  {
    && Ranking.IsTopRanking(sims, topK, top)
    && ScoredCopiesAt(results, books, sims, top)
    && ScoresDescending(results)
  }

  /** Scored copies taken in the order of an admissible ranking form a ranked answer. */
  lemma ScoredCopiesAreRanked(results: seq<Document>, books: seq<Document>, sims: seq<real>, topK: int, top: seq<nat>)
    requires |sims| == |books|
    requires Ranking.IsTopRanking(sims, topK, top)
    requires ScoredCopiesAt(results, books, sims, top)
    ensures IsRankedAnswer(results, books, sims, topK, top)
  {
    forall k | 0 <= k < |results| ensures "score" in results[k] && results[k]["score"] == Float(sims[top[k]]) {
      assert results[k] == Scored(books[top[k]], sims[top[k]]);
    }
    forall a, b | 0 <= a < b < |results| ensures results[a]["score"].x >= results[b]["score"].x {
      assert sims[top[a]] >= sims[top[b]];
    }
  }

  /** In a ranked answer no book left out scores above the last result. */
  lemma RankedAnswerDominates(results: seq<Document>, books: seq<Document>, sims: seq<real>, topK: int,
                              top: seq<nat>, j: nat)
    requires |sims| == |books| && IsRankedAnswer(results, books, sims, topK, top)
    requires j < |books| && j !in top && results != []
    ensures sims[j] <= results[|results| - 1]["score"].x
  {
    assert results[|results| - 1] == Scored(books[top[|top| - 1]], sims[top[|top| - 1]]);
  }

  /**
   * Lines 77-83 of `semantic_search`: ranks the similarities, keeps the first
   * `top_k` and collects a scored copy of each of those books.
   */
  method TopScored(books: seq<Document>, sims: seq<real>, topK: int)
    returns (results: seq<Document>, ghost ranking: seq<nat>)
    requires |sims| == |books|
    ensures IsRankedAnswer(results, books, sims, topK, ranking)
    ensures topK >= 0 ==> |results| == if topK < |books| then topK else |books|
  {
    var top := Ranking.TopIndices(sims, topK);
    Ranking.TopIndicesSpec(sims, topK);
    results := CollectScored(books, sims, top);
    ranking := top;
    ScoredCopiesAreRanked(results, books, sims, topK, ranking);
  }

  /**
   * `semantic_search(query, top_k)`. An empty corpus answers `[]` without encoding
   * the query. Otherwise the query is encoded once and the answer is the ranked
   * answer for the similarities of every embedding row to it: `min(top_k, n)`
   * scored copies for a non-negative `top_k`, best first.
   */
  method SemanticSearch(corpus: Corpus, query: string, topK: int,
                        encode: string -> Embedding, similarity: (Embedding, Embedding) -> real)
    returns (results: seq<Document>, queryEncoded: bool, ghost ranking: seq<nat>)
    requires |corpus.embeddings| == |corpus.books|
    ensures queryEncoded <==> corpus.books != []
    ensures corpus.books == [] ==> results == []
    ensures IsRankedAnswer(results, corpus.books, Similarities(corpus.embeddings, encode(query), similarity), topK, ranking)
    ensures topK >= 0 ==> |results| == if topK < |corpus.books| then topK else |corpus.books|
  {
    if |corpus.books| == 0 {
      results, queryEncoded, ranking := [], false, [];
      ScoredCopiesAreRanked(results, corpus.books, Similarities(corpus.embeddings, encode(query), similarity), topK, ranking);
    } else {
      queryEncoded := true;
      var queryVec := encode(query);
      var sims := Similarities(corpus.embeddings, queryVec, similarity);
      results, ranking := TopScored(corpus.books, sims, topK);
    }
  }

  /** What the page shows for a query. */
  datatype PageOutcome =
    | Idle                          // empty query: no search ran
    | NoResults                     // the warning that nothing was found
    | Results(books: seq<Document>)

  /**
   * The page's reaction to the text box: an empty query runs no search (and
   * encodes nothing); any other query runs `semantic_search(query, top_k=5)`
   * and shows its answer, which is empty only when the corpus is empty.
   */
  method HandleQuery(corpus: Corpus, query: string,
                     encode: string -> Embedding, similarity: (Embedding, Embedding) -> real)
    returns (outcome: PageOutcome, queryEncoded: bool, ghost ranking: seq<nat>)
    requires |corpus.embeddings| == |corpus.books|
    ensures query == "" <==> outcome == Idle
    ensures query == "" ==> !queryEncoded
    ensures query != "" ==> (outcome == NoResults <==> corpus.books == [])
    ensures query != "" ==> (queryEncoded <==> corpus.books != [])
    ensures outcome.Results? ==>
              && 0 < |outcome.books| == (if |corpus.books| < 5 then |corpus.books| else 5)
              && IsRankedAnswer(outcome.books, corpus.books, Similarities(corpus.embeddings, encode(query), similarity), 5, ranking)
  {
    if query == "" {
      return Idle, false, [];
    }
    var results;
    results, queryEncoded, ranking := SemanticSearch(corpus, query, 5, encode, similarity);
    if results == [] {
      outcome := NoResults;
    } else {
      outcome := Results(results);
    }
  }
}
