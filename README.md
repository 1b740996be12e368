# Manga and book recommender: a Dafny model

The repository holds three scripts over MongoDB. The recommender page reads
the collection `livre_database.livres`. The indexing script and the
question-answering page share another one, `Livres_indexes_database.indexed_manga`,
so the recommender never reads what the indexer writes.

- `livre_app.py`, a recommender page. It loads every book once, keeps the
  ones whose `Description` is a non-blank string, encodes each description,
  and answers a question with the `top_k` books whose embeddings are most
  similar to the question's. Each answer is a copy of the book with a `score`
  field added.
- `rag_manga.py`, a question-answering page. It sends the question's
  embedding to the database's vector index through a two-stage aggregation
  pipeline. It writes the retrieved documents into a text context, one block
  per document, and asks a chat model to answer from that context alone.
- `generate_embeddings.py`, a one-off script. It stores
  `embedding = encode(Description)` on every document whose `Description`
  exists and is not `""`.

The model treats documents as values (`Documents.Document`, a map from field
name to `Documents.Value`). The parts that work by stepping are methods with
loop invariants, each proved against a specification function:

- the result loop of `semantic_search`;
- the `+=` loop that builds the context;
- the update loop of the indexer, which changes a `Collection` object in place.

The services the scripts call are function parameters:

- the sentence encoder (`encode`);
- cosine similarity (`similarity`);
- the vector index (`index`);
- the chat model (`complete`);
- Python's `str()` of a non-text value (`format`).

Modules, one per concern:

| file | module | models |
|---|---|---|
| `wrappers.dfy` | `Wrappers` | `Option` (`dict.get` returning `None`) and `Result` (a raised exception) |
| `documents.dfy` | `Documents` | stored documents and `dict.get` |
| `text.dfy` | `Text` | `str.isspace` and `str.strip` |
| `ranking.dfy` | `Ranking` | `np.argsort(sims)[::-1][:top_k]` |
| `book_search.dfy` | `BookSearch` | `livre_app.py`: loading, `semantic_search`, the query gate |
| `rag_prompt.dfy` | `RagPrompt` | the context blocks and the user message of `rag_manga.py`, and parsers that read them back |
| `rag_assistant.dfy` | `RagAssistant` | the pipeline, the chat request and the question flow of `rag_manga.py` |
| `embedding_indexer.dfy` | `EmbeddingIndexer` | `generate_embeddings.py` |

## Model

| member | source | states |
|---|---|---|
| Text.StripEmptyIffBlank | livre_app.py:45 | `s.strip()` is empty exactly when every character of `s` is Python whitespace |
| BookSearch.KeepDescribed | livre_app.py:43-46 | the filter never adds books, and every book it keeps has a present, textual, non-blank `Description` |
| BookSearch.KeepDescribedIsSubsequence | livre_app.py:43-46 | the kept books are exactly the books at the usable positions, in their original order |
| BookSearch.UsableDescriptionIff | livre_app.py:45 | a book is kept if and only if `Description` is present, is a string, and is not all whitespace |
| BookSearch.Descriptions | livre_app.py:49 | one text per book, and text `i` is book `i`'s `Description` |
| BookSearch.LoadBooksAndEmbeddings | livre_app.py:43-52 | the corpus is the filtered list; there is one embedding row per kept book, and row `i` encodes book `i`'s description |
| BookSearch.Similarities | livre_app.py:72-74 | one similarity per embedding row, each measured against the query vector |
| BookSearch.Scored | livre_app.py:81-82 | the copy has the book's fields unchanged, plus `score` holding the similarity |
| BookSearch.CollectScored | livre_app.py:79-83 | result `k` is the scored copy of the book at the `k`-th selected index |
| Ranking.ArgSortDescendingSpec | livre_app.py:77 | the ranking is a permutation of all indices, with scores non-increasing |
| Ranking.Prefix | livre_app.py:77 | `s[:stop]` follows Python slicing, including a negative `stop`, and is a prefix of `s` |
| Ranking.TopIndicesSpec | livre_app.py:77 | the computed ranking is admissible (`IsTopRanking`): as many indices as the slice keeps, `min(top_k, n)` for `top_k >= 0`; distinct; non-increasing scores; no index left out scores above the last one selected |
| Ranking.EqualScoresEitherOrder | livre_app.py:77 | two equal scores are admissible in either order: no tie-break is promised |
| BookSearch.ScoredCopiesAreRanked | livre_app.py:77-83 | scored copies taken in the order of any admissible ranking form a ranked answer, with non-increasing scores |
| BookSearch.RankedAnswerDominates | livre_app.py:77-83 | in a ranked answer, no book left out scores above the last result |
| BookSearch.TopScored | livre_app.py:77-83 | ranking, slicing and the copy loop give a ranked answer over an admissible ranking, `min(top_k, n)` long when `top_k >= 0` |
| BookSearch.SemanticSearch | livre_app.py:60-84 | an empty corpus gives `[]` and the query is not encoded; otherwise the query is encoded and the result is a ranked answer for every row's similarity, in any order among ties, `min(top_k, n)` copies long when `top_k >= 0` |
| BookSearch.HandleQuery | livre_app.py:100-109 | the page is idle exactly when the query is empty, and then nothing is encoded; any other query runs the top-5 search; "no results" is shown exactly when the corpus is empty; otherwise the page shows a ranked top-5 answer for that query's similarities, `min(5, n)` books long |
| RagPrompt.Render | rag_manga.py:99-102 | a missing or null field renders as `None`; a text field renders as itself |
| RagPrompt.BuildContext | rag_manga.py:96-104 | the `+=` loop yields the context, one block per document in input order |
| RagPrompt.ContextAppend | rag_manga.py:96-104 | the context of a concatenation is the concatenation of the contexts, so input order is kept and `[]` gives `""` |
| RagPrompt.ParseBlock | rag_manga.py:98-104 | a parsed block is exactly `Titre:`, `Auteur:`, `Catégorie:` and `Résumé:` lines followed by `---` |
| RagPrompt.ParseContext | rag_manga.py:96-104 | whatever parses is the concatenation of the parsed blocks |
| RagPrompt.ParseContextOfDocs | rag_manga.py:96-104 | when the rendered fields are single lines, the context reads back as exactly each document's four rendered fields, in order |
| RagPrompt.ParseUserMessage | rag_manga.py:112-118 | a parsed message is exactly the template, with the context under `Contexte :` and the question under `Question utilisateur :` |
| RagPrompt.ParseUserMessageOf | rag_manga.py:112-118 | for a one-line question, the context and the question read back from the message unchanged |
| RagAssistant.SearchPipeline | rag_manga.py:60-82 | `$vectorSearch` uses index `vector_index`, path `embedding`, the query vector, 200 candidates and the given limit; `$project` excludes `_id`, includes the six display fields and takes `score` from the search metadata |
| RagAssistant.ProjectedShape | rag_manga.py:71-80 | a returned document holds exactly the display fields the stored one had, with their values unchanged, plus `score`; it never holds `_id` or `embedding` |
| RagAssistant.Aggregate | rag_manga.py:84 | a server error becomes a failure; otherwise there is one projected document per hit, in hit order |
| RagAssistant.VectorSearch | rag_manga.py:54-85 | the search encodes the query and fails exactly when the index fails; on success there is one document per hit, in hit order; each has no `_id`, carries its hit's score, and holds exactly the display fields its stored document had, unchanged |
| RagAssistant.RagRequest | rag_manga.py:106-128 | the request uses model `llama-3.1-8b-instant` and temperature 0.4, with two messages: the grounding system prompt first, then the user message built from the context and the question |
| RagAssistant.RequestCarriesQuestionAndSources | rag_manga.py:96-128 | for a one-line question and single-line rendered fields, the user message of the request yields back the question and every retrieved document's four fields, in retrieval order |
| RagAssistant.GenerateRagResponse | rag_manga.py:92-130 | the request is built from the context of the documents, and the answer is the model's text unmodified |
| RagAssistant.Ask | rag_manga.py:143-160 | an empty query makes no call; otherwise the search runs first; a search error is reported apart from an empty result; the model is called exactly once, only when documents were found, with the request built from those documents; a failed search carries the server's error; both stopping paths make only the one search call |
| EmbeddingIndexer.Collection.Find | generate_embeddings.py:17 | each document whose `Description` exists and is not `""` is returned exactly once, as stored |
| EmbeddingIndexer.Collection.SetEmbedding | generate_embeddings.py:25-28 | only the document with that `_id` gets the new `embedding`; an unknown `_id` changes nothing (no upsert); every document stays under its own `_id` |
| EmbeddingIndexer.IndexEmbeddings | generate_embeddings.py:17-28 | after the loop the store is `Indexed(old store)`, and each document still sits under its own `_id` |
| EmbeddingIndexer.IndexedFrame | generate_embeddings.py:17-28 | no document is added or removed; unselected documents are unchanged; a selected one gains `embedding = encode(Description)` and keeps its other fields |
| EmbeddingIndexer.SelectionUnchanged | generate_embeddings.py:17-27 | indexing does not change which documents the filter selects |
| EmbeddingIndexer.IndexedIdempotent | generate_embeddings.py:21-28 | running the script twice leaves the store as one run does |
| EmbeddingIndexer.PriorEmbeddingOverwritten | generate_embeddings.py:17-27 | whatever `embedding` a selected document held before, the result is the same: it is overwritten |
| EmbeddingIndexer.IndexedKeyedById | generate_embeddings.py:25-28 | updating `embedding` keeps every document under its own `_id` |
| EmbeddingIndexer.SelectionWiderThanStripFilter | generate_embeddings.py:17 | on one document, the `$ne: ""` filter is strictly wider than the strip test at `livre_app.py:45`: whatever passes the strip test is selected, and a whitespace-only description is selected but fails the strip test |

## Left out

- The Streamlit pages are not modelled: widgets, spinners, banners, the display of results and sources, and `st.stop`. The gates that decide what runs are modelled; each page's reaction is a returned outcome.
- MongoDB connections, caching (`st.cache_resource`, `st.cache_data`), `.env` loading and `print` are I/O plumbing and are left out.
- `livre_app.py`'s `find({}, {"_id": 0})` is not modelled. The fetched documents are the `found` parameter of `BookSearch.LoadBooksAndEmbeddings`.
- The approximate nearest-neighbour search of the vector index is the `index` parameter. The model does not constrain how many hits it returns or in what order.
- The sentence encoder is a deterministic parameter. The batch encoding of `livre_app.py:50` is modelled one row at a time.
- EmbeddingIndexer.IndexEmbeddings: the encoder accepts any stored value. A `Description` that is not text (a number, a null) passes the `$ne: ""` filter; the real encoder would raise on it and end the script midway. That partial run is not modelled.
- Cosine similarity with NumPy norms and the `1e-10` guard (`livre_app.py:72-74`) is the `similarity` parameter. Floats are Dafny `real`s, so there is no rounding.
- The order among equal scores is not specified. `np.argsort` does not promise a tie order, and the code reverses its output. `Ranking.TopIndices` computes one order (the higher index first) so that `semantic_search` can run; the contracts only require an admissible ranking (`Ranking.IsTopRanking`), which allows any order among ties.
- Dictionaries are values, so `.copy()` is implicit. The model cannot show aliasing between the cached books and the results, and the cached books are unchanged by construction.
- Python's `str()` of a non-text, non-null value inside an f-string (a number, a vector) is the `format` parameter.
- The Groq client is the `complete` parameter, which maps a request to `response.choices[0].message.content`. Network errors from it are not modelled, since the page does not catch them.
- Stored values are limited to null, booleans, integers, floats, strings, vectors and object ids. MongoDB arrays and sub-documents, and how `$ne` treats them, are not modelled.
- RagAssistant.RequestCarriesQuestionAndSources: the read-back holds only for a one-line question and single-line rendered fields. A description with a line break (free text, which the indexer accepts) makes the block format ambiguous, so no read-back is promised for it.
