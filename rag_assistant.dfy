/**
 * The manga assistant: a vector search through an aggregation pipeline, then a
 * chat completion whose prompt carries the retrieved documents.  The vector
 * index, the query encoder and the language model are parameters.
 */
module RagAssistant {
  import opened Wrappers
  import opened Documents
  import opened RagPrompt

  // ---------------------------------------------------------------------------
  // The aggregation pipeline.

  /** The `$vectorSearch` stage. */
  datatype SearchStage = SearchStage(index: string, path: string, queryVector: Embedding,
                                     numCandidates: int, limit: int)

  /** A `$project` rule: `0`, `1`, or `{"$meta": "vectorSearchScore"}`. */
  datatype Projection = Exclude | Include | SearchScore

  datatype Pipeline = Pipeline(search: SearchStage, project: map<string, Projection>)

  /** A document the index matched, with the score the search gave it. */
  datatype Hit = Hit(doc: Document, score: real)

  const IndexName := "vector_index"
  const EmbeddingPath := "embedding"
  const NumCandidates := 200
  const DefaultLimit := 5

  /** The fields shown to the user and the model. */
  const DisplayFields: set<string> := {"Title", "Author", "Category", "Description", "Year", "Rating"}

  /** The pipeline `vector_search` sends: the query vector against the `embedding` field, then a projection. */
  function SearchPipeline(queryVector: Embedding, limit: int): (p: Pipeline)
    ensures p.search == SearchStage(IndexName, EmbeddingPath, queryVector, NumCandidates, limit)
    ensures p.project.Keys == DisplayFields + {"_id", "score"}
    ensures p.project["_id"] == Exclude && p.project["score"] == SearchScore
    ensures forall f :: f in DisplayFields ==> p.project[f] == Include
  {
    Pipeline(SearchStage(IndexName, EmbeddingPath, queryVector, NumCandidates, limit),
             map["_id" := Exclude, "Title" := Include, "Author" := Include, "Category" := Include,
                 "Description" := Include, "Year" := Include, "Rating" := Include,
                 "score" := SearchScore])
  }

  /**
   * What an inclusion `$project` makes of one hit: the included fields the
   * document has, the computed score fields, and `_id` unless the rules name it.
   */
  function ProjectHit(rules: map<string, Projection>, hit: Hit): Document {
    (map k | k in hit.doc && k in rules && rules[k] == Include :: hit.doc[k])
    + (map k | k in rules && rules[k] == SearchScore :: Float(hit.score))
    + (if "_id" in hit.doc && "_id" !in rules then map["_id" := hit.doc["_id"]] else map[])
  }

  /**
   * Every document `vector_search` returns holds exactly the display fields the
   * stored document had, unchanged, plus its search score: never its `_id` and
   * never its stored embedding.
   */
  lemma ProjectedShape(queryVector: Embedding, limit: int, hit: Hit)
    ensures var out := ProjectHit(SearchPipeline(queryVector, limit).project, hit);
      && out.Keys == (hit.doc.Keys * DisplayFields) + {"score"}
      && "_id" !in out && EmbeddingPath !in out
      && out["score"] == Float(hit.score)
      && forall f :: f in DisplayFields && f in hit.doc ==> out[f] == hit.doc[f]
  {
    var rules := SearchPipeline(queryVector, limit).project;
    var out := ProjectHit(rules, hit);
    forall k | k in out
      ensures k in (hit.doc.Keys * DisplayFields) + {"score"}
    {
    }
    forall k | k in (hit.doc.Keys * DisplayFields) + {"score"}
      ensures k in out
    {
      if k != "score" {
        assert rules[k] == Include;
      }
    }
  }

  /**
   * `collection.aggregate(pipeline)` for this pipeline shape: the index answers
   * the search stage (or the server raises), and each hit is projected.
   */
  function Aggregate(p: Pipeline, index: SearchStage -> Result<seq<Hit>, string>): (r: Result<seq<Document>, string>)
    ensures index(p.search).Failure? <==> r.Failure?
    ensures r.Failure? ==> r.error == index(p.search).error
    ensures r.Success? ==> |r.value| == |index(p.search).value|
    ensures r.Success? ==> forall k :: 0 <= k < |r.value| ==> r.value[k] == ProjectHit(p.project, index(p.search).value[k])
  {
    match index(p.search)
    case Failure(e) => Failure(e)
    case Success(hits) => Success(seq(|hits|, k requires 0 <= k < |hits| => ProjectHit(p.project, hits[k])))
  }

  /** A returned document: no `_id`, and the search score under `score`. */
  predicate ScoredWithoutId(doc: Document, score: real) {
    "_id" !in doc && "score" in doc && doc["score"] == Float(score)
  }

  /** A returned document holds exactly the stored display fields, unchanged, plus `score`. */
  predicate CarriesDisplayFields(out: Document, stored: Document) {
    && out.Keys == (stored.Keys * DisplayFields) + {"score"}
    && forall f :: f in DisplayFields && f in stored ==> out[f] == stored[f]
  }

  /** `vector_search(user_query, limit)`: encode the question, then run the pipeline. */
  function VectorSearch(query: string, limit: int, encode: string -> Embedding,
                        index: SearchStage -> Result<seq<Hit>, string>): (r: Result<seq<Document>, string>)
    ensures var hits := index(SearchStage(IndexName, EmbeddingPath, encode(query), NumCandidates, limit));
      && (r.Success? <==> hits.Success?)
      && (r.Success? ==> |r.value| == |hits.value|)
      && (r.Success? ==> forall k :: 0 <= k < |r.value| ==> ScoredWithoutId(r.value[k], hits.value[k].score))
      && (r.Success? ==> forall k :: 0 <= k < |r.value| ==> CarriesDisplayFields(r.value[k], hits.value[k].doc))
  {
    var p := SearchPipeline(encode(query), limit);
    var r := Aggregate(p, index);
    if r.Success? then
      assert forall k :: 0 <= k < |r.value| ==>
          ScoredWithoutId(r.value[k], index(p.search).value[k].score)
          && CarriesDisplayFields(r.value[k], index(p.search).value[k].doc) by {
        forall k | 0 <= k < |r.value| {
          ProjectedShape(encode(query), limit, index(p.search).value[k]);
        }
      }
      r
    else
      r
  }

  // ---------------------------------------------------------------------------
  // The chat request.

  datatype Message = Message(role: string, content: string)
  datatype ChatRequest = ChatRequest(model: string, messages: seq<Message>, temperature: real)

  const ChatModel := "llama-3.1-8b-instant"
  const Temperature: real := 0.4
  const SystemPrompt := "Tu es un expert en mangas et webtoons. "
    + "Utilise uniquement les informations du contexte fourni pour r\U{E9}pondre. "
    + "Si la r\U{E9}ponse ne s\U{2019}y trouve pas, dis-le clairement. R\U{E9}ponds en fran\U{E7}ais."

  /** The request `generate_rag_response` sends for a question and a context. */
  function RagRequest(query: string, context: string): (r: ChatRequest)
    ensures r.model == ChatModel && r.temperature == Temperature
    ensures |r.messages| == 2
    ensures r.messages[0] == Message("system", SystemPrompt)
    ensures r.messages[1] == Message("user", UserMessage(context, query))
  {
    ChatRequest(ChatModel, [Message("system", SystemPrompt), Message("user", UserMessage(context, query))],
                Temperature)
  }

  /**
   * For a one-line question and single-line rendered fields, the user message
   * of the request carries the question and, block by block and in retrieval
   * order, the title, author, category and summary of every retrieved
   * document, all of which can be read back from it.
   */
  lemma RequestCarriesQuestionAndSources(query: string, docs: seq<Document>, format: Value -> string)
    requires '\n' !in query
    requires forall k :: 0 <= k < |docs| ==> SingleLine(FieldsOf(docs[k], format))
    ensures var user := RagRequest(query, Context(docs, format)).messages[1].content;
      && ParseUserMessage(user) == Some((Context(docs, format), query))
      && ParseContext(Context(docs, format)) == Some(AllFields(docs, format))
  {
    ParseUserMessageOf(Context(docs, format), query);
    ParseContextOfDocs(docs, format);
  }

  /** `generate_rag_response`: builds the context, sends the request, returns the model's text. */
  method GenerateRagResponse(query: string, docs: seq<Document>, format: Value -> string,
                             complete: ChatRequest -> string)
    returns (answer: string, request: ChatRequest)
    ensures request == RagRequest(query, Context(docs, format))
    ensures answer == complete(request)
  {
    var context := BuildContext(docs, format);
    request := RagRequest(query, context);
    answer := complete(request);
  }

  // ---------------------------------------------------------------------------
  // One question from the page.

  /** The calls the page makes to the services it does not own. */
  datatype Call = Search(stage: SearchStage) | Complete(request: ChatRequest)

  datatype Outcome =
    | Idle                                            // no question typed
    | SearchFailed(error: string)                     // the error banner, then stop
    | NothingFound                                    // the "no document" warning, then stop
    | Answered(answer: string, sources: seq<Document>)

  /** What the page does with `user_query`, and the calls it makes on the way. */
  method Ask(query: string, encode: string -> Embedding, index: SearchStage -> Result<seq<Hit>, string>,
             complete: ChatRequest -> string, format: Value -> string)
    returns (outcome: Outcome, calls: seq<Call>)
    ensures query == "" <==> calls == []
    ensures query == "" ==> outcome == Idle
    ensures query != "" ==> calls[0] == Search(SearchStage(IndexName, EmbeddingPath, encode(query), NumCandidates, DefaultLimit))
    ensures var found := VectorSearch(query, DefaultLimit, encode, index);
      && (outcome.SearchFailed? <==> query != "" && found.Failure?)
      && (outcome.SearchFailed? ==> outcome.error == found.error)
      && (outcome == NothingFound <==> query != "" && found == Success([]))
      && (outcome.Answered? <==> query != "" && found.Success? && found.value != [])
      && (outcome.Answered? ==>
            && outcome.sources == found.value
            && calls == calls[..1] + [Complete(RagRequest(query, Context(found.value, format)))]
            && outcome.answer == complete(RagRequest(query, Context(found.value, format))))
    ensures forall k :: 0 <= k < |calls| && calls[k].Complete? ==> outcome.Answered?
    ensures query != "" && !outcome.Answered? ==> |calls| == 1
  {
    if query == "" {
      return Idle, [];
    }
    var stage := SearchStage(IndexName, EmbeddingPath, encode(query), NumCandidates, DefaultLimit);
    calls := [Search(stage)];
    var found := VectorSearch(query, DefaultLimit, encode, index);
    if found.Failure? {
      return SearchFailed(found.error), calls;
    }
    var docs := found.value;
    if docs == [] {
      return NothingFound, calls;
    }
    var answer, request := GenerateRagResponse(query, docs, format, complete);
    calls := calls + [Complete(request)];
    outcome := Answered(answer, docs);
  }
}
