/**
 * The one-off indexing script: every stored document whose `Description`
 * exists and is not the empty string gets an `embedding` field holding the
 * encoding of that description.  The collection is a map from `_id` to
 * document, changed in place; the encoder is a deterministic parameter.
 */
module EmbeddingIndexer {
  import opened Documents
  import BookSearch
  import Text

  /** The filter `{"Description": {"$exists": True, "$ne": ""}}`. */
  predicate Selected(d: Document) {
    "Description" in d && d["Description"] != Str("")
  }

  /** Every document is stored under its own `_id`. */
  ghost predicate KeyedById(m: map<Value, Document>) {
    forall id :: id in m ==> "_id" in m[id] && m[id]["_id"] == id
  }

  /** The `_id`s of the documents the filter selects. */
  ghost function SelectedIds(m: map<Value, Document>): set<Value> {
    set id | id in m && Selected(m[id])
  }

  /** A document after `$set: {"embedding": encode(Description)}`. */
  function WithEmbedding(d: Document, encode: Value -> Embedding): Document
    requires "Description" in d
  {
    d["embedding" := Vector(encode(d["Description"]))]
  }

  /** The store after the documents in `done` that the filter selects have been updated. */
  ghost function PartlyIndexed(m: map<Value, Document>, done: set<Value>, encode: Value -> Embedding): map<Value, Document> {
    map id | id in m :: if id in done && Selected(m[id]) then WithEmbedding(m[id], encode) else m[id]
  }

  /** The store after the script has run. */
  ghost function Indexed(m: map<Value, Document>, encode: Value -> Embedding): map<Value, Document> {
    PartlyIndexed(m, m.Keys, encode)
  }

  /**
   * The script adds or replaces exactly one field, `embedding`, on exactly the
   * selected documents: no document appears or disappears, an unselected
   * document is untouched, and a selected one keeps all its other fields.
   */
  lemma IndexedFrame(m: map<Value, Document>, encode: Value -> Embedding)
    ensures var r := Indexed(m, encode);
      && r.Keys == m.Keys
      && (forall id :: id in m && !Selected(m[id]) ==> r[id] == m[id])
      && (forall id :: id in m && Selected(m[id]) ==> r[id].Keys == m[id].Keys + {"embedding"})
      && (forall id :: id in m && Selected(m[id]) ==> r[id]["embedding"] == Vector(encode(m[id]["Description"])))
      && (forall id, f :: id in m && f in m[id] && f != "embedding" ==> r[id][f] == m[id][f])
  {
  }

  /** Selection looks only at `Description`, which the update never touches. */
  lemma SelectionUnchanged(m: map<Value, Document>, encode: Value -> Embedding)
    ensures SelectedIds(Indexed(m, encode)) == SelectedIds(m)
  {
    var r := Indexed(m, encode);
    forall id | id in m
      ensures Selected(r[id]) <==> Selected(m[id])
    {
      if Selected(m[id]) {
        assert r[id]["Description"] == m[id]["Description"];
      }
    }
  }

  /** Running the script a second time leaves the store as the first run left it. */
  lemma IndexedIdempotent(m: map<Value, Document>, encode: Value -> Embedding)
    ensures Indexed(Indexed(m, encode), encode) == Indexed(m, encode)
  {
    var r := Indexed(m, encode);
    SelectionUnchanged(m, encode);
    forall id | id in r
      ensures Indexed(r, encode)[id] == r[id]
    {
      if Selected(r[id]) {
        assert r[id]["Description"] == m[id]["Description"];
        assert WithEmbedding(r[id], encode) == r[id];
      }
    }
  }

  /**
   * Whatever a selected document held under `embedding` before (nothing, a
   * stale vector, anything else), the result is the same: the filter does not
   * test for an existing embedding, so it is always overwritten.
   */
  lemma PriorEmbeddingOverwritten(m: map<Value, Document>, id: Value, stale: Value, encode: Value -> Embedding)
    requires id in m && Selected(m[id])
    ensures Indexed(m[id := m[id]["embedding" := stale]], encode) == Indexed(m, encode)
  {
    var m' := m[id := m[id]["embedding" := stale]];
    assert m'[id]["Description"] == m[id]["Description"];
    assert WithEmbedding(m'[id], encode) == WithEmbedding(m[id], encode);
  }

  /** Updating only the `embedding` field keeps every document under its own `_id`. */
  lemma IndexedKeyedById(m: map<Value, Document>, done: set<Value>, encode: Value -> Embedding)
    requires KeyedById(m)
    ensures KeyedById(PartlyIndexed(m, done, encode))
  {
  }

  /**
   * On one document, this script's filter is strictly wider than the
   * recommender page's loading filter: every document that passes the page's
   * strip test is selected here, but a description made only of whitespace is
   * selected here and would fail the page's test.
   */
  lemma SelectionWiderThanStripFilter(d: Document)
    ensures BookSearch.HasUsableDescription(d) ==> Selected(d)
    ensures var blank: Document := map["Description" := Str(" ")];
      Selected(blank) && !BookSearch.HasUsableDescription(blank)
  {
    var blank: Document := map["Description" := Str(" ")];
    BookSearch.UsableDescriptionIff(blank);
    assert Text.IsSpace(blank["Description"].s[0]);
  }

  /** The stored collection. */
  class Collection {
    var docs: map<Value, Document>

    ghost predicate Valid()
      reads this
    {
      KeyedById(docs)
    }

    /** `find(filter)`: every selected document once, in an order the server chooses. */
    method Find() returns (found: seq<Document>)
      requires Valid()
      ensures forall k :: 0 <= k < |found| ==> "_id" in found[k] && found[k]["_id"] in docs && docs[found[k]["_id"]] == found[k]
      ensures forall k :: 0 <= k < |found| ==> Selected(found[k])
      ensures forall id :: id in docs && Selected(docs[id]) ==> exists k :: 0 <= k < |found| && found[k]["_id"] == id
      ensures forall j, k :: 0 <= j < k < |found| ==> found[j]["_id"] != found[k]["_id"]
    {
      found := [];
      var rest := docs.Keys;
      while rest != {}
        invariant rest <= docs.Keys
        invariant forall k :: 0 <= k < |found| ==> "_id" in found[k] && found[k]["_id"] in docs && docs[found[k]["_id"]] == found[k]
        invariant forall k :: 0 <= k < |found| ==> Selected(found[k]) && found[k]["_id"] !in rest
        invariant forall id :: id in docs && Selected(docs[id]) && id !in rest ==> exists k :: 0 <= k < |found| && found[k]["_id"] == id
        invariant forall j, k :: 0 <= j < k < |found| ==> found[j]["_id"] != found[k]["_id"]
        decreases rest
      {
        var id :| id in rest;
        ghost var before := found;
        if Selected(docs[id]) {
          found := found + [docs[id]];
          assert found[|found| - 1]["_id"] == id;
        }
        assert forall k :: 0 <= k < |before| ==> found[k] == before[k];
        rest := rest - {id};
      }
    }

    /** `update_one({"_id": id}, {"$set": {"embedding": e}})`, without upsert. */
    method SetEmbedding(id: Value, e: Embedding)
      requires Valid()
      modifies this
      ensures Valid()
      ensures id in old(docs) ==> docs == old(docs)[id := old(docs)[id]["embedding" := Vector(e)]]
      ensures id !in old(docs) ==> docs == old(docs)
    {
      if id in docs {
        docs := docs[id := docs[id]["embedding" := Vector(e)]];
      }
    }
  }

  /** One `update_one` of the loop takes the store from `done` to `done + {id}`. */
  lemma IndexStep(start: map<Value, Document>, done: set<Value>, id: Value, encode: Value -> Embedding)
    requires id in start && Selected(start[id])
    ensures var cur := PartlyIndexed(start, done, encode);
      cur[id := cur[id]["embedding" := Vector(encode(start[id]["Description"]))]]
      == PartlyIndexed(start, done + {id}, encode)
  {
    var cur := PartlyIndexed(start, done, encode);
    assert cur[id]["embedding" := Vector(encode(start[id]["Description"]))] == WithEmbedding(start[id], encode);
  }

  /** Once every selected document has been updated, the store is `Indexed`. */
  lemma AllSelectedDone(start: map<Value, Document>, done: set<Value>, encode: Value -> Embedding)
    requires SelectedIds(start) <= done
    ensures PartlyIndexed(start, done, encode) == Indexed(start, encode)
  {
  }

  /** The script: find the selected documents, then set each one's embedding. */
  method IndexEmbeddings(c: Collection, encode: Value -> Embedding)
    requires c.Valid()
    modifies c
    ensures c.Valid()
    ensures c.docs == Indexed(old(c.docs), encode)
  {
    ghost var start := c.docs;
    var books := c.Find();
    ghost var done: set<Value> := {};
    for i := 0 to |books|
      invariant done == set k | 0 <= k < i :: books[k]["_id"]
      invariant c.docs == PartlyIndexed(start, done, encode)
      invariant c.Valid()
    {
      var doc := books[i];
      var emb := encode(doc["Description"]);
      IndexStep(start, done, doc["_id"], encode);
      c.SetEmbedding(doc["_id"], emb);
      done := done + {doc["_id"]};
    }
    forall id | id in SelectedIds(start)
      ensures id in done
    {
      var k :| 0 <= k < |books| && books[k]["_id"] == id;
    }
    AllSelectedDone(start, done, encode);
    IndexedKeyedById(start, done, encode);
  }
}
