/**
 * `np.argsort(sims)[::-1][:top_k]`: the indices of the scores from the highest
 * to the lowest, cut to `top_k` with Python's slice rules. numpy's default sort
 * is not stable, so ties may come out in any order: `IsTopRanking` admits every
 * such order, and `TopIndices` computes one of them (among equal scores, the
 * higher index first) only so that the method has something to run.
 */
module Ranking {

  /** Every entry of `order` is an index into a sequence of length `n`. */
  ghost predicate IndicesBelow(order: seq<nat>, n: nat) {
    forall k :: 0 <= k < |order| ==> order[k] < n
  }

  ghost predicate Distinct(order: seq<nat>) {
    forall a, b :: 0 <= a < b < |order| ==> order[a] != order[b]
  }

  /** The scores read through `order` never increase. */
  ghost predicate Descending(scores: seq<real>, order: seq<nat>)
    requires IndicesBelow(order, |scores|)
  {
    forall a, b :: 0 <= a < b < |order| ==> scores[order[a]] >= scores[order[b]]
  }

  /** Puts index `i` into `order` ahead of the first entry with a lower score. */
  function Insert(scores: seq<real>, i: nat, order: seq<nat>): (r: seq<nat>)
    requires i < |scores| && IndicesBelow(order, |scores|)
    ensures |r| == |order| + 1 && IndicesBelow(r, |scores|)
  {
    if order == [] || scores[i] >= scores[order[0]] then [i] + order
    else [order[0]] + Insert(scores, i, order[1..])
  }

  /** Insertion adds `i` and keeps every entry already there. */
  lemma {:induction false} InsertMembers(scores: seq<real>, i: nat, order: seq<nat>)
    requires i < |scores| && IndicesBelow(order, |scores|)
    ensures forall x :: x in Insert(scores, i, order) <==> x in order || x == i
  {
    if order != [] && scores[i] < scores[order[0]] {
      InsertMembers(scores, i, order[1..]);
      assert order == [order[0]] + order[1..];
    }
  }

  lemma {:induction false} InsertDistinct(scores: seq<real>, i: nat, order: seq<nat>)
    requires i < |scores| && IndicesBelow(order, |scores|)
    requires Distinct(order) && i !in order
    ensures Distinct(Insert(scores, i, order))
  {
    if order != [] && scores[i] < scores[order[0]] {
      InsertDistinct(scores, i, order[1..]);
      InsertMembers(scores, i, order[1..]);
      assert order[0] !in order[1..];
    }
  }

  lemma {:induction false} InsertDescending(scores: seq<real>, i: nat, order: seq<nat>)
    requires i < |scores| && IndicesBelow(order, |scores|)
    requires Descending(scores, order)
    ensures Descending(scores, Insert(scores, i, order))
  {
    if order != [] && scores[i] < scores[order[0]] {
      var rest := Insert(scores, i, order[1..]);
      InsertDescending(scores, i, order[1..]);
      InsertMembers(scores, i, order[1..]);
      forall b | 0 <= b < |rest| ensures scores[order[0]] >= scores[rest[b]] {
        if rest[b] != i {
          assert rest[b] in rest;
          var c :| 0 <= c < |order[1..]| && order[1..][c] == rest[b];
          assert order[c + 1] == rest[b];
        }
      }
    }
  }

  /** The indices `0 .. n-1`, ranked by descending score. */
  function RankFirst(scores: seq<real>, n: nat): (r: seq<nat>)
    requires n <= |scores|
    ensures |r| == n && IndicesBelow(r, |scores|)
  {
    if n == 0 then [] else Insert(scores, n - 1, RankFirst(scores, n - 1))
  }

  lemma {:induction false} RankFirstSpec(scores: seq<real>, n: nat)
    requires n <= |scores|
    ensures Distinct(RankFirst(scores, n)) && Descending(scores, RankFirst(scores, n))
    ensures forall j: int :: j in RankFirst(scores, n) <==> 0 <= j < n
  {
    if n > 0 {
      var prev := RankFirst(scores, n - 1);
      RankFirstSpec(scores, n - 1);
      InsertMembers(scores, n - 1, prev);
      InsertDistinct(scores, n - 1, prev);
      InsertDescending(scores, n - 1, prev);
    }
  }

  /** `np.argsort(scores)[::-1]`. */
  function ArgSortDescending(scores: seq<real>): (r: seq<nat>)
    ensures |r| == |scores| && IndicesBelow(r, |scores|)
  {
    RankFirst(scores, |scores|)
  }

  /** The ranking is a permutation of the indices, highest score first. */
  lemma ArgSortDescendingSpec(scores: seq<real>)
    ensures Distinct(ArgSortDescending(scores)) && Descending(scores, ArgSortDescending(scores))
    ensures forall j: int :: j in ArgSortDescending(scores) <==> 0 <= j < |scores|
  {
    RankFirstSpec(scores, |scores|);
  }

  /** The length of `s[:stop]` for a sequence of length `n`. */
  function SliceLength(n: nat, stop: int): nat {
    if stop >= n then n
    else if stop >= 0 then stop
    else if n + stop > 0 then n + stop
    else 0
  }

  /** Python's `s[:stop]`: a negative `stop` counts back from the end. */
  function Prefix<T>(s: seq<T>, stop: int): (r: seq<T>)
    ensures |r| == SliceLength(|s|, stop) && r == s[..|r|]
  {
    if stop >= |s| then s
    else if stop >= 0 then s[..stop]
    else if |s| + stop > 0 then s[..|s| + stop]
    else []
  }

  /** `np.argsort(scores)[::-1][:top_k]`. */
  function TopIndices(scores: seq<real>, topK: int): (top: seq<nat>)
    ensures |top| == SliceLength(|scores|, topK) && IndicesBelow(top, |scores|)
  {
    Prefix(ArgSortDescending(scores), topK)
  }

  /**
   * `top` is what `np.argsort(scores)[::-1][:top_k]` may return for some order
   * among equal scores: as many indices as the slice keeps, distinct, highest
   * score first, and no index left out scores above the last one kept.
   */
  ghost predicate IsTopRanking(scores: seq<real>, topK: int, top: seq<nat>) {
    && |top| == SliceLength(|scores|, topK)
    && IndicesBelow(top, |scores|)
    && Distinct(top)
    && Descending(scores, top)
    && forall j :: 0 <= j < |scores| && j !in top && top != [] ==> scores[j] <= scores[top[|top| - 1]]
  }

  /** The computed ranking is one of the admissible ones, `min(top_k, n)` long for a non-negative `top_k`. */
  lemma TopIndicesSpec(scores: seq<real>, topK: int)
    ensures IsTopRanking(scores, topK, TopIndices(scores, topK))
    ensures topK >= 0 ==> |TopIndices(scores, topK)| == if topK < |scores| then topK else |scores|
  {
    var ranked := ArgSortDescending(scores);
    var top := TopIndices(scores, topK);
    ArgSortDescendingSpec(scores);
    forall j | 0 <= j < |scores| && j !in top && top != []
      ensures scores[j] <= scores[top[|top| - 1]]
    {
      assert j in ranked;
      var p :| 0 <= p < |ranked| && ranked[p] == j;
      assert p >= |top|;
      assert ranked[|top| - 1] == top[|top| - 1];
    }
  }

  /** Two equal scores may come out in either order: no tie-break is promised. */
  lemma EqualScoresEitherOrder(x: real)
    ensures IsTopRanking([x, x], 2, [0, 1]) && IsTopRanking([x, x], 2, [1, 0])
  {
  }
}
