/** What `generate_embeddings` computes: the chunks are encoded in batches of five,
    a batch whose encoding raises is skipped, and after each successful batch the
    fraction of chunks covered so far is reported.

    The sentence-transformer model is an oracle: `encode(batch)` is `Some(vectors)`
    or `None` when the call raises. */
module Embedding {
  import opened Wrappers
  import opened PyStr
  import opened Batching

  type Vector = seq<real>

  /** `model.encode(texts)`: the vectors for a list of texts, or None when it raises. */
  type Encoder = seq<string> -> Option<seq<Vector>>

  /** `batch_size = 5` in generate_embeddings. */
  const EmbedBatch: nat := 5

  /** The vectors one batch contributes: the encoder's output, or none when it raises. */
  function BatchVectors(encode: Encoder, batch: seq<string>): seq<Vector>
  {
    match encode(batch)
    case Some(vs) => vs
    case None => []
  }

  /** The vectors of the batches starting at i, i + 5, ... in order. */
  function EmbedFrom(chunks: seq<string>, encode: Encoder, i: nat): seq<Vector>
    decreases |chunks| - i
  {
    if i >= |chunks| then []
    else BatchVectors(encode, Slice(chunks, i, i + EmbedBatch)) + EmbedFrom(chunks, encode, i + EmbedBatch)
  }

  /** The list of vectors generate_embeddings returns (before `np.array`). */
  function Embeddings(chunks: seq<string>, encode: Encoder): seq<Vector>
  {
    EmbedFrom(chunks, encode, 0)
  }

  /** The progress value reported after the batch at i succeeds: `(i + len(batch)) / total`. */
  function ProgressAt(chunks: seq<string>, i: nat): real
    requires i < |chunks|
  {
    (i + |Slice(chunks, i, i + EmbedBatch)|) as real / |chunks| as real
  }

  /** The values passed to progress_callback for the batches at i, i + 5, ... */
  function ProgressFrom(chunks: seq<string>, encode: Encoder, i: nat): seq<real>
    decreases |chunks| - i
  {
    if i >= |chunks| then []
    else
      var reported := if encode(Slice(chunks, i, i + EmbedBatch)).Some? then [ProgressAt(chunks, i)] else [];
      reported + ProgressFrom(chunks, encode, i + EmbedBatch)
  }

  function Progress(chunks: seq<string>, encode: Encoder): seq<real>
  {
    ProgressFrom(chunks, encode, 0)
  }

  /** One pass of the loop: the batch at i adds its vectors, and its progress value
      when it succeeds; the rest is what the batches after it add. */
  lemma EmbedStep(chunks: seq<string>, encode: Encoder, i: nat, embeddings: seq<Vector>, reports: seq<real>)
    requires i < |chunks|
    ensures match encode(Slice(chunks, i, i + EmbedBatch))
      case Some(vs) =>
        embeddings + EmbedFrom(chunks, encode, i) == (embeddings + vs) + EmbedFrom(chunks, encode, i + EmbedBatch) &&
        reports + ProgressFrom(chunks, encode, i) ==
          (reports + [ProgressAt(chunks, i)]) + ProgressFrom(chunks, encode, i + EmbedBatch)
      case None =>
        embeddings + EmbedFrom(chunks, encode, i) == embeddings + EmbedFrom(chunks, encode, i + EmbedBatch) &&
        reports + ProgressFrom(chunks, encode, i) == reports + ProgressFrom(chunks, encode, i + EmbedBatch)
  {
    var batch := Slice(chunks, i, i + EmbedBatch);
    assert EmbedFrom(chunks, encode, i) == BatchVectors(encode, batch) + EmbedFrom(chunks, encode, i + EmbedBatch);
  }

  // ---------------------------------------------------------------------------
  // The result as the successful batches

  /** The outputs of the batches whose encoding succeeds, in order. */
  function Successes(encode: Encoder, batches: seq<seq<string>>): seq<seq<Vector>>
  {
    if |batches| == 0 then []
    else (match encode(batches[0]) case Some(vs) => [vs] case None => []) + Successes(encode, batches[1..])
  }

  /** From batch i on, the result is the concatenation of the outputs of the batches
      that succeed: a failed batch adds nothing and the batches after it still run. */
  lemma {:induction false} EmbedFromIsSuccesses(chunks: seq<string>, encode: Encoder, i: nat)
    ensures EmbedFrom(chunks, encode, i) == Flatten(Successes(encode, BatchesFrom(chunks, EmbedBatch, i)))
    decreases |chunks| - i
  {
    if i < |chunks| {
      var bs := BatchesFrom(chunks, EmbedBatch, i);
      var rest := BatchesFrom(chunks, EmbedBatch, i + EmbedBatch);
      EmbedFromIsSuccesses(chunks, encode, i + EmbedBatch);
      assert bs[0] == Slice(chunks, i, i + EmbedBatch) && bs[1..] == rest;
      var head := match encode(bs[0]) case Some(vs) => [vs] case None => [];
      FlattenAppend(head, Successes(encode, rest));
      assert Flatten(head) == BatchVectors(encode, bs[0]);
    }
  }

  /** The embeddings are the in-order concatenation of the vectors of the successful
      batches of five. */
  lemma EmbeddingsAreSuccesses(chunks: seq<string>, encode: Encoder)
    ensures Embeddings(chunks, encode) == Flatten(Successes(encode, Batches(chunks, EmbedBatch)))
  {
    EmbedFromIsSuccesses(chunks, encode, 0);
  }

  // ---------------------------------------------------------------------------
  // Length and alignment

  /** The encoder gives one vector per text whenever it succeeds. */
  ghost predicate OnePerText(encode: Encoder)
  {
    forall batch :: encode(batch).Some? ==> |encode(batch).value| == |batch|
  }

  /** No batch from i on fails. */
  predicate NoBatchFailsFrom(chunks: seq<string>, encode: Encoder, i: nat)
    decreases |chunks| - i
  {
    i >= |chunks| ||
    (encode(Slice(chunks, i, i + EmbedBatch)).Some? && NoBatchFailsFrom(chunks, encode, i + EmbedBatch))
  }

  /** With one vector per text there are never more vectors than chunks, and exactly
      as many when no batch fails. */
  lemma {:induction false} EmbedFromLength(chunks: seq<string>, encode: Encoder, i: nat)
    requires OnePerText(encode) && i <= |chunks|
    ensures |EmbedFrom(chunks, encode, i)| <= |chunks| - i
    ensures NoBatchFailsFrom(chunks, encode, i) ==> |EmbedFrom(chunks, encode, i)| == |chunks| - i
    decreases |chunks| - i
  {
    if i < |chunks| {
      var batch := Slice(chunks, i, i + EmbedBatch);
      BatchAt(chunks, EmbedBatch, i);
      var next := Min(i + EmbedBatch, |chunks|);
      assert |BatchVectors(encode, batch)| <= next - i;
      EmbedFromLength(chunks, encode, next);
      if next == |chunks| {
        assert EmbedFrom(chunks, encode, i + EmbedBatch) == [];
      }
    }
  }

  lemma EmbeddingsLength(chunks: seq<string>, encode: Encoder)
    requires OnePerText(encode)
    ensures |Embeddings(chunks, encode)| <= |chunks|
    ensures NoBatchFailsFrom(chunks, encode, 0) ==> |Embeddings(chunks, encode)| == |chunks|
  {
    EmbedFromLength(chunks, encode, 0);
  }

  /** `[f(x) for x in xs]`. */
  function MapVec(f: string -> Vector, xs: seq<string>): (r: seq<Vector>)
    ensures |r| == |xs| && forall j :: 0 <= j < |xs| ==> r[j] == f(xs[j])
  {
    if |xs| == 0 then [] else [f(xs[0])] + MapVec(f, xs[1..])
  }

  /** Whenever the encoder succeeds, it has embedded each text of the batch on its
      own with f. */
  ghost predicate EmbedsEachText(encode: Encoder, f: string -> Vector)
  {
    forall batch :: encode(batch).Some? ==> encode(batch).value == MapVec(f, batch)
  }

  /** Mapping over a split sequence maps each part. */
  lemma MapVecSplit(f: string -> Vector, xs: seq<string>, m: nat)
    requires m <= |xs|
    ensures MapVec(f, xs[..m]) + MapVec(f, xs[m..]) == MapVec(f, xs)
  {
    var l, r, all := MapVec(f, xs[..m]), MapVec(f, xs[m..]), MapVec(f, xs);
    assert |l + r| == |all|;
    forall j | 0 <= j < |all| ensures (l + r)[j] == all[j] {
      if j < m {
        assert xs[..m][j] == xs[j];
        assert (l + r)[j] == l[j];
      } else {
        assert xs[m..][j - m] == xs[j];
        assert (l + r)[j] == r[j - m];
      }
    }
  }

  /** With such an encoder, and when no batch from i on fails, vector j is the
      embedding of chunk i + j: position for position alignment. */
  lemma {:induction false} EmbedFromAligned(chunks: seq<string>, encode: Encoder, f: string -> Vector, i: nat)
    requires EmbedsEachText(encode, f) && NoBatchFailsFrom(chunks, encode, i) && i <= |chunks|
    ensures EmbedFrom(chunks, encode, i) == MapVec(f, chunks[i..])
    decreases |chunks| - i
  {
    if i < |chunks| {
      var next := Min(i + EmbedBatch, |chunks|);
      var batch := Slice(chunks, i, i + EmbedBatch);
      BatchAt(chunks, EmbedBatch, i);
      assert batch == chunks[i..][..next - i];
      assert BatchVectors(encode, batch) == MapVec(f, batch);
      var rest := EmbedFrom(chunks, encode, i + EmbedBatch);
      if next < |chunks| {
        EmbedFromAligned(chunks, encode, f, next);
      } else {
        assert rest == [];
      }
      assert rest == MapVec(f, chunks[i..][next - i..]);
      MapVecSplit(f, chunks[i..], next - i);
    } else {
      assert chunks[i..] == [];
    }
  }

  /** When no batch of these chunks fails, vector j is the embedding of chunk j. */
  lemma EmbeddingsAligned(chunks: seq<string>, encode: Encoder, f: string -> Vector)
    requires EmbedsEachText(encode, f) && NoBatchFailsFrom(chunks, encode, 0)
    ensures |Embeddings(chunks, encode)| == |chunks|
    ensures forall j :: 0 <= j < |chunks| ==> Embeddings(chunks, encode)[j] == f(chunks[j])
  {
    EmbedFromAligned(chunks, encode, f, 0);
    assert chunks[0..] == chunks;
  }

  // ---------------------------------------------------------------------------
  // Progress

  lemma DivLess(a: nat, b: nat, n: nat)
    requires a < b && 0 < n
    ensures a as real / n as real < b as real / n as real
  {
  }

  lemma DivAtMostOne(a: nat, n: nat)
    requires a <= n && 0 < n
    ensures a as real / n as real <= 1.0
    ensures a as real / n as real == 1.0 <==> a == n
  {
  }

  /** Every value reported from batch i on lies in (i / total, 1]. */
  lemma {:induction false} ProgressFromRange(chunks: seq<string>, encode: Encoder, i: nat)
    ensures forall q :: 0 <= q < |ProgressFrom(chunks, encode, i)| ==>
      i as real / |chunks| as real < ProgressFrom(chunks, encode, i)[q] <= 1.0
    decreases |chunks| - i
  {
    if i < |chunks| {
      var n := |chunks|;
      var next := Min(i + EmbedBatch, n);
      BatchAt(chunks, EmbedBatch, i);
      ProgressFromRange(chunks, encode, i + EmbedBatch);
      assert ProgressAt(chunks, i) == next as real / n as real;
      DivLess(i, next, n);
      DivAtMostOne(next, n);
      DivLess(i, i + EmbedBatch, n);
    }
  }

  /** The values reported from batch i on strictly increase. */
  lemma {:induction false} ProgressFromIncreasing(chunks: seq<string>, encode: Encoder, i: nat)
    ensures forall q, r :: 0 <= q < r < |ProgressFrom(chunks, encode, i)| ==>
      ProgressFrom(chunks, encode, i)[q] < ProgressFrom(chunks, encode, i)[r]
    decreases |chunks| - i
  {
    if i < |chunks| {
      var n := |chunks|;
      var next := Min(i + EmbedBatch, n);
      BatchAt(chunks, EmbedBatch, i);
      ProgressFromIncreasing(chunks, encode, i + EmbedBatch);
      ProgressFromRange(chunks, encode, i + EmbedBatch);
      assert ProgressAt(chunks, i) == next as real / n as real;
      if next < i + EmbedBatch {
        DivLess(next, i + EmbedBatch, n);
      }
    }
  }

  /** The reported values lie in (0, 1] and strictly increase. */
  lemma ProgressIncreases(chunks: seq<string>, encode: Encoder)
    ensures forall q :: 0 <= q < |Progress(chunks, encode)| ==> 0.0 < Progress(chunks, encode)[q] <= 1.0
    ensures forall q, r :: 0 <= q < r < |Progress(chunks, encode)| ==>
      Progress(chunks, encode)[q] < Progress(chunks, encode)[r]
  {
    ProgressFromRange(chunks, encode, 0);
    ProgressFromIncreasing(chunks, encode, 0);
  }

  /** The last batch from i on, the one that reaches the end of the chunks. */
  function FinalBatchFrom(chunks: seq<string>, i: nat): seq<string>
    requires i < |chunks|
    decreases |chunks| - i
  {
    if i + EmbedBatch >= |chunks| then Slice(chunks, i, i + EmbedBatch) else FinalBatchFrom(chunks, i + EmbedBatch)
  }

  /** It is the last of the batches. */
  lemma {:induction false} FinalBatchIsLast(chunks: seq<string>, i: nat)
    requires i < |chunks|
    ensures var bs := BatchesFrom(chunks, EmbedBatch, i);
      |bs| > 0 && FinalBatchFrom(chunks, i) == bs[|bs| - 1]
    decreases |chunks| - i
  {
    if i + EmbedBatch < |chunks| {
      FinalBatchIsLast(chunks, i + EmbedBatch);
    }
  }

  /** The last value reported from batch i on is 1 exactly when the final batch succeeds. */
  lemma {:induction false} LastProgressFrom(chunks: seq<string>, encode: Encoder, i: nat)
    requires i < |chunks|
    ensures var p := ProgressFrom(chunks, encode, i);
      (|p| > 0 && p[|p| - 1] == 1.0) <==> encode(FinalBatchFrom(chunks, i)).Some?
    decreases |chunks| - i
  {
    BatchAt(chunks, EmbedBatch, i);
    if i + EmbedBatch >= |chunks| {
      assert ProgressFrom(chunks, encode, i + EmbedBatch) == [];
      DivAtMostOne(|chunks|, |chunks|);
    } else {
      LastProgressFrom(chunks, encode, i + EmbedBatch);
      DivAtMostOne(i + EmbedBatch, |chunks|);
    }
  }

  /** For a non-empty list of chunks, the last value passed to progress_callback is 1
      exactly when the final batch succeeds. */
  lemma LastProgressIsOne(chunks: seq<string>, encode: Encoder)
    requires |chunks| > 0
    ensures var p := Progress(chunks, encode);
      var bs := Batches(chunks, EmbedBatch);
      |bs| > 0 && ((|p| > 0 && p[|p| - 1] == 1.0) <==> encode(bs[|bs| - 1]).Some?)
  {
    LastProgressFrom(chunks, encode, 0);
    FinalBatchIsLast(chunks, 0);
  }
}
