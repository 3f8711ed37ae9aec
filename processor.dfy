/** `PDFProcessor`: the object that turns a PDF into text chunks, embeds them and
    answers queries against a flat vector index.

    Its state is the index, the flag saying whether the index has been given its
    width, and the current list of chunks. The sentence-transformer model is the
    encoder given to the constructor; a document is given as what opening the PDF
    yields (None when opening raises) and the nearest-neighbour search as an
    oracle per call. */
module Processor {
  import opened Wrappers
  import opened Batching
  import opened PyStr
  import opened Extraction
  import opened Chunking
  import opened Embedding
  import opened VectorIndex
  import opened Retrieval

  class PdfProcessor {
    /** `self.model.encode`. */
    const encode: Encoder
    /** The configuration fields set in `__init__`. */
    const dimension: nat := 384
    const chunkSize: nat := 300
    const chunkOverlap: nat := 20
    const maxChunks: nat := 1000
    /** Pages per batch in extract_text_from_pdf. */
    const batchSize: nat := 10

    var index: FlatIndex
    var textChunks: seq<string>
    var isIndexInitialized: bool

    /** The chunker's configuration. */
    function Cfg(): (cfg: Config)
      ensures cfg.size == chunkSize && cfg.overlap == chunkOverlap && cfg.maxChunks == maxChunks
    {
      Config(chunkSize, chunkOverlap, maxChunks)
    }

    /** The index and its flag, as build_index sees them. */
    function State(): IndexState
      reads this
    {
      IndexState(index, isIndexInitialized)
    }

    /** Until the first successful build the index is the empty one made in
        `__init__`; afterwards every row has the index's width. */
    ghost predicate Valid()
      reads this
    {
      (!isIndexInitialized ==> index == FlatIndex(dimension, [])) &&
      (isIndexInitialized ==> WellShaped(index))
    }

    constructor (model: Encoder)
      ensures Valid()
      ensures encode == model
      ensures index == FlatIndex(384, []) && textChunks == [] && !isIndexInitialized
    {
      encode := model;
      index := FlatIndex(384, []);
      textChunks := [];
      isIndexInitialized := false;
    }

    /** `extract_text_from_pdf` on an opened document: pages are read in batches of
        ten, each batch in page order, and the texts are joined. */
    method ExtractTextFromPdf(doc: seq<Page>) returns (text: string)
      ensures text == DocumentText(doc)
      ensures text == Join(BatchedPageTexts(Batches(doc, batchSize)))
    {
      var parts: seq<string> := [];
      var i := 0;
      while i < |doc|
        invariant parts == PageTexts(doc[..Min(i, |doc|)])
        decreases |doc| - i
      {
        var end := Min(i + batchSize, |doc|);
        var batchPages := doc[i..end];
        var batchResults: seq<string> := [];
        for j := 0 to |batchPages|
          invariant batchResults == PageTexts(batchPages[..j])
        {
          batchResults := batchResults + [PageText(batchPages[j])];
          assert batchPages[..j + 1] == batchPages[..j] + [batchPages[j]];
          PageTextsAppend(batchPages[..j], [batchPages[j]]);
        }
        assert batchPages[..|batchPages|] == batchPages;
        PageTextsAppend(doc[..i], batchPages);
        assert doc[..i] + batchPages == doc[..end];
        parts := parts + batchResults;
        i := i + batchSize;
      }
      assert doc[..Min(i, |doc|)] == doc;
      text := Join(parts);
      DocumentTextInBatches(doc, batchSize);
    }

    /** `chunk_text`, allowed at most `fuel` iterations of its loop. */
    method ChunkText(text: string, fuel: nat) returns (r: Outcome<seq<string>>)
      ensures r == ChunkRun(text, Cfg(), fuel)
    {
      ghost var cfg := Cfg();
      var chunks: seq<string> := [];
      var start: int := 0;
      var textLength := |text|;
      var k: nat := 0;
      while start < textLength && |chunks| < maxChunks
        invariant k <= fuel
        invariant LoopState(start, chunks) == StateAt(text, cfg, k)
        invariant ContinuedThrough(text, cfg, k)
        decreases fuel - k
      {
        if k == fuel {
          LoopOutOfFuel(text, cfg, fuel, start, chunks);
          return OutOfFuel;
        }
        var end := start + chunkSize;
        if end > textLength {
          end := textLength;
        }
        var chunk := Slice(text, start, end);
        LoopStep(text, cfg, k, start, chunks, end, chunk);
        if Strip(chunk) != "" {
          chunks := chunks + [chunk];
        }
        start := end - chunkOverlap;
        k := k + 1;
      }
      LoopExits(text, cfg, k, fuel, start, chunks);
      return Done(Slice(chunks, 0, maxChunks));
    }

    /** `process_pdf`: when reading the document raises (opening it, or loading one
        of its pages), the result is [] and the chunks are left as they were;
        otherwise the chunks are replaced by the new document's chunks. When the chunker does not stop within the fuel, neither
        does the call, and nothing changes. */
    method ProcessPdf(document: Option<seq<Page>>, fuel: nat) returns (r: Outcome<seq<string>>)
      modifies this`textChunks
      ensures document.None? ==> r == Done([]) && textChunks == old(textChunks)
      ensures document.Some? ==> r == ChunkRun(DocumentText(document.value), Cfg(), fuel)
      ensures r.OutOfFuel? ==> textChunks == old(textChunks)
      ensures document.Some? && r.Done? ==> textChunks == r.value
    {
      if document.None? {
        return Done([]);
      }
      var text := ExtractTextFromPdf(document.value);
      r := ChunkText(text, fuel);
      if r.Done? {
        textChunks := r.value;
      }
    }

    /** `generate_embeddings(chunks, progress_callback)`: the vectors, and the values
        passed to the callback when there is one. */
    method GenerateEmbeddings(chunks: seq<string>, reportProgress: bool)
      returns (embeddings: seq<Vector>, reports: seq<real>)
      ensures embeddings == Embeddings(chunks, encode)
      ensures reports == if reportProgress then Progress(chunks, encode) else []
    {
      var totalChunks := |chunks|;
      embeddings := [];
      reports := [];
      var i := 0;
      while i < totalChunks
        invariant embeddings + EmbedFrom(chunks, encode, i) == Embeddings(chunks, encode)
        invariant reportProgress ==> reports + ProgressFrom(chunks, encode, i) == Progress(chunks, encode)
        invariant !reportProgress ==> reports == []
        decreases totalChunks - i
      {
        var batch := Slice(chunks, i, i + EmbedBatch);
        EmbedStep(chunks, encode, i, embeddings, reports);
        var result := encode(batch);
        if result.Some? {
          embeddings := embeddings + result.value;
          if reportProgress {
            reports := reports + [ProgressAt(chunks, i)];
          }
        }
        i := i + EmbedBatch;
      }
    }

    /** `build_index(embeddings)`. */
    method BuildIndex(e: seq<Vector>)
      requires Valid()
      modifies this`index, this`isIndexInitialized
      ensures Valid()
      ensures State() == Build(old(State()), e)
    {
      BuildWellShaped(State(), e);
      if !isIndexInitialized {
        if |e| == 0 {
          return;
        }
        index := FlatIndex(|e[0]|, []);
        isIndexInitialized := true;
      }
      var added := Add(index, e);
      if added.Some? {
        index := added.value;
      }
    }

    /** `search(query, k)`. */
    method Search(query: string, knn: Knn, k: int := 3) returns (results: seq<Hit>)
      ensures results == SearchResults(textChunks, index, encode, knn, query, k)
    {
      var queryEmbedding := encode([query]);
      if queryEmbedding.None? {
        return [];
      }
      var found := knn(index, queryEmbedding.value, k);
      if found.None? {
        return [];
      }
      var pairs := Zip(found.value.0, found.value.1);
      results := [];
      for j := 0 to |pairs|
        invariant MapHits(textChunks, pairs[..j]) == Some(results)
      {
        var idx := pairs[j].0;
        var distance := pairs[j].1;
        assert pairs[..j + 1][..j] == pairs[..j];
        if idx < |textChunks| {
          var chunk := Get(textChunks, idx);
          if chunk.None? {
            MapHitsRaises(textChunks, pairs);
            return [];
          }
          results := results + [Hit(chunk.value, distance)];
        }
      }
      assert pairs[..|pairs|] == pairs;
    }
  }

  /** With an encoder that embeds each text on its own, and no failing batch, the
      vectors of a list of chunks are a matrix of the encoder's width. */
  lemma EmbeddingsRectangular(chunks: seq<string>, encode: Encoder, f: string -> Vector, d: nat)
    requires EmbedsEachText(encode, f) && NoBatchFailsFrom(chunks, encode, 0)
    requires forall c :: |f(c)| == d
    ensures |Embeddings(chunks, encode)| == |chunks| && Rectangular(Embeddings(chunks, encode), d)
  {
    EmbeddingsAligned(chunks, encode, f);
  }

  /** Two documents processed one after the other: the index holds the rows of
      both, but the chunks are those of the second only. A position p in the
      index is the embedding of chunk p of the first document (or of chunk
      p - |chunks1| of the second), while the search reads chunk p of the second
      document, or drops the position when the second document has fewer chunks. */
  lemma StalePositions(s: IndexState, chunks1: seq<string>, chunks2: seq<string>,
                       encode: Encoder, f: string -> Vector, d: nat,
                       knn: Knn, query: string, k: int, p: int, dist: real)
    requires !s.initialized && |chunks1| > 0 && |chunks2| > 0
    requires EmbedsEachText(encode, f) && forall c :: |f(c)| == d
    requires NoBatchFailsFrom(chunks1, encode, 0) && NoBatchFailsFrom(chunks2, encode, 0)
    requires encode([query]).Some?
    requires 0 <= p < |chunks1| + |chunks2|
    requires var idx := Build(Build(s, Embeddings(chunks1, encode)), Embeddings(chunks2, encode)).index;
      knn(idx, MapVec(f, [query]), k) == Some(([p], [dist]))
    ensures var idx := Build(Build(s, Embeddings(chunks1, encode)), Embeddings(chunks2, encode)).index;
      |idx.rows| == |chunks1| + |chunks2| &&
      idx.rows[p] == (if p < |chunks1| then f(chunks1[p]) else f(chunks2[p - |chunks1|])) &&
      SearchResults(chunks2, idx, encode, knn, query, k) == (if p < |chunks2| then [Hit(chunks2[p], dist)] else [])
  {
    var e1, e2 := Embeddings(chunks1, encode), Embeddings(chunks2, encode);
    EmbeddingsRectangular(chunks1, encode, f, d);
    EmbeddingsRectangular(chunks2, encode, f, d);
    EmbeddingsAligned(chunks1, encode, f);
    EmbeddingsAligned(chunks2, encode, f);
    BuildTwice(s, e1, e2, d);
    var idx := Build(Build(s, e1), e2).index;
    assert idx.rows == e1 + e2;
    assert encode([query]) == Some(MapVec(f, [query]));
    var pairs := Zip([p], [dist]);
    assert pairs == [(p, dist)];
    assert pairs[..0] == [];
    if p < |chunks2| {
      assert MapHits(chunks2, pairs) == Some([] + [Hit(chunks2[p], dist)]);
      assert [] + [Hit(chunks2[p], dist)] == [Hit(chunks2[p], dist)];
    } else {
      assert MapHits(chunks2, pairs) == Some([]);
    }
  }
}
