/** What `search` returns: the positions the index reports for the query are
    mapped back to chunk text.

    The nearest-neighbour search is an oracle: `knn(index, queries, k)` is the first
    row of what `index.search` returns, as a pair (positions, distances), or None
    when the call raises. */
module Retrieval {
  import opened Wrappers
  import opened PyStr
  import opened Embedding
  import opened VectorIndex

  /** One result: a chunk and its distance to the query. */
  datatype Hit = Hit(chunk: string, distance: real)

  type Knn = (FlatIndex, seq<Vector>, int) -> Option<(seq<int>, seq<real>)>

  /** `zip(indices[0], distances[0])`: pairs up to the shorter of the two. */
  function Zip(ids: seq<int>, ds: seq<real>): (ps: seq<(int, real)>)
    ensures |ps| == Min(|ids|, |ds|)
    ensures forall j :: 0 <= j < |ps| ==> ps[j] == (ids[j], ds[j])
  {
    if |ids| == 0 || |ds| == 0 then [] else [(ids[0], ds[0])] + Zip(ids[1..], ds[1..])
  }

  /** The loop over the pairs: a position below `len(text_chunks)` adds its chunk,
      read with Python's indexing; a position below `-len(text_chunks)` raises
      IndexError, and then the whole search gives None. */
  function MapHits(chunks: seq<string>, pairs: seq<(int, real)>): Option<seq<Hit>>
  {
    if |pairs| == 0 then Some([])
    else
      var idx := pairs[|pairs| - 1].0;
      match MapHits(chunks, pairs[..|pairs| - 1])
      case None => None
      case Some(hits) =>
        if idx < |chunks| then
          match Get(chunks, idx)
          case None => None
          case Some(c) => Some(hits + [Hit(c, pairs[|pairs| - 1].1)])
        else Some(hits)
  }

  /** `search(query, k)`: any exception (the encoder, the index, a bad position)
      gives the empty list. */
  function SearchResults(chunks: seq<string>, index: FlatIndex, encode: Encoder, knn: Knn,
                         query: string, k: int): seq<Hit>
  {
    match encode([query])
    case None => []
    case Some(q) =>
      match knn(index, q, k)
      case None => []
      case Some(found) =>
        match MapHits(chunks, Zip(found.0, found.1))
        case None => []
        case Some(hits) => hits
  }

  // ---------------------------------------------------------------------------
  // A reference for the loop: filter, then look up

  /** The pairs whose position passes the `idx < n` filter, in the order given. */
  function Kept(n: nat, pairs: seq<(int, real)>): (r: seq<(int, real)>)
    ensures |r| <= |pairs|
    ensures forall j :: 0 <= j < |r| ==> r[j] in pairs && r[j].0 < n
    ensures forall j :: 0 <= j < |pairs| && pairs[j].0 < n ==> pairs[j] in r
  {
    if |pairs| == 0 then []
    else
      var last := pairs[|pairs| - 1];
      assert forall j :: 0 <= j < |pairs| - 1 ==> pairs[..|pairs| - 1][j] == pairs[j];
      Kept(n, pairs[..|pairs| - 1]) + (if last.0 < n then [last] else [])
  }

  /** The filter keeps order: filtering a list is filtering its first part, then
      its second part. With KeptSingle, this says Kept is the in-order
      subsequence of the pairs that pass. */
  lemma {:induction false} KeptAppend(n: nat, a: seq<(int, real)>, b: seq<(int, real)>)
    ensures Kept(n, a + b) == Kept(n, a) + Kept(n, b)
    decreases |b|
  {
    if |b| > 0 {
      var ab, init, last := a + b, b[..|b| - 1], b[|b| - 1];
      assert ab[..|ab| - 1] == a + init;
      assert ab[|ab| - 1] == last;
      var tail := if last.0 < n then [last] else [];
      assert Kept(n, ab) == Kept(n, a + init) + tail;
      assert Kept(n, b) == Kept(n, init) + tail;
      KeptAppend(n, a, init);
    } else {
      assert a + b == a;
    }
  }

  /** A single pair is kept exactly when its position passes the filter. */
  lemma KeptSingle(n: nat, x: (int, real))
    ensures Kept(n, [x]) == if x.0 < n then [x] else []
  {
    assert [x][..0] == [];
  }

  /** `chunks[idx]` with Python's reading of a negative index. */
  function PyIndex(chunks: seq<string>, idx: int): string
    requires -|chunks| <= idx < |chunks|
  {
    if idx < 0 then chunks[|chunks| + idx] else chunks[idx]
  }

  /** No position is below `-len(text_chunks)`. */
  predicate NoBadPosition(n: nat, pairs: seq<(int, real)>)
  {
    forall j :: 0 <= j < |pairs| ==> -(n as int) <= pairs[j].0
  }

  /** The loop raises exactly when some position is below `-len(text_chunks)`. */
  lemma {:induction false} MapHitsRaises(chunks: seq<string>, pairs: seq<(int, real)>)
    ensures MapHits(chunks, pairs).None? <==> !NoBadPosition(|chunks|, pairs)
  {
    if |pairs| > 0 {
      var init := pairs[..|pairs| - 1];
      MapHitsRaises(chunks, init);
      assert forall j :: 0 <= j < |init| ==> init[j] == pairs[j];
      if !NoBadPosition(|chunks|, init) {
        var j :| 0 <= j < |init| && init[j].0 < -|chunks|;
        assert pairs[j].0 < -|chunks|;
      }
    }
  }

  /** Otherwise the result holds, in the index's order, the chunk and distance of
      each position that passes the filter, and nothing else. */
  lemma {:induction false} MapHitsKept(chunks: seq<string>, pairs: seq<(int, real)>)
    requires NoBadPosition(|chunks|, pairs)
    ensures MapHits(chunks, pairs).Some?
    ensures var hits := MapHits(chunks, pairs).value; var keep := Kept(|chunks|, pairs);
      |hits| == |keep| &&
      forall j :: 0 <= j < |keep| ==> hits[j] == Hit(PyIndex(chunks, keep[j].0), keep[j].1)
  {
    if |pairs| > 0 {
      var n, init, last := |chunks|, pairs[..|pairs| - 1], pairs[|pairs| - 1];
      assert forall j :: 0 <= j < |init| ==> init[j] == pairs[j];
      MapHitsKept(chunks, init);
      var hits, keep := MapHits(chunks, init).value, Kept(n, init);
      if last.0 < n {
        assert -n <= last.0;
        assert MapHits(chunks, pairs) == Some(hits + [Hit(PyIndex(chunks, last.0), last.1)]);
        assert Kept(n, pairs) == keep + [last];
      } else {
        assert MapHits(chunks, pairs) == Some(hits);
        assert Kept(n, pairs) == keep;
      }
    }
  }

  /** Every result is one of the chunks. */
  lemma SearchResultsAreChunks(chunks: seq<string>, index: FlatIndex, encode: Encoder, knn: Knn,
                               query: string, k: int)
    ensures forall j :: 0 <= j < |SearchResults(chunks, index, encode, knn, query, k)| ==>
      SearchResults(chunks, index, encode, knn, query, k)[j].chunk in chunks
  {
    var q := encode([query]);
    if q.Some? && knn(index, q.value, k).Some? {
      var found := knn(index, q.value, k).value;
      var pairs := Zip(found.0, found.1);
      MapHitsRaises(chunks, pairs);
      if NoBadPosition(|chunks|, pairs) {
        MapHitsKept(chunks, pairs);
      }
    }
  }

  /** When the encoder and the index answer, the search returns the kept pairs'
      chunks and distances, or nothing when a position is below `-len(text_chunks)`. */
  lemma SearchResultsAnswered(chunks: seq<string>, index: FlatIndex, encode: Encoder, knn: Knn,
                              query: string, k: int, q: seq<Vector>, ids: seq<int>, ds: seq<real>)
    requires encode([query]) == Some(q) && knn(index, q, k) == Some((ids, ds))
    ensures var r := SearchResults(chunks, index, encode, knn, query, k);
      var pairs := Zip(ids, ds); var keep := Kept(|chunks|, pairs);
      (!NoBadPosition(|chunks|, pairs) ==> r == []) &&
      (NoBadPosition(|chunks|, pairs) ==>
        |r| == |keep| &&
        forall j :: 0 <= j < |keep| ==> r[j] == Hit(PyIndex(chunks, keep[j].0), keep[j].1))
  {
    MapHitsRaises(chunks, Zip(ids, ds));
    if NoBadPosition(|chunks|, Zip(ids, ds)) {
      MapHitsKept(chunks, Zip(ids, ds));
    }
  }

  /** The loop's pass over one more pair. */
  lemma MapHitsSnoc(chunks: seq<string>, init: seq<(int, real)>, last: (int, real))
    ensures MapHits(chunks, init + [last]) ==
      match MapHits(chunks, init)
      case None => None
      case Some(hits) =>
        if last.0 < |chunks| then
          match Get(chunks, last.0)
          case None => None
          case Some(c) => Some(hits + [Hit(c, last.1)])
        else Some(hits)
  {
    var ps := init + [last];
    assert ps[..|ps| - 1] == init && ps[|ps| - 1] == last;
  }

  lemma ZipThree(a: int, b: int, c: int, x: real, y: real, z: real)
    ensures Zip([a, b, c], [x, y, z]) == [(a, x), (b, y), (c, z)]
  {
    var ps := Zip([a, b, c], [x, y, z]);
    assert ps[0] == (a, x) && ps[1] == (b, y) && ps[2] == (c, z);
  }

  lemma MapHitsOne(chunks: seq<string>, p: int, d: real)
    requires 0 <= p < |chunks|
    ensures MapHits(chunks, [(p, d)]) == Some([Hit(chunks[p], d)])
  {
    MapHitsSnoc(chunks, [], (p, d));
    assert [] + [(p, d)] == [(p, d)];
    assert [] + [Hit(chunks[p], d)] == [Hit(chunks[p], d)];
  }

  /** An index holding fewer rows than k pads its answer with position -1, which
      passes the filter and reads the last chunk: with one row found at p, a
      search for three gives chunk p and then the last chunk twice. */
  lemma PaddingReadsLastChunk(chunks: seq<string>, p: int, d0: real, d1: real, d2: real)
    requires 0 <= p < |chunks|
    ensures MapHits(chunks, Zip([p, -1, -1], [d0, d1, d2])) ==
      Some([Hit(chunks[p], d0), Hit(chunks[|chunks| - 1], d1), Hit(chunks[|chunks| - 1], d2)])
  {
    var last := chunks[|chunks| - 1];
    var h0, h1, h2 := Hit(chunks[p], d0), Hit(last, d1), Hit(last, d2);
    var one: seq<(int, real)> := [(p, d0)];
    var two := one + [(-1, d1)];
    ZipThree(p, -1, -1, d0, d1, d2);
    assert two + [(-1, d2)] == [(p, d0), (-1, d1), (-1, d2)];
    MapHitsOne(chunks, p, d0);
    MapHitsSnoc(chunks, one, (-1, d1));
    assert [h0] + [h1] == [h0, h1];
    MapHitsSnoc(chunks, two, (-1, d2));
    assert [h0, h1] + [h2] == [h0, h1, h2];
  }

  /** Positions at or above n are all filtered out. */
  lemma {:induction false} NothingKept(n: nat, pairs: seq<(int, real)>)
    requires forall j :: 0 <= j < |pairs| ==> n <= pairs[j].0
    ensures Kept(n, pairs) == []
  {
    if |pairs| > 0 {
      NothingKept(n, pairs[..|pairs| - 1]);
    }
  }

  /** With no chunks every result position fails the filter or raises, so the
      search returns nothing. */
  lemma NoChunksNoResults(index: FlatIndex, encode: Encoder, knn: Knn, query: string, k: int)
    ensures SearchResults([], index, encode, knn, query, k) == []
  {
    var q := encode([query]);
    if q.Some? && knn(index, q.value, k).Some? {
      var found := knn(index, q.value, k).value;
      var pairs := Zip(found.0, found.1);
      MapHitsRaises([], pairs);
      if NoBadPosition(0, pairs) {
        MapHitsKept([], pairs);
        NothingKept(0, pairs);
      }
    }
  }
}
