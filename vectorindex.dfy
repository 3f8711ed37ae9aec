/** The flat L2 index and what `build_index` does to it.

    Only the index's bookkeeping matters here: its width and its rows, in the
    order they were added. Distances and ranking belong to the library and are an
    oracle (see Retrieval). */
module VectorIndex {
  import opened Wrappers
  import opened Embedding

  /** `faiss.IndexFlatL2(dim)` after some calls to `add`. */
  datatype FlatIndex = FlatIndex(dim: nat, rows: seq<Vector>)

  /** Every row of e has width d: `np.array(e)` is a matrix with `shape[1] == d`. */
  predicate Rectangular(e: seq<Vector>, d: nat)
  {
    forall j :: 0 <= j < |e| ==> |e[j]| == d
  }

  /** Every row of the index has its width. */
  predicate WellShaped(idx: FlatIndex)
  {
    Rectangular(idx.rows, idx.dim)
  }

  /** `index.add(x)`: the rows are appended when x is a non-empty matrix of the
      index's width; otherwise the call raises (an empty list gives a
      one-dimensional array, whose shape does not unpack into rows and columns). */
  function Add(idx: FlatIndex, e: seq<Vector>): Option<FlatIndex>
  {
    if |e| > 0 && Rectangular(e, idx.dim) then Some(FlatIndex(idx.dim, idx.rows + e)) else None
  }

  /** Two matrices stacked are a matrix of width d exactly when each is. */
  lemma RectangularAppend(e1: seq<Vector>, e2: seq<Vector>, d: nat)
    ensures Rectangular(e1 + e2, d) <==> Rectangular(e1, d) && Rectangular(e2, d)
  {
    forall j | 0 <= j < |e1| ensures (e1 + e2)[j] == e1[j] { }
    forall j | 0 <= j < |e2| ensures (e1 + e2)[|e1| + j] == e2[j] { }
    if Rectangular(e1, d) && Rectangular(e2, d) {
      forall j | 0 <= j < |e1 + e2| ensures |(e1 + e2)[j]| == d {
        if j >= |e1| {
          assert (e1 + e2)[|e1| + (j - |e1|)] == e2[j - |e1|];
        }
      }
    }
  }

  /** Adding two non-empty batches one after the other is adding them stacked in
      one call: both ways succeed together, and then give the same index, with the
      old rows first and the new ones in order after them. */
  lemma AddTwice(idx: FlatIndex, e1: seq<Vector>, e2: seq<Vector>)
    requires |e1| > 0 && |e2| > 0
    ensures Add(idx, e1 + e2).Some? <==> Add(idx, e1).Some? && Add(Add(idx, e1).value, e2).Some?
    ensures Add(idx, e1).Some? && Add(Add(idx, e1).value, e2).Some? ==>
      Add(Add(idx, e1).value, e2) == Add(idx, e1 + e2) &&
      Add(idx, e1 + e2).value.rows == idx.rows + e1 + e2
  {
    RectangularAppend(e1, e2, idx.dim);
    assert idx.rows + e1 + e2 == idx.rows + (e1 + e2);
  }

  /** The two fields build_index updates. */
  datatype IndexState = IndexState(index: FlatIndex, initialized: bool)

  /** `build_index(e)`. On the first call with a non-empty e the index is replaced by
      a fresh one of e's width and the flag is set before `add` runs, so a failing
      `add` leaves the fresh, empty index and the flag set. An empty e raises at
      `shape[1]` before anything changes. Every exception is swallowed. */
  function Build(s: IndexState, e: seq<Vector>): IndexState
  {
    if !s.initialized then
      if |e| == 0 then s
      else
        var empty := FlatIndex(|e[0]|, []);
        match Add(empty, e)
        case Some(idx) => IndexState(idx, true)
        case None => IndexState(empty, true)
    else
      match Add(s.index, e)
      case Some(idx) => IndexState(idx, true)
      case None => s
  }

  /** The first call with embeddings sets the flag and the width of the first
      row, and holds exactly those embeddings when they are a matrix; an empty
      call changes nothing. */
  lemma BuildFirst(s: IndexState, e: seq<Vector>)
    requires !s.initialized
    ensures |e| == 0 ==> Build(s, e) == s
    ensures |e| > 0 ==>
      Build(s, e).initialized && Build(s, e).index.dim == |e[0]| &&
      Build(s, e).index.rows == (if Rectangular(e, |e[0]|) then e else [])
  {
  }

  /** Later calls keep the flag and the width, and only ever append: the earlier
      rows stay, in order, and the new ones follow when `add` succeeds. */
  lemma BuildLater(s: IndexState, e: seq<Vector>)
    requires s.initialized
    ensures Build(s, e).initialized && Build(s, e).index.dim == s.index.dim
    ensures Build(s, e).index.rows ==
      if |e| > 0 && Rectangular(e, s.index.dim) then s.index.rows + e else s.index.rows
  {
  }

  /** Every row of the index always has the index's width. */
  lemma BuildWellShaped(s: IndexState, e: seq<Vector>)
    requires s.initialized ==> WellShaped(s.index)
    ensures Build(s, e).initialized ==> WellShaped(Build(s, e).index)
  {
  }

  /** Two builds of matrices of the same width on a fresh state give an index of
      that width holding both, in order. */
  lemma BuildTwice(s: IndexState, e1: seq<Vector>, e2: seq<Vector>, d: nat)
    requires !s.initialized
    requires |e1| > 0 && |e2| > 0 && Rectangular(e1, d) && Rectangular(e2, d)
    ensures Build(Build(s, e1), e2) == IndexState(FlatIndex(d, e1 + e2), true)
  {
    BuildFirst(s, e1);
    BuildLater(Build(s, e1), e2);
  }
}
