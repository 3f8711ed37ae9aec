/** `for i in range(0, len(s), size)` taking the batch `s[i:i + size]` at each step:
    the pattern the processor uses for pages and for chunks. */
module Batching {
  import opened Wrappers
  import opened PyStr

  /** The batches `s[i:i + size]` for i = start, start + size, ... while i < len(s). */
  function BatchesFrom<T>(s: seq<T>, size: nat, start: nat): seq<seq<T>>
    requires size > 0
    decreases |s| - start
  {
    if start >= |s| then [] else [Slice(s, start, start + size)] + BatchesFrom(s, size, start + size)
  }

  function Batches<T>(s: seq<T>, size: nat): seq<seq<T>>
    requires size > 0
  {
    BatchesFrom(s, size, 0)
  }

  /** The concatenation of a list of lists, in order. */
  function Flatten<T>(xs: seq<seq<T>>): seq<T>
  {
    if |xs| == 0 then [] else xs[0] + Flatten(xs[1..])
  }

  lemma {:induction false} FlattenAppend<T>(a: seq<seq<T>>, b: seq<seq<T>>)
    ensures Flatten(a + b) == Flatten(a) + Flatten(b)
  {
    if |a| > 0 {
      assert (a + b)[1..] == a[1..] + b;
      FlattenAppend(a[1..], b);
    } else {
      assert a + b == b;
    }
  }

  /** The batch at start is `s[start:min(start + size, len(s))]`. */
  lemma BatchAt<T>(s: seq<T>, size: nat, start: nat)
    requires start < |s|
    ensures Slice(s, start, start + size) == s[start..Min(start + size, |s|)]
  {
  }

  /** The batches from start cover `s[start:]` exactly once, in order. */
  lemma {:induction false} BatchesFromCover<T>(s: seq<T>, size: nat, start: nat)
    requires size > 0 && start <= |s|
    ensures Flatten(BatchesFrom(s, size, start)) == s[start..]
    decreases |s| - start
  {
    if start < |s| {
      var next := Min(start + size, |s|);
      BatchAt(s, size, start);
      if start + size <= |s| {
        BatchesFromCover(s, size, start + size);
      } else {
        assert BatchesFrom(s, size, start + size) == [];
      }
      assert s[start..] == s[start..next] + s[next..];
    }
  }

  /** Every element of s is in exactly one batch and the batches keep s's order:
      concatenated, they give s back. */
  lemma BatchesCover<T>(s: seq<T>, size: nat)
    requires size > 0
    ensures Flatten(Batches(s, size)) == s
  {
    BatchesFromCover(s, size, 0);
  }

  lemma StepOffset(start: nat, size: nat, t: nat)
    requires t > 0
    ensures start + t * size == (start + size) + (t - 1) * size
  {
  }

  /** Batch t is `s[start + t*size : min(start + (t+1)*size, len(s))]`, so it is never
      empty and holds at most size elements. */
  lemma {:induction false} BatchesFromElement<T>(s: seq<T>, size: nat, start: nat, t: nat)
    requires size > 0
    requires t < |BatchesFrom(s, size, start)|
    ensures var lo := start + t * size;
      lo < |s| && BatchesFrom(s, size, start)[t] == s[lo..Min(lo + size, |s|)]
    decreases t
  {
    if t == 0 {
      BatchAt(s, size, start);
    } else {
      BatchesFromElement(s, size, start + size, t - 1);
      StepOffset(start, size, t);
    }
  }

  /** There are ceil((len(s) - start) / size) batches: the last one starts before
      the end and the next would not. */
  lemma {:induction false} BatchesFromCount<T>(s: seq<T>, size: nat, start: nat)
    requires size > 0
    ensures var m := |BatchesFrom(s, size, start)|;
      (start >= |s| ==> m == 0) &&
      (start < |s| ==> m > 0 && start + (m - 1) * size < |s| <= start + m * size)
    decreases |s| - start
  {
    if start < |s| {
      BatchesFromCount(s, size, start + size);
      var m := |BatchesFrom(s, size, start)|;
      if m > 1 {
        StepOffset(start, size, m - 1);
        StepOffset(start, size, m);
      }
    }
  }

  /** The batches of the whole sequence: batch t is `s[t*size : min((t+1)*size, len(s))]`,
      and there are ceil(len(s) / size) of them. */
  lemma BatchesShape<T>(s: seq<T>, size: nat)
    requires size > 0
    ensures forall t :: 0 <= t < |Batches(s, size)| ==>
      t * size < |s| && Batches(s, size)[t] == s[t * size..Min(t * size + size, |s|)]
    ensures var m := |Batches(s, size)|;
      (|s| == 0 ==> m == 0) && (|s| > 0 ==> m > 0 && (m - 1) * size < |s| <= m * size)
  {
    forall t | 0 <= t < |Batches(s, size)|
      ensures t * size < |s| && Batches(s, size)[t] == s[t * size..Min(t * size + size, |s|)]
    {
      BatchesFromElement(s, size, 0, t);
    }
    BatchesFromCount(s, size, 0);
  }
}
