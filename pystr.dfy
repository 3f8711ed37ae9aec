/** The parts of Python's sequence and string semantics that the processor relies on:
    slicing with negative or out-of-range bounds, list indexing with negative
    positions, `str.isspace` and `str.strip`. */
module PyStr {
  import opened Wrappers

  /** Python's normalisation of a slice bound for a sequence of length n:
      a negative bound counts from the end, and the result is clamped to [0, n]. */
  function SliceBound(i: int, n: nat): (r: nat)
    ensures r <= n
  {
    if i < 0 then (if i + n < 0 then 0 else i + n)
    else if i > n then n
    else i
  }

  /** `s[i:j]` in Python. */
  function Slice<T>(s: seq<T>, i: int, j: int): seq<T>
  {
    var a, b := SliceBound(i, |s|), SliceBound(j, |s|);
    if a < b then s[a..b] else []
  }

  /** How `s[i:j]` reads its bounds: in range it is the plain subsequence; a
      negative bound down to -len(s) means the same as that bound plus len(s);
      a start below -len(s) is the start of s and an end beyond len(s) is its end;
      a non-negative end at or before the start gives nothing. */
  lemma SliceNormalises<T>(s: seq<T>, i: int, j: int)
    ensures 0 <= i <= j <= |s| ==> Slice(s, i, j) == s[i..j]
    ensures -|s| <= i < 0 ==> Slice(s, i, j) == Slice(s, i + |s|, j)
    ensures -|s| <= j < 0 ==> Slice(s, i, j) == Slice(s, i, j + |s|)
    ensures i < -|s| ==> Slice(s, i, j) == Slice(s, 0, j)
    ensures j > |s| ==> Slice(s, i, j) == Slice(s, i, |s|)
    ensures 0 <= j <= i ==> Slice(s, i, j) == []
  {
  }

  /** A slice with i <= j is never longer than j - i, whatever the signs of the bounds. */
  lemma SliceLength<T>(s: seq<T>, i: int, j: int)
    requires i <= j
    ensures |Slice(s, i, j)| <= j - i
  {
  }

  /** `lst[idx]` in Python: a negative position counts from the end; anything
      outside [-len, len) raises IndexError, modelled as None. */
  function Get<T>(s: seq<T>, idx: int): Option<T>
  {
    if 0 <= idx < |s| then Some(s[idx])
    else if -|s| <= idx < 0 then Some(s[|s| + idx])
    else None
  }

  /** A negative position down to -len(s) reads the same element as that position
      plus len(s); every element read is one of s's; and reading fails exactly
      outside [-len(s), len(s)). */
  lemma GetNegative<T>(s: seq<T>, idx: int)
    ensures -|s| <= idx < 0 ==> Get(s, idx) == Get(s, idx + |s|)
    ensures Get(s, idx).Some? <==> -|s| <= idx < |s|
    ensures Get(s, idx).Some? ==> Get(s, idx).value in s
  {
  }

  /** `c.isspace()` in Python: the characters whose Unicode bidirectional class is
      WS, B or S, or whose general category is Zs. */
  predicate IsSpace(c: char)
  {
    ('\t' <= c <= '\r') || ('\U{1c}' <= c <= ' ') || c == '\U{85}' || c == '\U{a0}'
    || c == '\U{1680}' || ('\U{2000}' <= c <= '\U{200a}') || c == '\U{2028}' || c == '\U{2029}'
    || c == '\U{202f}' || c == '\U{205f}' || c == '\U{3000}'
  }

  /** Every character of s is whitespace (true of the empty string). */
  predicate Blank(s: string)
  {
    forall i :: 0 <= i < |s| ==> IsSpace(s[i])
  }

  function LStrip(s: string): string
  {
    if |s| > 0 && IsSpace(s[0]) then LStrip(s[1..]) else s
  }

  function RStrip(s: string): string
  {
    if |s| > 0 && IsSpace(s[|s| - 1]) then RStrip(s[..|s| - 1]) else s
  }

  /** `s.strip()` in Python with no argument. */
  function Strip(s: string): string
  {
    RStrip(LStrip(s))
  }

  lemma {:induction false} LStripEmptyIffBlank(s: string)
    ensures LStrip(s) == "" <==> Blank(s)
    ensures LStrip(s) != "" ==> !IsSpace(LStrip(s)[0])
    decreases |s|
  {
    if |s| > 0 && IsSpace(s[0]) {
      LStripEmptyIffBlank(s[1..]);
      assert Blank(s) <==> Blank(s[1..]) by {
        if Blank(s[1..]) {
          forall i | 0 <= i < |s| ensures IsSpace(s[i]) {
            if i > 0 { assert s[i] == s[1..][i - 1]; }
          }
        }
      }
    }
  }

  lemma {:induction false} RStripKeepsFirst(s: string)
    requires s != "" && !IsSpace(s[0])
    ensures RStrip(s) != ""
    decreases |s|
  {
    if IsSpace(s[|s| - 1]) {
      assert |s| > 1;
      RStripKeepsFirst(s[..|s| - 1]);
    }
  }

  /** `if chunk.strip():` is false exactly when the chunk is empty or all whitespace. */
  lemma StripEmptyIffBlank(s: string)
    ensures Strip(s) == "" <==> Blank(s)
  {
    LStripEmptyIffBlank(s);
    if LStrip(s) != "" {
      RStripKeepsFirst(LStrip(s));
    }
  }

  /** Any slice of a blank string is blank. */
  lemma SliceOfBlank(s: string, i: int, j: int)
    requires Blank(s)
    ensures Blank(Slice(s, i, j))
  {
    var a, b := SliceBound(i, |s|), SliceBound(j, |s|);
    if a < b {
      forall p | 0 <= p < b - a ensures IsSpace(s[a..b][p]) {
        assert s[a..b][p] == s[a + p];
      }
    }
  }
}
