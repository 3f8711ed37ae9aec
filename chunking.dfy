/** The while loop of `PDFProcessor.chunk_text`, as a state machine.

    The loop's state is its two variables, `start` and `chunks`; `StateAt(k)` is
    the state after k passes of the loop body. The loop goes on while
    the start is before the end of the text and fewer than `maxChunks` chunks have
    been collected. Whether it ever stops depends on the text, so the run is
    given fuel: the number of iterations allowed before reporting `OutOfFuel`. */
module Chunking {
  import opened Wrappers
  import opened PyStr

  /** The configuration fields the loop reads: chunk_size, chunk_overlap, max_chunks. */
  datatype Config = Config(size: nat, overlap: nat, maxChunks: nat)

  /** `end = start + chunk_size`, clipped to the text length. */
  function WindowEnd(n: nat, size: nat, start: int): (e: int)
    ensures e <= n
    ensures start < n ==> start <= e
  {
    if start + size > n then n else start + size
  }

  /** The loop variables `start` and `chunks`. */
  datatype LoopState = LoopState(start: int, chunks: seq<string>)

  /** `text[start:end]`, the window that starts at `start`. */
  function Window(text: string, size: nat, start: int): string
  {
    Slice(text, start, WindowEnd(|text|, size, start))
  }

  /** `start = end - chunk_overlap`: where the next window starts. */
  function NextStart(n: nat, cfg: Config, start: int): int
  {
    WindowEnd(n, cfg.size, start) - cfg.overlap
  }

  /** The value of `start` at the beginning of iteration k; it does not depend on
      the chunks. */
  function StartAt(text: string, cfg: Config, k: nat): int
  {
    if k == 0 then 0 else NextStart(|text|, cfg, StartAt(text, cfg, k - 1))
  }

  /** The window examined in iteration k. */
  function WindowAt(text: string, cfg: Config, k: nat): string
  {
    Window(text, cfg.size, StartAt(text, cfg, k))
  }

  /** The list `chunks` after k iterations. A window is appended when its strip()
      is non-empty, which is when it is not all whitespace (StripEmptyIffBlank). */
  function Collected(text: string, cfg: Config, k: nat): seq<string>
  {
    if k == 0 then []
    else
      var w := WindowAt(text, cfg, k - 1);
      if !Blank(w) then Collected(text, cfg, k - 1) + [w] else Collected(text, cfg, k - 1)
  }

  /** The loop variables after k passes, starting from `start = 0`, `chunks = []`. */
  function StateAt(text: string, cfg: Config, k: nat): LoopState
  {
    LoopState(StartAt(text, cfg, k), Collected(text, cfg, k))
  }

  /** The loop condition `start < text_length and len(chunks) < max_chunks` before iteration k. */
  predicate Continues(text: string, cfg: Config, k: nat)
  {
    StartAt(text, cfg, k) < |text| && |Collected(text, cfg, k)| < cfg.maxChunks
  }

  /** The loop runs exactly K iterations. */
  predicate StopsAt(text: string, cfg: Config, K: nat)
  {
    !Continues(text, cfg, K) && forall j :: 0 <= j < K ==> Continues(text, cfg, j)
  }

  /** The first iteration j in [k, k + fuel] before which the loop condition
      `cond(j)` is false: the iteration count at which a while loop stops, when it
      stops before running out of fuel. */
  function FirstStop(cond: nat -> bool, k: nat, fuel: nat): Option<nat>
    decreases fuel
  {
    if !cond(k) then Some(k)
    else if fuel == 0 then None
    else FirstStop(cond, k + 1, fuel - 1)
  }

  /** The loop condition as a function of the iteration count. */
  function LoopCondition(text: string, cfg: Config): (cond: nat -> bool)
    ensures forall j: nat :: cond(j) == Continues(text, cfg, j)
  {
    (j: nat) => Continues(text, cfg, j)
  }

  /** `chunk_text(text)` allowed at most `fuel` loop iterations: when the loop stops
      after K iterations the result is `chunks[:max_chunks]`. */
  function ChunkRun(text: string, cfg: Config, fuel: nat): Outcome<seq<string>>
  {
    match FirstStop(LoopCondition(text, cfg), 0, fuel)
    case Some(K) => Done(Slice(Collected(text, cfg, K), 0, cfg.maxChunks))
    case None => OutOfFuel
  }

  function Repeat<T>(x: T, m: nat): (r: seq<T>)
    ensures |r| == m && forall i :: 0 <= i < m ==> r[i] == x
  {
    if m == 0 then [] else Repeat(x, m - 1) + [x]
  }

  lemma AppendRepeat<T>(c: seq<T>, x: T, m: nat)
    ensures c + Repeat(x, m) + [x] == c + Repeat(x, m + 1)
  {
  }

  /** The window the loop settles on once a window has reached the end of the text. */
  function Tail(text: string, cfg: Config): string
  {
    Slice(text, |text| - cfg.overlap, |text|)
  }

  // ---------------------------------------------------------------------------
  // Bookkeeping facts about Collected

  lemma CollectedStep(text: string, cfg: Config, k: nat)
    ensures |Collected(text, cfg, k)| <= |Collected(text, cfg, k + 1)| <= |Collected(text, cfg, k)| + 1
  {
  }

  lemma {:induction false} CollectedMonotone(text: string, cfg: Config, i: nat, j: nat)
    requires i <= j
    ensures |Collected(text, cfg, i)| <= |Collected(text, cfg, j)|
    decreases j - i
  {
    if i < j {
      CollectedStep(text, cfg, i);
      CollectedMonotone(text, cfg, i + 1, j);
    }
  }

  /** While the loop runs, the cap is never exceeded, so the final `chunks[:max_chunks]` is the whole list. */
  lemma WithinCap(text: string, cfg: Config, K: nat)
    requires forall j :: 0 <= j < K ==> Continues(text, cfg, j)
    ensures |Collected(text, cfg, K)| <= cfg.maxChunks
  {
    if K > 0 {
      assert Continues(text, cfg, K - 1);
      CollectedStep(text, cfg, K - 1);
    }
  }

  // ---------------------------------------------------------------------------
  // When the run stops

  lemma {:induction false} FirstStopAt(cond: nat -> bool, k: nat, K: nat, fuel: nat)
    requires k <= K <= k + fuel
    requires forall j :: k <= j < K ==> cond(j)
    requires !cond(K)
    ensures FirstStop(cond, k, fuel) == Some(K)
    decreases K - k
  {
    if k < K {
      FirstStopAt(cond, k + 1, K, fuel - 1);
    }
  }

  lemma {:induction false} FirstStopSome(cond: nat -> bool, k: nat, fuel: nat)
    requires FirstStop(cond, k, fuel).Some?
    ensures var K := FirstStop(cond, k, fuel).value;
      k <= K <= k + fuel && !cond(K) && forall j :: k <= j < K ==> cond(j)
    decreases fuel
  {
    if cond(k) {
      FirstStopSome(cond, k + 1, fuel - 1);
    }
  }

  lemma {:induction false} FirstStopNone(cond: nat -> bool, k: nat, fuel: nat)
    ensures FirstStop(cond, k, fuel).None? <==> forall j :: k <= j <= k + fuel ==> cond(j)
    decreases fuel
  {
    if fuel > 0 {
      FirstStopNone(cond, k + 1, fuel - 1);
    }
  }

  /** cond(j) held for each j < k. */
  predicate HeldThrough(cond: nat -> bool, k: nat)
  {
    k == 0 || (HeldThrough(cond, k - 1) && cond(k - 1))
  }

  lemma {:induction false} HeldThroughAll(cond: nat -> bool, k: nat)
    ensures HeldThrough(cond, k) <==> forall j :: 0 <= j < k ==> cond(j)
  {
    if k > 0 {
      HeldThroughAll(cond, k - 1);
    }
  }

  /** A condition that held for each j <= fuel is never found false within the fuel. */
  lemma HeldThroughNone(cond: nat -> bool, fuel: nat)
    requires HeldThrough(cond, fuel) && cond(fuel)
    ensures FirstStop(cond, 0, fuel) == None
  {
    HeldThroughAll(cond, fuel);
    FirstStopNone(cond, 0, fuel);
  }

  /** The loop condition held before each of the first k iterations. */
  predicate ContinuedThrough(text: string, cfg: Config, k: nat)
  {
    HeldThrough(LoopCondition(text, cfg), k)
  }

  /** A loop that stops after k iterations, within the fuel, returns `chunks[:max_chunks]`. */
  lemma LoopExits(text: string, cfg: Config, k: nat, fuel: nat, start: int, chunks: seq<string>)
    requires LoopState(start, chunks) == StateAt(text, cfg, k)
    requires ContinuedThrough(text, cfg, k) && !(start < |text| && |chunks| < cfg.maxChunks) && k <= fuel
    ensures ChunkRun(text, cfg, fuel) == Done(Slice(chunks, 0, cfg.maxChunks))
  {
    var cond := LoopCondition(text, cfg);
    HeldThroughAll(cond, k);
    assert !Continues(text, cfg, k);
    FirstStopAt(cond, 0, k, fuel);
  }

  /** A loop still running once the fuel is spent is out of fuel. */
  lemma LoopOutOfFuel(text: string, cfg: Config, fuel: nat, start: int, chunks: seq<string>)
    requires LoopState(start, chunks) == StateAt(text, cfg, fuel)
    requires ContinuedThrough(text, cfg, fuel) && start < |text| && |chunks| < cfg.maxChunks
    ensures ChunkRun(text, cfg, fuel) == OutOfFuel
  {
    var cond := LoopCondition(text, cfg);
    assert Continues(text, cfg, fuel);
    HeldThroughNone(cond, fuel);
  }

  /** If the loop stops after K iterations and the fuel allows K iterations, the run
      returns the windows collected in those iterations. */
  lemma ChunkRunStops(text: string, cfg: Config, K: nat, fuel: nat)
    requires StopsAt(text, cfg, K) && K <= fuel
    ensures ChunkRun(text, cfg, fuel) == Done(Collected(text, cfg, K))
  {
    var cond := LoopCondition(text, cfg);
    assert forall j :: 0 <= j < K ==> cond(j);
    FirstStopAt(cond, 0, K, fuel);
    assert ChunkRun(text, cfg, fuel) == Done(Slice(Collected(text, cfg, K), 0, cfg.maxChunks));
    WithinCap(text, cfg, K);
    assert Slice(Collected(text, cfg, K), 0, cfg.maxChunks) == Collected(text, cfg, K);
  }

  /** If the loop condition holds before each of the first fuel + 1 iterations, the run is still going. */
  lemma ChunkRunContinues(text: string, cfg: Config, fuel: nat)
    requires forall j :: 0 <= j <= fuel ==> Continues(text, cfg, j)
    ensures ChunkRun(text, cfg, fuel) == OutOfFuel
  {
    FirstStopNone(LoopCondition(text, cfg), 0, fuel);
  }

  /** Conversely, a run that returns stopped after some K <= fuel iterations and
      returns the windows collected in them. */
  lemma ChunkRunReturns(text: string, cfg: Config, fuel: nat)
    requires ChunkRun(text, cfg, fuel).Done?
    ensures exists K :: (0 <= K <= fuel && StopsAt(text, cfg, K)
      && ChunkRun(text, cfg, fuel).value == Collected(text, cfg, K))
  {
    var cond := LoopCondition(text, cfg);
    FirstStopSome(cond, 0, fuel);
    var K := FirstStop(cond, 0, fuel).value;
    assert StopsAt(text, cfg, K);
    ChunkRunStops(text, cfg, K, fuel);
  }

  /** A run that is out of fuel found the loop condition true before each of the
      first fuel + 1 iterations. */
  lemma ChunkRunStillRunning(text: string, cfg: Config, fuel: nat)
    requires ChunkRun(text, cfg, fuel) == OutOfFuel
    ensures forall j :: 0 <= j <= fuel ==> Continues(text, cfg, j)
  {
    var cond := LoopCondition(text, cfg);
    FirstStopNone(cond, 0, fuel);
    assert forall j :: 0 <= j <= fuel ==> cond(j);
  }

  // ---------------------------------------------------------------------------
  // What a returned chunk is

  lemma {:induction false} CollectedAreWindows(text: string, cfg: Config, k: nat)
    ensures forall i :: 0 <= i < |Collected(text, cfg, k)| ==>
      exists j :: (0 <= j < k && Collected(text, cfg, k)[i] == WindowAt(text, cfg, j)
        && !Blank(WindowAt(text, cfg, j)))
  {
    if k > 0 {
      CollectedAreWindows(text, cfg, k - 1);
      var prev := Collected(text, cfg, k - 1);
      forall i | 0 <= i < |Collected(text, cfg, k)|
        ensures exists j :: (0 <= j < k && Collected(text, cfg, k)[i] == WindowAt(text, cfg, j)
          && !Blank(WindowAt(text, cfg, j)))
      {
        if i < |prev| {
          var j :| 0 <= j < k - 1 && prev[i] == WindowAt(text, cfg, j) && !Blank(WindowAt(text, cfg, j));
          assert Collected(text, cfg, k)[i] == prev[i];
        } else {
          var w := WindowAt(text, cfg, k - 1);
          assert !Blank(w) && Collected(text, cfg, k) == prev + [w];
          assert Collected(text, cfg, k)[i] == w;
        }
      }
    } else {
      assert Collected(text, cfg, k) == [];
    }
  }

  lemma WindowWithinSize(text: string, cfg: Config, j: nat)
    requires StartAt(text, cfg, j) < |text|
    ensures |WindowAt(text, cfg, j)| <= cfg.size
  {
    var s := StartAt(text, cfg, j);
    SliceLength(text, s, WindowEnd(|text|, cfg.size, s));
  }

  /** Every returned chunk is the window `text[start:min(start+chunk_size, len)]` of
      some iteration whose start was below len(text); it is not blank and not
      longer than chunk_size; and there are never more than max_chunks of them. */
  lemma ChunksAreNonBlankWindows(text: string, cfg: Config, fuel: nat)
    requires ChunkRun(text, cfg, fuel).Done?
    ensures |ChunkRun(text, cfg, fuel).value| <= cfg.maxChunks
    ensures forall i :: 0 <= i < |ChunkRun(text, cfg, fuel).value| ==>
      var c := ChunkRun(text, cfg, fuel).value[i];
      !Blank(c) && |c| <= cfg.size &&
      exists j :: 0 <= j < fuel && StartAt(text, cfg, j) < |text| && c == WindowAt(text, cfg, j)
  {
    ChunkRunReturns(text, cfg, fuel);
    var K :| 0 <= K <= fuel && StopsAt(text, cfg, K) && ChunkRun(text, cfg, fuel).value == Collected(text, cfg, K);
    var cs := Collected(text, cfg, K);
    WithinCap(text, cfg, K);
    CollectedAreWindows(text, cfg, K);
    forall i | 0 <= i < |cs|
      ensures !Blank(cs[i]) && |cs[i]| <= cfg.size &&
        exists j :: 0 <= j < fuel && StartAt(text, cfg, j) < |text| && cs[i] == WindowAt(text, cfg, j)
    {
      var j :| 0 <= j < K && cs[i] == WindowAt(text, cfg, j) && !Blank(WindowAt(text, cfg, j));
      assert Continues(text, cfg, j);
      WindowWithinSize(text, cfg, j);
    }
  }

  // ---------------------------------------------------------------------------
  // How the window start moves

  /** Until some window reaches the end of the text, the k-th start is
      k * (chunk_size - chunk_overlap). */
  lemma {:induction false} StartsAdvanceByStep(text: string, cfg: Config, k: nat)
    requires forall j :: 0 <= j < k ==> StartAt(text, cfg, j) + cfg.size < |text|
    ensures StartAt(text, cfg, k) == k * (cfg.size - cfg.overlap)
  {
    if k > 0 {
      StartsAdvanceByStep(text, cfg, k - 1);
      assert StartAt(text, cfg, k - 1) + cfg.size < |text|;
    }
  }

  /** Two windows `overlap` apart from the end of the first: the second begins with
      the first's last `overlap` characters, and gluing the first to the rest of the
      second gives the text they span back. */
  lemma WindowsOverlap(text: string, size: nat, overlap: nat, s: int)
    requires 0 <= s && overlap <= size && s + size < |text|
    ensures var t := s + size - overlap; var w, v := Window(text, size, s), Window(text, size, t);
      w == text[s..s + size] && |v| >= overlap &&
      v[..overlap] == w[size - overlap..] &&
      w + v[overlap..] == text[s..WindowEnd(|text|, size, t)]
  {
    var t := s + size - overlap;
    var e := WindowEnd(|text|, size, t);
    assert Window(text, size, t) == text[t..e];
    assert text[s..e] == text[s..t] + text[t..e];
    assert text[s..s + size] == text[s..t] + text[t..s + size];
  }

  /** The windowing law: while no window has reached the end of the text, window k
      is `text[start:start+chunk_size]`, window k + 1 begins with its last
      chunk_overlap characters, and the two glued at the overlap give back the text
      from window k's start to window k + 1's end. */
  lemma ConsecutiveWindowsOverlap(text: string, cfg: Config, k: nat)
    requires cfg.overlap <= cfg.size
    requires forall j :: 0 <= j <= k ==> StartAt(text, cfg, j) + cfg.size < |text|
    ensures var s, w, v := StartAt(text, cfg, k), WindowAt(text, cfg, k), WindowAt(text, cfg, k + 1);
      0 <= s && w == text[s..s + cfg.size] && |v| >= cfg.overlap &&
      v[..cfg.overlap] == w[cfg.size - cfg.overlap..] &&
      w + v[cfg.overlap..] == text[s..WindowEnd(|text|, cfg.size, StartAt(text, cfg, k + 1))]
  {
    NextStartInside(text, cfg, k);
    WindowsOverlap(text, cfg.size, cfg.overlap, StartAt(text, cfg, k));
  }

  /** While no window has reached the end, the starts are non-negative and step
      by chunk_size - chunk_overlap. */
  lemma NextStartInside(text: string, cfg: Config, k: nat)
    requires cfg.overlap <= cfg.size
    requires forall j :: 0 <= j <= k ==> StartAt(text, cfg, j) + cfg.size < |text|
    ensures 0 <= StartAt(text, cfg, k) && StartAt(text, cfg, k) + cfg.size < |text|
    ensures StartAt(text, cfg, k + 1) == StartAt(text, cfg, k) + cfg.size - cfg.overlap
  {
    StartsAdvanceByStep(text, cfg, k);
    assert StartAt(text, cfg, k) + cfg.size < |text|;
  }

  /** With a positive overlap every start after the first is at most
      `len(text) - chunk_overlap`, so `start < text_length` never fails on a non-empty text. */
  lemma StartsBelowLength(text: string, cfg: Config, k: nat)
    requires cfg.overlap > 0 && |text| > 0
    ensures StartAt(text, cfg, k) < |text|
  {
  }

  /** Consequently, a run on a non-empty text with a positive overlap can only return
      once max_chunks chunks have been collected. */
  lemma StopsOnlyAtCap(text: string, cfg: Config, fuel: nat)
    requires cfg.overlap > 0 && |text| > 0
    requires ChunkRun(text, cfg, fuel).Done?
    ensures |ChunkRun(text, cfg, fuel).value| == cfg.maxChunks
  {
    ChunkRunReturns(text, cfg, fuel);
    var K :| 0 <= K <= fuel && StopsAt(text, cfg, K) && ChunkRun(text, cfg, fuel).value == Collected(text, cfg, K);
    StartsBelowLength(text, cfg, K);
    WithinCap(text, cfg, K);
  }

  /** An empty text gives no chunks: the loop condition fails at once. */
  lemma EmptyTextGivesNothing(cfg: Config, fuel: nat)
    ensures ChunkRun("", cfg, fuel) == Done([])
  {
    assert StopsAt("", cfg, 0);
    ChunkRunStops("", cfg, 0, fuel);
  }

  /** When the overlap is less than the size, some window reaches the end of the text:
      the first such iteration k, found by walking forward from iteration i. */
  lemma {:induction false} WindowReachesEndFrom(text: string, cfg: Config, i: nat) returns (k: nat)
    requires cfg.overlap < cfg.size
    requires forall j :: 0 <= j < i ==> StartAt(text, cfg, j) + cfg.size < |text|
    ensures i <= k
    ensures StartAt(text, cfg, k) + cfg.size >= |text|
    ensures forall j :: 0 <= j < k ==> StartAt(text, cfg, j) + cfg.size < |text|
    decreases |text| - StartAt(text, cfg, i)
  {
    if StartAt(text, cfg, i) + cfg.size >= |text| {
      k := i;
    } else {
      assert StartAt(text, cfg, i + 1) > StartAt(text, cfg, i);
      k := WindowReachesEndFrom(text, cfg, i + 1);
    }
  }

  /** The first iteration whose window reaches the end of the text, when the
      overlap is less than the size. */
  lemma WindowReachesEnd(text: string, cfg: Config) returns (k: nat)
    requires cfg.overlap < cfg.size
    ensures StartAt(text, cfg, k) + cfg.size >= |text|
    ensures forall j :: 0 <= j < k ==> StartAt(text, cfg, j) + cfg.size < |text|
    ensures StartAt(text, cfg, k) == k * (cfg.size - cfg.overlap)
  {
    k := WindowReachesEndFrom(text, cfg, 0);
    StartsAdvanceByStep(text, cfg, k);
  }

  /** A text shorter than the overlap (and no longer than the size) sends start below
      zero after the first window; Python's slice then counts the negative start
      from the end of the text and clamps it at 0. */
  lemma NegativeStart(text: string, cfg: Config)
    requires 0 < |text| < cfg.overlap <= cfg.size
    ensures StartAt(text, cfg, 1) == |text| - cfg.overlap < 0
    ensures var n := |text|;
      WindowAt(text, cfg, 1) == text[(if 2 * n >= cfg.overlap then 2 * n - cfg.overlap else 0)..]
  {
    StartsAtTail(text, cfg, 0, 1);
    WindowAtTail(text, cfg);
  }

  // ---------------------------------------------------------------------------
  // Runs that never stop, and runs that repeat the tail

  lemma {:induction false} BlankTextCollectsNothing(text: string, cfg: Config, k: nat)
    requires Blank(text)
    ensures Collected(text, cfg, k) == []
  {
    if k > 0 {
      BlankTextCollectsNothing(text, cfg, k - 1);
      var s := StartAt(text, cfg, k - 1);
      SliceOfBlank(text, s, WindowEnd(|text|, cfg.size, s));
    }
  }

  /** A non-empty all-whitespace text never leaves the loop when the overlap and the
      cap are positive: nothing is ever appended and the start never reaches the end. */
  lemma BlankTextNeverStops(text: string, cfg: Config, fuel: nat)
    requires |text| > 0 && Blank(text)
    requires cfg.overlap > 0 && cfg.maxChunks > 0
    ensures ChunkRun(text, cfg, fuel) == OutOfFuel
  {
    forall j | 0 <= j <= fuel ensures Continues(text, cfg, j) {
      BlankTextCollectsNothing(text, cfg, j);
      StartsBelowLength(text, cfg, j);
    }
    ChunkRunContinues(text, cfg, fuel);
  }

  /** One pass of the loop body, run while the loop condition holds, takes the
      state after k passes to the state after k + 1 passes. */
  lemma LoopStep(text: string, cfg: Config, k: nat, start: int, chunks: seq<string>, end: int, chunk: string)
    requires LoopState(start, chunks) == StateAt(text, cfg, k) && ContinuedThrough(text, cfg, k)
    requires start < |text| && |chunks| < cfg.maxChunks
    requires end == WindowEnd(|text|, cfg.size, start) && chunk == Slice(text, start, end)
    ensures ContinuedThrough(text, cfg, k + 1)
    ensures StateAt(text, cfg, k + 1) == LoopState(end - cfg.overlap, if Strip(chunk) != "" then chunks + [chunk] else chunks)
  {
    StripEmptyIffBlank(chunk);
  }

  /** The window that starts at `len(text) - chunk_overlap` is the tail. */
  lemma WindowAtTail(text: string, cfg: Config)
    requires cfg.overlap <= cfg.size
    ensures Window(text, cfg.size, |text| - cfg.overlap) == Tail(text, cfg)
  {
  }

  /** Once the window of iteration k reaches the end of the text (and the overlap is
      at most the size), every later iteration starts at `len(text) - chunk_overlap`. */
  lemma {:induction false} StartsAtTail(text: string, cfg: Config, k: nat, j: nat)
    requires cfg.overlap <= cfg.size
    requires StartAt(text, cfg, k) + cfg.size >= |text|
    requires k < j
    ensures StartAt(text, cfg, j) == |text| - cfg.overlap
  {
    if j > k + 1 {
      StartsAtTail(text, cfg, k, j - 1);
    }
  }

  /** The windows `w(0), ..., w(k-1)` that pass `keep`, in order: the list a loop
      builds when pass j examines w(j) and appends it when keep(w(j)). */
  function Gather<T>(w: nat -> T, keep: T -> bool, k: nat): seq<T>
  {
    if k == 0 then [] else Gather(w, keep, k - 1) + if keep(w(k - 1)) then [w(k - 1)] else []
  }

  /** If passes a .. b - 1 all examine the same x, they append b - a copies of x or nothing. */
  lemma {:induction false} GatherConstant<T>(w: nat -> T, keep: T -> bool, a: nat, b: nat, x: T)
    requires a <= b
    requires forall i: nat :: a <= i < b ==> w(i) == x
    ensures Gather(w, keep, b) == Gather(w, keep, a) + if keep(x) then Repeat(x, b - a) else []
    decreases b
  {
    if a < b {
      GatherConstant(w, keep, a, b - 1, x);
      assert w(b - 1) == x;
      if keep(x) {
        AppendRepeat(Gather(w, keep, a), x, b - 1 - a);
      }
    }
  }

  /** The windows as a function of the iteration count. */
  function Windows(text: string, cfg: Config): (w: nat -> string)
    ensures forall j: nat :: w(j) == WindowAt(text, cfg, j)
  {
    (j: nat) => WindowAt(text, cfg, j)
  }

  /** The test `chunk.strip()`, as the blank test it is equivalent to. */
  function KeepChunk(): (keep: string -> bool)
    ensures forall c :: keep(c) == !Blank(c)
  {
    c => !Blank(c)
  }

  /** The list `chunks` is the windows gathered by that test. */
  lemma {:induction false} CollectedIsGather(text: string, cfg: Config, k: nat)
    ensures Collected(text, cfg, k) == Gather(Windows(text, cfg), KeepChunk(), k)
  {
    if k > 0 {
      CollectedIsGather(text, cfg, k - 1);
      var w, keep, x := Windows(text, cfg), KeepChunk(), WindowAt(text, cfg, k - 1);
      assert w(k - 1) == x;
      assert Gather(w, keep, k) == Gather(w, keep, k - 1) + if keep(x) then [x] else [];
    }
  }

  /** The windows of iterations k + 1 .. j - 1 are all the tail. */
  lemma WindowsAtTail(text: string, cfg: Config, k: nat, j: nat)
    requires cfg.overlap <= cfg.size
    requires StartAt(text, cfg, k) + cfg.size >= |text|
    ensures forall i: nat :: k + 1 <= i < j ==> Windows(text, cfg)(i) == Tail(text, cfg)
  {
    forall i: nat | k + 1 <= i < j
      ensures Windows(text, cfg)(i) == Tail(text, cfg)
    {
      StartsAtTail(text, cfg, k, i);
      WindowAtTail(text, cfg);
    }
  }

  /** Each of those iterations appends the tail when it is not blank: by iteration
      j > k, j - (k + 1) more copies of the tail have been collected. */
  lemma AfterTail(text: string, cfg: Config, k: nat, j: nat)
    requires cfg.overlap <= cfg.size
    requires StartAt(text, cfg, k) + cfg.size >= |text|
    requires k < j
    ensures var t := Tail(text, cfg);
      Collected(text, cfg, j) == Collected(text, cfg, k + 1) + if !Blank(t) then Repeat(t, j - (k + 1)) else []
  {
    WindowsAtTail(text, cfg, k, j);
    GatherConstant(Windows(text, cfg), KeepChunk(), k + 1, j, Tail(text, cfg));
    CollectedIsGather(text, cfg, j);
    CollectedIsGather(text, cfg, k + 1);
  }

  /** Before the cap is reached, the loop condition holds at every iteration of a
      non-empty text with a positive overlap. */
  lemma ContinuesBelowCap(text: string, cfg: Config, k: nat, j: nat)
    requires |text| > 0 && 0 < cfg.overlap <= cfg.size
    requires StartAt(text, cfg, k) + cfg.size >= |text|
    requires !Blank(Tail(text, cfg)) ==> j < k + 1 + (cfg.maxChunks - |Collected(text, cfg, k + 1)|)
    requires |Collected(text, cfg, k + 1)| < cfg.maxChunks
    ensures Continues(text, cfg, j)
  {
    StartsBelowLength(text, cfg, j);
    if j <= k + 1 {
      CollectedMonotone(text, cfg, j, k + 1);
    } else {
      AfterTail(text, cfg, k, j);
    }
  }

  /** Once a window has reached the end of the text, a blank tail means the loop
      never returns, provided the cap has not been reached yet. */
  lemma BlankTailNeverStops(text: string, cfg: Config, k: nat, fuel: nat)
    requires |text| > 0 && 0 < cfg.overlap <= cfg.size
    requires StartAt(text, cfg, k) + cfg.size >= |text|
    requires Blank(Tail(text, cfg))
    requires |Collected(text, cfg, k + 1)| < cfg.maxChunks
    ensures ChunkRun(text, cfg, fuel) == OutOfFuel
  {
    forall j | 0 <= j <= fuel ensures Continues(text, cfg, j) {
      ContinuesBelowCap(text, cfg, k, j);
    }
    ChunkRunContinues(text, cfg, fuel);
  }

  /** Once a window has reached the end of the text, a non-blank tail is appended
      on every further iteration until the cap is met; the run with enough fuel
      returns the chunks collected so far followed by copies of the tail, and any
      run with less fuel is still going. */
  lemma TailFillsToCap(text: string, cfg: Config, k: nat, fuel: nat)
    requires |text| > 0 && 0 < cfg.overlap <= cfg.size
    requires StartAt(text, cfg, k) + cfg.size >= |text|
    requires !Blank(Tail(text, cfg))
    requires |Collected(text, cfg, k + 1)| < cfg.maxChunks
    ensures var m := |Collected(text, cfg, k + 1)|;
      var K := k + 1 + (cfg.maxChunks - m);
      ChunkRun(text, cfg, fuel) ==
        if fuel < K then OutOfFuel
        else Done(Collected(text, cfg, k + 1) + Repeat(Tail(text, cfg), cfg.maxChunks - m))
  {
    var m := |Collected(text, cfg, k + 1)|;
    var K := k + 1 + (cfg.maxChunks - m);
    forall j | 0 <= j < K ensures Continues(text, cfg, j) {
      ContinuesBelowCap(text, cfg, k, j);
    }
    AfterTail(text, cfg, k, K);
    if fuel < K {
      ChunkRunContinues(text, cfg, fuel);
    } else {
      assert StopsAt(text, cfg, K);
      ChunkRunStops(text, cfg, K, fuel);
    }
  }
}
