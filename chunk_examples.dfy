/** Concrete runs of the chunking loop. */
module ChunkExamples {
  import opened Wrappers
  import opened PyStr
  import opened Chunking

  /** "AA" is not blank: its first character is not whitespace. */
  lemma NotBlankAt(s: string, i: nat)
    requires i < |s| && !IsSpace(s[i])
    ensures !Blank(s) && Strip(s) != ""
  {
    StripEmptyIffBlank(s);
  }

  /** The windows of the first three iterations on nineteen characters with
      chunk_size 8 and chunk_overlap 2: they start at 0, 6 and 12, and the tail
      is "DD". */
  lemma FourBlocksWindows(m: nat)
    ensures var text, cfg := "AAAA BBBB CCCC DDDD", Config(8, 2, m);
      StartAt(text, cfg, 2) == 12 &&
      WindowAt(text, cfg, 0) == "AAAA BBB" &&
      WindowAt(text, cfg, 1) == "BBB CCCC" &&
      WindowAt(text, cfg, 2) == "CC DDDD" &&
      Tail(text, cfg) == "DD"
  {
    var text := "AAAA BBBB CCCC DDDD";
    var cfg := Config(8, 2, m);
    assert StartAt(text, cfg, 1) == 6;
    assert StartAt(text, cfg, 2) == 12;
    assert WindowAt(text, cfg, 0) == text[0..8] == "AAAA BBB";
    assert WindowAt(text, cfg, 1) == text[6..14] == "BBB CCCC";
    assert WindowAt(text, cfg, 2) == text[12..19] == "CC DDDD";
    assert Tail(text, cfg) == text[17..19] == "DD";
  }

  /** All three windows are kept. */
  lemma FourBlocksPrefix(m: nat)
    ensures var text, cfg := "AAAA BBBB CCCC DDDD", Config(8, 2, m);
      StartAt(text, cfg, 2) == 12 &&
      Collected(text, cfg, 3) == ["AAAA BBB", "BBB CCCC", "CC DDDD"] &&
      Tail(text, cfg) == "DD"
  {
    var text := "AAAA BBBB CCCC DDDD";
    var cfg := Config(8, 2, m);
    FourBlocksWindows(m);
    NotBlankAt("AAAA BBB", 0);
    NotBlankAt("BBB CCCC", 0);
    NotBlankAt("CC DDDD", 0);
    assert Collected(text, cfg, 1) == ["AAAA BBB"];
    assert Collected(text, cfg, 2) == ["AAAA BBB", "BBB CCCC"];
  }

  /** From then on the start stays at 17, so the two-character tail "DD" is appended
      until max_chunks chunks exist; with less fuel than that the loop is still running. */
  lemma FourBlocksExample(m: nat, fuel: nat)
    requires m >= 4
    ensures ChunkRun("AAAA BBBB CCCC DDDD", Config(8, 2, m), fuel) ==
      if fuel < m then OutOfFuel
      else Done(["AAAA BBB", "BBB CCCC", "CC DDDD"] + Repeat("DD", m - 3))
  {
    FourBlocksPrefix(m);
    NotBlankAt("DD", 0);
    TailFillsToCap("AAAA BBBB CCCC DDDD", Config(8, 2, m), 2, fuel);
  }

  /** "AB  " with chunk_size 3 and chunk_overlap 2: the windows start at 0 and 1
      and both are kept. */
  lemma BlankTailPrefix()
    ensures var text, cfg := "AB  ", Config(3, 2, 5);
      StartAt(text, cfg, 1) == 1 &&
      Collected(text, cfg, 2) == ["AB ", "B  "] &&
      Tail(text, cfg) == "  "
  {
    var text := "AB  ";
    var cfg := Config(3, 2, 5);
    assert StartAt(text, cfg, 1) == 1;
    assert WindowAt(text, cfg, 0) == text[0..3] == "AB ";
    assert WindowAt(text, cfg, 1) == text[1..4] == "B  ";
    NotBlankAt("AB ", 0);
    NotBlankAt("B  ", 0);
    assert Collected(text, cfg, 2) == ["AB ", "B  "];
    assert Tail(text, cfg) == text[2..4] == "  ";
  }

  /** The second window "B  " reaches the end, the tail "  " is blank, and the loop
      never returns however much fuel it is given. */
  lemma BlankTailExample(fuel: nat)
    ensures ChunkRun("AB  ", Config(3, 2, 5), fuel) == OutOfFuel
  {
    BlankTailPrefix();
    var tail := "  ";
    assert IsSpace(tail[0]) && IsSpace(tail[1]);
    BlankTailNeverStops("AB  ", Config(3, 2, 5), 1, fuel);
  }
}
