/** The fixed-window chunker (ingestion/chunker.py, class FixedSizeChunker). Its loop advances by
    `maxChars - overlapChars`; nothing in the code checks that this is progress. */
module FixedSizeChunker {
  import opened PyText

  datatype Chunk = Chunk(text: string, index: nat, start: int, end: int)

  function Min(a: int, b: int): int {
    if a <= b then a else b
  }

  /** Where the window after the one at `start` begins. */
  function NextStart(start: int, length: nat, maxChars: nat, overlapChars: nat): int {
    var end := Min(start + maxChars, length);
    if end < length then end - overlapChars else length
  }

  /** The loop variable after `n` iterations. */
  function StartAfter(n: nat, length: nat, maxChars: nat, overlapChars: nat): int {
    if n == 0 then 0 else NextStart(StartAfter(n - 1, length, maxChars, overlapChars), length, maxChars, overlapChars)
  }

  /** What a caller has to check: otherwise the loop runs for ever. */
  predicate Advances(length: nat, maxChars: nat, overlapChars: nat) {
    overlapChars < maxChars || length <= maxChars
  }

  lemma {:induction false} StartProgress(n: nat, length: nat, maxChars: nat, overlapChars: nat)
    requires Advances(length, maxChars, overlapChars)
    ensures StartAfter(n, length, maxChars, overlapChars) >= Min(n, length)
  {
    if n > 0 {
      StartProgress(n - 1, length, maxChars, overlapChars);
    }
  }

  lemma {:induction false} StartStuck(n: nat, length: nat, maxChars: nat, overlapChars: nat)
    requires !Advances(length, maxChars, overlapChars)
    ensures StartAfter(n, length, maxChars, overlapChars) <= 0
  {
    if n > 0 {
      StartStuck(n - 1, length, maxChars, overlapChars);
    }
  }

  /** The loop leaves its text behind exactly when the overlap is smaller than the window or the
      text fits one window. */
  lemma TerminatesIff(length: nat, maxChars: nat, overlapChars: nat)
    ensures (exists n: nat :: StartAfter(n, length, maxChars, overlapChars) >= length)
       <==> Advances(length, maxChars, overlapChars)
  {
    if Advances(length, maxChars, overlapChars) {
      StartProgress(length, length, maxChars, overlapChars);
    } else {
      forall n: nat ensures StartAfter(n, length, maxChars, overlapChars) < length {
        StartStuck(n, length, maxChars, overlapChars);
      }
    }
  }

  function Length(start: int, length: nat): nat {
    if start < length then length - start else 0
  }

  /** The chunks of the windows from `start` on, numbered from `index`; blank windows give none. */
  function ChunksFrom(text: string, start: nat, index: nat, maxChars: nat, overlapChars: nat): seq<Chunk>
    requires Advances(|text|, maxChars, overlapChars)
    decreases Length(start, |text|)
  {
    if start >= |text| then []
    else
      var end := Min(start + maxChars, |text|);
      var window := Strip(text[start..end]);
      var next := NextStart(start, |text|, maxChars, overlapChars);
      if window != ""
      then [Chunk(window, index, start, end)] + ChunksFrom(text, next, index + 1, maxChars, overlapChars)
      else ChunksFrom(text, next, index, maxChars, overlapChars)
  }

  /** `chunk` */
  method ChunkText(text: string, maxChars: nat, overlapChars: nat) returns (chunks: seq<Chunk>)
    requires Advances(|text|, maxChars, overlapChars)
    ensures chunks == ChunksFrom(text, 0, 0, maxChars, overlapChars)
  {
    hide Strip, ChunksFrom;
    chunks := [];
    var start: int := 0;
    var idx: nat := 0;
    while start < |text|
      invariant 0 <= start
      invariant ChunksFrom(text, 0, 0, maxChars, overlapChars)
             == chunks + ChunksFrom(text, start, idx, maxChars, overlapChars)
      decreases Length(start, |text|)
    {
      var end := Min(start + maxChars, |text|);
      var chunkText := Strip(text[start..end]);
      ChunksNext(text, start, idx, maxChars, overlapChars, chunks);
      if chunkText != "" {
        chunks := chunks + [Chunk(chunkText, idx, start, end)];
        idx := idx + 1;
      }
      start := if end < |text| then end - overlapChars else |text|;
    }
    NoMoreChunks(text, start, idx, maxChars, overlapChars);
  }

  lemma ChunksNext(text: string, start: nat, index: nat, maxChars: nat, overlapChars: nat, done: seq<Chunk>)
    requires Advances(|text|, maxChars, overlapChars) && start < |text|
    ensures var end := Min(start + maxChars, |text|);
            var next := NextStart(start, |text|, maxChars, overlapChars);
            var window := Strip(text[start..end]);
            done + ChunksFrom(text, start, index, maxChars, overlapChars) ==
            if window != ""
            then done + [Chunk(window, index, start, end)] + ChunksFrom(text, next, index + 1, maxChars, overlapChars)
            else done + ChunksFrom(text, next, index, maxChars, overlapChars)
  {
    hide Strip;
    var end := Min(start + maxChars, |text|);
    var next := NextStart(start, |text|, maxChars, overlapChars);
    var window := Strip(text[start..end]);
    Associative(done, [Chunk(window, index, start, end)], ChunksFrom(text, next, index + 1, maxChars, overlapChars));
  }

  lemma NoMoreChunks(text: string, start: nat, index: nat, maxChars: nat, overlapChars: nat)
    requires Advances(|text|, maxChars, overlapChars) && start >= |text|
    ensures ChunksFrom(text, start, index, maxChars, overlapChars) == []
  {
  }

  predicate Covers(c: Chunk, i: int) {
    c.start <= i < c.end
  }

  lemma {:induction false} BlankStrip(s: string, k: nat)
    requires Strip(s) == "" && k < |s|
    ensures IsSpace(s[k])
  {
    if !IsSpace(s[k]) {
      LStripKeeps(s, k);
      RStripKeeps(LStrip(s));
    }
  }

  lemma {:induction false} LStripKeeps(s: string, k: nat)
    requires k < |s| && !IsSpace(s[k])
    ensures LStrip(s) != ""
  {
    if IsSpace(s[0]) {
      LStripKeeps(s[1..], k - 1);
    }
  }

  lemma {:induction false} RStripKeeps(s: string)
    requires s != "" && !IsSpace(s[0])
    ensures RStrip(s) != ""
  {
    if IsSpace(s[|s| - 1]) {
      RStripKeeps(s[..|s| - 1]);
    }
  }

  /** A chunk is the stripped, non-blank text of its own window, and the window is not too wide. */
  predicate IsWindow(text: string, c: Chunk, maxChars: nat) {
    && 0 <= c.start < c.end <= |text|
    && c.end - c.start <= maxChars
    && c.text == Strip(text[c.start..c.end]) != ""
  }

  predicate AreWindows(text: string, cs: seq<Chunk>, index: nat, maxChars: nat) {
    forall j :: 0 <= j < |cs| ==> IsWindow(text, cs[j], maxChars) && cs[j].index == index + j
  }

  lemma {:induction false} ChunksAreWindows(text: string, start: nat, index: nat, maxChars: nat, overlapChars: nat)
    requires Advances(|text|, maxChars, overlapChars)
    ensures AreWindows(text, ChunksFrom(text, start, index, maxChars, overlapChars), index, maxChars)
    decreases Length(start, |text|)
  {
    if start < |text| {
      var end := Min(start + maxChars, |text|);
      var next := NextStart(start, |text|, maxChars, overlapChars);
      var found := Strip(text[start..end]) != "";
      ChunksAreWindows(text, next, if found then index + 1 else index, maxChars, overlapChars);
    }
  }

  /** Every non-blank character from `start` on lies in the window of some chunk. */
  lemma {:induction false} ChunksCover(text: string, start: nat, index: nat, maxChars: nat, overlapChars: nat, i: nat)
    requires Advances(|text|, maxChars, overlapChars)
    requires start <= i < |text| && !IsSpace(text[i])
    ensures exists j :: 0 <= j < |ChunksFrom(text, start, index, maxChars, overlapChars)|
                     && Covers(ChunksFrom(text, start, index, maxChars, overlapChars)[j], i)
    decreases Length(start, |text|)
  {
    hide Strip, IsSpace;
    var end := Min(start + maxChars, |text|);
    var next := NextStart(start, |text|, maxChars, overlapChars);
    var found := Strip(text[start..end]) != "";
    var cs := ChunksFrom(text, start, index, maxChars, overlapChars);
    if i < end {
      if !found {
        BlankStrip(text[start..end], i - start);
      }
      assert Covers(cs[0], i);
    } else {
      var laterIndex := if found then index + 1 else index;
      var later := ChunksFrom(text, next, laterIndex, maxChars, overlapChars);
      ChunksCover(text, next, laterIndex, maxChars, overlapChars, i);
      var j :| 0 <= j < |later| && Covers(later[j], i);
      assert Covers(cs[if found then j + 1 else j], i);
    }
  }

  /** The windows start exactly `maxChars - overlapChars` apart, so neighbours share exactly
      `overlapChars` characters. */
  lemma {:induction false} StartsAreEvenlySpaced(n: nat, length: nat, maxChars: nat, overlapChars: nat)
    requires overlapChars < maxChars && StartAfter(n, length, maxChars, overlapChars) < length
    ensures StartAfter(n, length, maxChars, overlapChars) == n * (maxChars - overlapChars)
  {
    if n > 0 {
      StartsAreEvenlySpaced(n - 1, length, maxChars, overlapChars);
    }
  }

  // ---------------------------------------------------------------- exactly the windows

  /** Where window `n` starts. */
  function Offset(n: nat, maxChars: nat, overlapChars: nat): int {
    n * (maxChars - overlapChars)
  }

  lemma FirstOffset(maxChars: nat, overlapChars: nat)
    ensures Offset(0, maxChars, overlapChars) == 0
  {
  }

  /** The loop gets to window `n`: no window before it has reached the end of the text. */
  predicate Reached(n: nat, length: nat, maxChars: nat, overlapChars: nat) {
    if n == 0 then length > 0
    else Reached(n - 1, length, maxChars, overlapChars) && Offset(n - 1, maxChars, overlapChars) + maxChars < length
  }

  /** The chunk is window `n` of the text, moved by `pos`. */
  predicate IsNthWindow(text: string, c: Chunk, n: nat, pos: int, maxChars: nat, overlapChars: nat) {
    var start, end := c.start - pos, c.end - pos;
    && Reached(n, |text|, maxChars, overlapChars)
    && start == Offset(n, maxChars, overlapChars) && end == Min(start + maxChars, |text|)
    && 0 <= start <= end && c.text == Strip(text[start..end]) != ""
  }

  /** There is a character in window `n` that is not blank. */
  ghost predicate HasInk(text: string, n: nat, maxChars: nat, overlapChars: nat) {
    && Reached(n, |text|, maxChars, overlapChars)
    && exists k :: 0 <= k < |text| && !IsSpace(text[k]) && InWindow(k, Offset(n, maxChars, overlapChars), maxChars)
  }

  predicate InWindow(k: int, start: int, maxChars: nat) {
    start <= k < start + maxChars
  }

  /** The chunks are the windows `ns`, in their order and numbered from `index`; no window from `first` on
      with something in it is missing. */
  ghost predicate WindowsAre(text: string, cs: seq<Chunk>, ns: seq<nat>, first: nat, pos: int, index: nat,
                             maxChars: nat, overlapChars: nat)
  {
    && |ns| == |cs|
    && (forall i, j :: 0 <= i < j < |ns| ==> ns[i] < ns[j])
    && (forall j :: 0 <= j < |cs| ==>
          && IsNthWindow(text, cs[j], ns[j], pos, maxChars, overlapChars)
          && cs[j].index == index + j && ns[j] >= first)
    && (forall n: nat :: n >= first && HasInk(text, n, maxChars, overlapChars) ==> n in ns)
  }

  lemma BlankWindow(text: string, n: nat, start: nat, maxChars: nat, overlapChars: nat)
    requires start == Offset(n, maxChars, overlapChars) && start < |text|
    requires Strip(text[start..Min(start + maxChars, |text|)]) == ""
    ensures !HasInk(text, n, maxChars, overlapChars)
  {
    var end := Min(start + maxChars, |text|);
    hide Strip, IsSpace, Reached;
    forall k | start <= k < end ensures IsSpace(text[k]) {
      BlankStrip(text[start..end], k - start);
    }
  }

  lemma {:induction false} NotReached(n: nat, m: nat, length: nat, maxChars: nat, overlapChars: nat)
    requires n <= m && !Reached(n, length, maxChars, overlapChars)
    ensures !Reached(m, length, maxChars, overlapChars)
    decreases m
  {
    if n < m {
      NotReached(n, m - 1, length, maxChars, overlapChars);
    }
  }

  lemma SingleWindow(length: nat, maxChars: nat, overlapChars: nat)
    requires length <= maxChars
    ensures !Reached(1, length, maxChars, overlapChars)
  {
    hide Offset;
    FirstOffset(maxChars, overlapChars);
  }

  lemma NextWindow(n: nat, start: nat, length: nat, maxChars: nat, overlapChars: nat)
    requires Advances(length, maxChars, overlapChars) && Reached(n, length, maxChars, overlapChars)
    requires start == Offset(n, maxChars, overlapChars) && start < length
    ensures Reached(n + 1, length, maxChars, overlapChars) <==> start + maxChars < length
    ensures start + maxChars < length ==>
              NextStart(start, length, maxChars, overlapChars) == Offset(n + 1, maxChars, overlapChars)
    ensures NextStart(start, length, maxChars, overlapChars) < length <==> start + maxChars < length
  {
    assert (n + 1) * (maxChars - overlapChars) == start + maxChars - overlapChars;
  }

  lemma NoWindows(text: string, n: nat, pos: int, index: nat, maxChars: nat, overlapChars: nat)
    requires !Reached(n, |text|, maxChars, overlapChars)
    ensures WindowsAre(text, [], [], n, pos, index, maxChars, overlapChars)
  {
    forall m: nat | m >= n ensures !Reached(m, |text|, maxChars, overlapChars) {
      NotReached(n, m, |text|, maxChars, overlapChars);
    }
  }

  lemma FirstWindow(text: string, c: Chunk, cs: seq<Chunk>, ns: seq<nat>, n: nat, pos: int, index: nat,
                    maxChars: nat, overlapChars: nat)
    requires IsNthWindow(text, c, n, pos, maxChars, overlapChars) && c.index == index
    requires WindowsAre(text, cs, ns, n + 1, pos, index + 1, maxChars, overlapChars)
    ensures WindowsAre(text, [c] + cs, [n] + ns, n, pos, index, maxChars, overlapChars)
  {
    hide IsNthWindow, HasInk;
    var all, numbers := [c] + cs, [n] + ns;
    forall m: nat | m >= n && HasInk(text, m, maxChars, overlapChars) ensures m in numbers {
      if m > n {
        assert m in ns;
      } else {
        assert numbers[0] == m;
      }
    }
  }

  lemma SkippedWindow(text: string, cs: seq<Chunk>, ns: seq<nat>, n: nat, index: nat, maxChars: nat, overlapChars: nat)
    requires !HasInk(text, n, maxChars, overlapChars)
    requires WindowsAre(text, cs, ns, n + 1, 0, index, maxChars, overlapChars)
    ensures WindowsAre(text, cs, ns, n, 0, index, maxChars, overlapChars)
  {
    hide IsNthWindow, HasInk;
  }

  lemma {:induction false} WindowsFrom(text: string, n: nat, start: nat, index: nat, maxChars: nat, overlapChars: nat)
    returns (ns: seq<nat>)
    requires Advances(|text|, maxChars, overlapChars) && Reached(n, |text|, maxChars, overlapChars)
    requires start == Offset(n, maxChars, overlapChars) && start < |text|
    ensures WindowsAre(text, ChunksFrom(text, start, index, maxChars, overlapChars), ns, n, 0, index,
                       maxChars, overlapChars)
    decreases Length(start, |text|)
  {
    hide Strip, IsSpace, WindowsAre, HasInk, Reached;
    var end := Min(start + maxChars, |text|);
    var window := Strip(text[start..end]);
    var next := NextStart(start, |text|, maxChars, overlapChars);
    var later := if window != "" then index + 1 else index;
    NextWindow(n, start, |text|, maxChars, overlapChars);
    var rest: seq<nat> := [];
    if next < |text| {
      rest := WindowsFrom(text, n + 1, next, later, maxChars, overlapChars);
    } else {
      NoWindows(text, n + 1, 0, later, maxChars, overlapChars);
      NoMoreChunks(text, next, later, maxChars, overlapChars);
    }
    var cs := ChunksFrom(text, next, later, maxChars, overlapChars);
    if window != "" {
      ns := [n] + rest;
      FirstWindow(text, Chunk(window, index, start, end), cs, rest, n, 0, index, maxChars, overlapChars);
    } else {
      ns := rest;
      BlankWindow(text, n, start, maxChars, overlapChars);
      SkippedWindow(text, cs, rest, n, index, maxChars, overlapChars);
    }
  }

  /** The chunks of a text: its windows of max_chars characters, max - overlap apart, up to the first that
      reaches the end; all of them but the blank ones, in order. */
  lemma ChunksAreTheWindows(text: string, maxChars: nat, overlapChars: nat)
    requires Advances(|text|, maxChars, overlapChars)
    ensures exists ns: seq<nat> ::
              WindowsAre(text, ChunksFrom(text, 0, 0, maxChars, overlapChars), ns, 0, 0, 0, maxChars, overlapChars)
  {
    hide WindowsAre;
    if text == "" {
      NoWindows(text, 0, 0, 0, maxChars, overlapChars);
      NoMoreChunks(text, 0, 0, maxChars, overlapChars);
    } else {
      FirstOffset(maxChars, overlapChars);
      var ns := WindowsFrom(text, 0, 0, 0, maxChars, overlapChars);
    }
  }
}
