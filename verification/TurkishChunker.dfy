/** The sentence-accumulating chunker (ingestion/chunker.py, class TurkishChunker),
    from the list of sentences onwards. A chunk's `start` and `end` are meant as
    offsets into the space-join of all sentences. */
module TurkishChunker {
  import opened PyText

  const SPACE := " "

  datatype Chunk = Chunk(text: string, index: nat, start: int, end: int)

  // ---------------------------------------------------------------- merging short sentences

  /** A run of sentences that reaches `minChars` with its last sentence and not before. */
  predicate ReachesAtLast(run: seq<string>, minChars: int) {
    && run != []
    && |Join(SPACE, run)| >= minChars
    && (|run| == 1 || |Join(SPACE, run[..|run| - 1])| < minChars)
  }

  /** What is left over at the end of the sentence list: never long enough. */
  predicate Leftover(run: seq<string>, minChars: int) {
    run != [] ==> |Join(SPACE, run)| < minChars
  }

  /** `runs` cuts the sentences into the groups that merging glues together: every group stops
      at the first sentence that makes it long enough; a short tail joins the last group, and is a
      group of its own only when there is no other. */
  ghost predicate MergeRuns(runs: seq<seq<string>>, sentences: seq<string>, minChars: int) {
    && Flatten(runs) == sentences
    && (runs != [] ==>
          && Closed(runs[..|runs| - 1], minChars)
          && EndsMerge(runs[|runs| - 1], |runs| == 1, minChars))
  }

  ghost predicate Closed(runs: seq<seq<string>>, minChars: int) {
    forall i :: 0 <= i < |runs| ==> ReachesAtLast(runs[i], minChars)
  }

  ghost predicate EndsMerge(last: seq<string>, only: bool, minChars: int) {
    || (only && last != [] && Leftover(last, minChars))
    || exists k :: 0 < k <= |last| && ReachesAtLast(last[..k], minChars) && Leftover(last[k..], minChars)
  }

  ghost predicate IsMerge(sentences: seq<string>, merged: seq<string>, minChars: int) {
    exists runs: seq<seq<string>> :: MergeRuns(runs, sentences, minChars) && merged == Joined(runs)
  }

  function Joined(runs: seq<seq<string>>): seq<string> {
    seq(|runs|, i requires 0 <= i < |runs| => Join(SPACE, runs[i]))
  }

  /** The state of the merging loop after the sentences `done`: `runs` are the groups already
      emitted, `run` the one being filled. */
  ghost predicate Merging(runs: seq<seq<string>>, run: seq<string>, done: seq<string>,
                          merged: seq<string>, buffer: string, minChars: int) {
    && Flatten(runs) + run == done
    && merged == Joined(runs)
    && buffer == Join(SPACE, run)
    && (buffer == "" <==> run == [])
    && Closed(runs, minChars)
    && Leftover(run, minChars)
  }

  lemma ExtendRun(run: seq<string>, sent: string, minChars: int)
    requires Clean(sent) && Leftover(run, minChars)
    ensures var longer := Join(SPACE, run + [sent]);
            && longer != ""
            && longer == (if run == [] then sent else Join(SPACE, run) + " " + sent)
            && (|longer| >= minChars ==> ReachesAtLast(run + [sent], minChars))
            && (|longer| < minChars ==> Leftover(run + [sent], minChars))
  {
    assert (run + [sent])[..|run|] == run;
    if run != [] {
      JoinConcat(SPACE, run, [sent]);
    }
  }

  lemma JoinedSnoc(runs: seq<seq<string>>, run: seq<string>)
    ensures Joined(runs + [run]) == Joined(runs) + [Join(SPACE, run)]
  {
  }

  lemma MergeStep(runs: seq<seq<string>>, run: seq<string>, done: seq<string>,
                  merged: seq<string>, buffer: string, minChars: int, sent: string)
    requires Merging(runs, run, done, merged, buffer, minChars) && Clean(sent)
    ensures var longer := if buffer != "" then buffer + " " + sent else sent;
            if |longer| >= minChars
            then Merging(runs + [run + [sent]], [], done + [sent], merged + [longer], "", minChars)
            else Merging(runs, run + [sent], done + [sent], merged, longer, minChars)
  {
    hide Flatten, Leftover, ReachesAtLast;
    ExtendRun(run, sent, minChars);
    FlattenSnoc(runs, run + [sent]);
    JoinedSnoc(runs, run + [sent]);
    assert Flatten(runs) + (run + [sent]) == done + [sent];
    LeftoverNothing(minChars);
  }

  lemma LeftoverNothing(minChars: int)
    ensures Leftover([], minChars)
  {
  }

  lemma MergingStarts(minChars: int)
    ensures Merging([], [], [], [], "", minChars)
  {
  }

  /** `_merge_short` */
  method MergeShort(sentences: seq<string>, minChars: int) returns (merged: seq<string>)
    requires AllClean(sentences)
    ensures IsMerge(sentences, merged, minChars)
  {
    hide IsMerge, Merging, Join, Clean;
    merged := [];
    var buffer := "";
    ghost var runs, run: seq<string> := [], [];
    MergingStarts(minChars);
    assert sentences[..0] == [];
    for i := 0 to |sentences|
      invariant Merging(runs, run, sentences[..i], merged, buffer, minChars)
    {
      var sent := sentences[i];
      MergeStep(runs, run, sentences[..i], merged, buffer, minChars, sent);
      assert sentences[..i + 1] == sentences[..i] + [sent];
      if buffer != "" {
        buffer := buffer + " " + sent;
      } else {
        buffer := sent;
      }
      run := run + [sent];
      if |buffer| >= minChars {
        merged := merged + [buffer];
        buffer := "";
        runs, run := runs + [run], [];
      }
    }
    assert sentences[..|sentences|] == sentences;
    FinishMerge(runs, run, sentences, merged, buffer, minChars);
    if buffer != "" {
      if merged != [] {
        merged := merged[|merged| - 1 := merged[|merged| - 1] + " " + buffer];
      } else {
        merged := [buffer];
      }
    }
  }

  lemma FinishMerge(runs: seq<seq<string>>, run: seq<string>, sentences: seq<string>,
                    merged: seq<string>, buffer: string, minChars: int)
    requires Merging(runs, run, sentences, merged, buffer, minChars)
    ensures IsMerge(sentences,
                    if buffer == "" then merged
                    else if merged == [] then [buffer]
                    else merged[|merged| - 1 := merged[|merged| - 1] + " " + buffer],
                    minChars)
  {
    if run == [] {
      if runs != [] {
        EndsWith(runs[|runs| - 1], [], minChars);
        assert runs[|runs| - 1] + [] == runs[|runs| - 1];
      }
      assert MergeRuns(runs, sentences, minChars);
    } else if runs == [] {
      FlattenOne(run);
      assert Joined([run]) == [buffer];
      assert MergeRuns([run], sentences, minChars);
    } else {
      var init, last := runs[..|runs| - 1], runs[|runs| - 1];
      assert runs == init + [last];
      FinishLast(init, last, run, minChars);
      JoinedLast(init, last, run);
      assert MergeRuns(init + [last + run], sentences, minChars);
    }
  }

  lemma FinishLast(init: seq<seq<string>>, last: seq<string>, run: seq<string>, minChars: int)
    requires Closed(init, minChars)
    requires ReachesAtLast(last, minChars) && Leftover(run, minChars) && run != []
    ensures MergeRuns(init + [last + run], Flatten(init + [last]) + run, minChars)
  {
    hide EndsMerge, ReachesAtLast, Leftover, Join, Flatten;
    EndsWith(last, run, minChars);
    FlattenSnoc(init, last + run);
    FlattenSnoc(init, last);
    assert (init + [last + run])[..|init|] == init;
  }

  lemma JoinedLast(init: seq<seq<string>>, last: seq<string>, run: seq<string>)
    requires last != [] && run != []
    ensures var m := Joined(init + [last]);
            Joined(init + [last + run]) == m[|init| := m[|init|] + " " + Join(SPACE, run)]
  {
    JoinConcat(SPACE, last, run);
    JoinedSnoc(init, last + run);
    JoinedSnoc(init, last);
  }

  lemma EndsWith(reaching: seq<string>, rest: seq<string>, minChars: int)
    requires ReachesAtLast(reaching, minChars) && Leftover(rest, minChars)
    ensures EndsMerge(reaching + rest, false, minChars)
    ensures EndsMerge(reaching + rest, true, minChars)
  {
    var k := |reaching|;
    assert (reaching + rest)[..k] == reaching && (reaching + rest)[k..] == rest;
  }

  /** Joining the joins of nonempty groups is joining everything. */
  lemma {:induction false} JoinOfJoins(groups: seq<seq<string>>)
    requires forall i :: 0 <= i < |groups| ==> groups[i] != []
    ensures Join(SPACE, Joined(groups)) == Join(SPACE, Flatten(groups))
  {
    if |groups| == 1 {
      assert Flatten(groups) == groups[0];
    } else if |groups| > 1 {
      JoinOfJoins(groups[1..]);
      assert Joined(groups)[1..] == Joined(groups[1..]);
      assert Flatten(groups[1..]) == groups[1] + Flatten(groups[2..]);
      JoinConcat(SPACE, groups[0], Flatten(groups[1..]));
    }
  }

  /** The documented purpose of merging: no text is lost or reordered, and every sentence that
      comes out reaches the minimum length unless it is the only one. */
  lemma MergeKeepsTextAndLength(sentences: seq<string>, merged: seq<string>, minChars: int)
    requires AllClean(sentences) && IsMerge(sentences, merged, minChars)
    ensures Join(SPACE, merged) == Join(SPACE, sentences)
    ensures AllClean(merged)
    ensures |merged| > 1 ==> forall i :: 0 <= i < |merged| ==> |merged[i]| >= minChars
    ensures sentences == [] <==> merged == []
  {
    hide Join, Flatten;
    var runs: seq<seq<string>> :| MergeRuns(runs, sentences, minChars) && merged == Joined(runs);
    forall i: nat | i < |runs|
      ensures runs[i] != [] && AllClean(runs[i])
      ensures |runs| > 1 ==> |Join(SPACE, runs[i])| >= minChars
    {
      GroupOfClean(runs, i);
      if i == |runs| - 1 {
        LastRunIsLong(runs[i], |runs| == 1, minChars);
      } else {
        assert runs[..|runs| - 1][i] == runs[i];
      }
    }
    forall i | 0 <= i < |merged| ensures Clean(merged[i]) {
      JoinClean(SPACE, runs[i]);
    }
    JoinOfJoins(runs);
    NonemptyFlatten(runs);
  }

  lemma NonemptyFlatten(runs: seq<seq<string>>)
    requires forall i :: 0 <= i < |runs| ==> runs[i] != []
    ensures Flatten(runs) == [] <==> runs == []
  {
  }

  lemma JoinGrows(run: seq<string>, more: seq<string>)
    requires run != []
    ensures |Join(SPACE, run)| <= |Join(SPACE, run + more)|
  {
    if more == [] {
      assert run + more == run;
    } else {
      JoinConcat(SPACE, run, more);
    }
  }

  lemma ReachedLength(run: seq<string>, minChars: int)
    requires ReachesAtLast(run, minChars)
    ensures run != [] && |Join(SPACE, run)| >= minChars
  {
  }

  lemma LastRunIsLong(last: seq<string>, only: bool, minChars: int)
    requires EndsMerge(last, only, minChars)
    ensures last != [] && (!only ==> |Join(SPACE, last)| >= minChars)
  {
    hide Join, ReachesAtLast, Leftover;
    if !only {
      var k :| 0 < k <= |last| && ReachesAtLast(last[..k], minChars) && Leftover(last[k..], minChars);
      ReachedLength(last[..k], minChars);
      JoinGrows(last[..k], last[k..]);
      assert last[..k] + last[k..] == last;
    }
  }

  /** A group of a partition of clean sentences holds clean sentences. */
  lemma GroupOfClean(groups: seq<seq<string>>, i: nat)
    requires i < |groups| && AllClean(Flatten(groups))
    ensures AllClean(groups[i])
  {
    hide Clean;
    FlattenSplit(groups, i);
    var off := |Flatten(groups[..i])|;
    assert groups[i] == Flatten(groups)[off..off + |groups[i]|];
  }

  // ---------------------------------------------------------------- greedy accumulation

  /** The running length `current_len`: every sentence with one separator. */
  function Cost(group: seq<string>): nat {
    if group == [] then 0 else |group[0]| + 1 + Cost(group[1..])
  }

  lemma {:induction false} CostConcat(a: seq<string>, b: seq<string>)
    ensures Cost(a + b) == Cost(a) + Cost(b)
  {
    if a == [] {
      assert a + b == b;
    } else {
      assert (a + b)[1..] == a[1..] + b;
      CostConcat(a[1..], b);
    }
  }

  lemma {:induction false} CostIsJoinLength(group: seq<string>)
    requires group != []
    ensures |Join(SPACE, group)| == Cost(group) - 1
  {
    if |group| > 1 {
      CostIsJoinLength(group[1..]);
    }
  }

  /** A group of sentences that one chunk may own. */
  predicate Admissible(group: seq<string>, maxChars: int) {
    group != [] && (|group| == 1 || Cost(group) <= maxChars)
  }

  /** How many sentences the current chunk holds when it closes, given that it holds `n` now. */
  function Take(sentences: seq<string>, n: nat, maxChars: int): (m: nat)
    requires 1 <= n <= |sentences|
    ensures n <= m <= |sentences|
    decreases |sentences| - n
  {
    if n < |sentences| && Cost(sentences[..n]) + |sentences[n]| + 1 <= maxChars
    then Take(sentences, n + 1, maxChars)
    else n
  }

  /** The sentence groups of the chunks, first to last. */
  function Groups(sentences: seq<string>, maxChars: int): (gs: seq<seq<string>>)
    decreases |sentences|
  {
    if sentences == [] then []
    else
      var n := Take(sentences, 1, maxChars);
      [sentences[..n]] + Groups(sentences[n..], maxChars)
  }

  lemma {:induction false} TakeStops(sentences: seq<string>, n: nat, maxChars: int)
    requires 1 <= n <= |sentences|
    ensures var m := Take(sentences, n, maxChars);
            m < |sentences| ==> Cost(sentences[..m]) + |sentences[m]| + 1 > maxChars
    decreases |sentences| - n
  {
    if n < |sentences| && Cost(sentences[..n]) + |sentences[n]| + 1 <= maxChars {
      TakeStops(sentences, n + 1, maxChars);
    }
  }

  lemma {:induction false} GroupsPartition(sentences: seq<string>, maxChars: int)
    ensures Flatten(Groups(sentences, maxChars)) == sentences
    ensures forall i :: 0 <= i < |Groups(sentences, maxChars)| ==> Groups(sentences, maxChars)[i] != []
    decreases |sentences|
  {
    hide Take;
    if sentences != [] {
      GroupsPartition(sentences[Take(sentences, 1, maxChars)..], maxChars);
    }
  }

  lemma {:induction false} TakeAdmissible(sentences: seq<string>, n: nat, maxChars: int)
    requires 1 <= n <= |sentences| && Admissible(sentences[..n], maxChars)
    ensures Admissible(sentences[..Take(sentences, n, maxChars)], maxChars)
    decreases |sentences| - n
  {
    if n < |sentences| && Cost(sentences[..n]) + |sentences[n]| + 1 <= maxChars {
      assert sentences[..n + 1] == sentences[..n] + [sentences[n]];
      CostConcat(sentences[..n], [sentences[n]]);
      TakeAdmissible(sentences, n + 1, maxChars);
    }
  }

  lemma {:induction false} GroupsAdmissible(sentences: seq<string>, maxChars: int)
    ensures forall i :: 0 <= i < |Groups(sentences, maxChars)| ==> Admissible(Groups(sentences, maxChars)[i], maxChars)
    decreases |sentences|
  {
    if sentences != [] {
      TakeAdmissible(sentences, 1, maxChars);
      GroupsAdmissible(sentences[Take(sentences, 1, maxChars)..], maxChars);
    }
  }

  /** A chunk that has just closed could not have stayed open: the first group reaches at least as
      far as any admissible prefix. */
  lemma TakeIsLongest(sentences: seq<string>, k: nat, maxChars: int)
    requires 1 <= k <= |sentences| && Admissible(sentences[..k], maxChars)
    ensures k <= Take(sentences, 1, maxChars)
  {
    var m := Take(sentences, 1, maxChars);
    TakeStops(sentences, 1, maxChars);
    if m < k {
      CostOfLonger(sentences, m, k);
    }
  }

  lemma CostOfLonger(sentences: seq<string>, m: nat, k: nat)
    requires m < k <= |sentences|
    ensures Cost(sentences[..m]) + |sentences[m]| + 1 <= Cost(sentences[..k])
  {
    assert sentences[..k] == sentences[..m] + ([sentences[m]] + sentences[m + 1..k]);
    CostConcat(sentences[..m], [sentences[m]] + sentences[m + 1..k]);
    CostConcat([sentences[m]], sentences[m + 1..k]);
  }

  lemma AdmissibleTail(group: seq<string>, i: nat, maxChars: int)
    requires Admissible(group, maxChars) && i < |group|
    ensures Admissible(group[i..], maxChars)
  {
    assert group == group[..i] + group[i..];
    CostConcat(group[..i], group[i..]);
  }

  /** Greedy stays ahead: covering a suffix greedily never takes more groups than any admissible
      partition of the whole list has. */
  lemma {:induction false} StaysAhead(partition: seq<seq<string>>, i: nat, maxChars: int)
    requires forall j :: 0 <= j < |partition| ==> Admissible(partition[j], maxChars)
    requires i <= |Flatten(partition)|
    ensures |Groups(Flatten(partition)[i..], maxChars)| <= |partition|
  {
    if partition != [] {
      var first, rest := partition[0], Flatten(partition[1..]);
      DropConcat(first, rest, i);
      if i >= |first| {
        StaysAhead(partition[1..], i - |first|, maxChars);
      } else {
        AdmissibleTail(first, i, maxChars);
        var n := FirstGroupCovers(first[i..], rest, maxChars);
        StaysAhead(partition[1..], n, maxChars);
      }
    }
  }

  /** If `head` is admissible, the first greedy group of `head + rest` swallows it, and the other
      groups are those of what is left of `rest`. */
  lemma FirstGroupCovers(head: seq<string>, rest: seq<string>, maxChars: int) returns (n: nat)
    requires Admissible(head, maxChars)
    ensures n <= |rest|
    ensures |Groups(head + rest, maxChars)| == 1 + |Groups(rest[n..], maxChars)|
  {
    var s := head + rest;
    assert s[..|head|] == head;
    TakeIsLongest(s, |head|, maxChars);
    var m := Take(s, 1, maxChars);
    n := m - |head|;
    DropConcat(head, rest, m);
  }

  /** The accumulation is optimal: its own groups are admissible, and no partition of the sentences
      into admissible groups is shorter. */
  lemma GreedyIsOptimal(sentences: seq<string>, partition: seq<seq<string>>, maxChars: int)
    requires Flatten(partition) == sentences
    requires forall j :: 0 <= j < |partition| ==> Admissible(partition[j], maxChars)
    ensures |Groups(sentences, maxChars)| <= |partition|
    ensures Flatten(Groups(sentences, maxChars)) == sentences
    ensures forall i :: 0 <= i < |Groups(sentences, maxChars)| ==> Admissible(Groups(sentences, maxChars)[i], maxChars)
  {
    assert sentences[0..] == sentences;
    StaysAhead(partition, 0, maxChars);
    GroupsPartition(sentences, maxChars);
    GroupsAdmissible(sentences, maxChars);
  }

  /** The next sentence would not have fitted into the group: not with a separator behind each of them. */
  predicate Full(group: seq<string>, next: seq<string>, maxChars: int) {
    next != [] && |Join(SPACE, group)| + 1 + |next[0]| + 1 > maxChars
  }

  lemma {:induction false} GroupsAreFull(sentences: seq<string>, maxChars: int, i: nat)
    requires i + 1 < |Groups(sentences, maxChars)|
    ensures Full(Groups(sentences, maxChars)[i], Groups(sentences, maxChars)[i + 1], maxChars)
    decreases |sentences|
  {
    var n := Take(sentences, 1, maxChars);
    var later := Groups(sentences[n..], maxChars);
    hide Join, Cost;
    if i > 0 {
      GroupsAreFull(sentences[n..], maxChars, i - 1);
    } else {
      TakeStops(sentences, 1, maxChars);
      CostIsJoinLength(sentences[..n]);
      GroupsPartition(sentences[n..], maxChars);
      assert later[0][0] == sentences[n];
    }
  }

  /** The accumulation takes the sentences in turn: a chunk's own text of more than one sentence keeps below
      MAX_CHARS, and it is closed exactly when the next sentence would not have fitted. */
  lemma GroupsFillInTurn(sentences: seq<string>, maxChars: int)
    ensures var groups := Groups(sentences, maxChars);
            && Flatten(groups) == sentences
            && (forall i :: 0 <= i < |groups| ==>
                  groups[i] != [] && (|groups[i]| > 1 ==> |Join(SPACE, groups[i])| + 1 <= maxChars))
            && (forall i :: 0 < i < |groups| ==> Full(groups[i - 1], groups[i], maxChars))
  {
    hide Groups, Join, Cost, Full;
    var groups := Groups(sentences, maxChars);
    GroupsPartition(sentences, maxChars);
    GroupsAdmissible(sentences, maxChars);
    forall i | 0 <= i < |groups| ensures |groups[i]| > 1 ==> |Join(SPACE, groups[i])| + 1 <= maxChars {
      CostIsJoinLength(groups[i]);
    }
    forall i | 0 < i < |groups| ensures Full(groups[i - 1], groups[i], maxChars) {
      GroupsAreFull(sentences, maxChars, i - 1);
    }
  }

  // ---------------------------------------------------------------- overlap

  /** `k` starts the longest suffix of `group`, in whole sentences, whose join fits `limit`. */
  predicate LongestFittingSuffix(group: seq<string>, k: nat, limit: int) {
    && k <= |group|
    && (k < |group| ==> |Join(SPACE, group[k..])| <= limit)
    && forall j :: 0 <= j < k ==> |Join(SPACE, group[j..])| > limit
  }

  function OverlapStart(group: seq<string>, k: nat, limit: int): nat
    requires k <= |group|
  {
    if k == 0 || Cost(group[k..]) + |group[k - 1]| > limit then k
    else OverlapStart(group, k - 1, limit)
  }

  lemma CostSuffix(group: seq<string>, j: nat, k: nat)
    requires j <= k <= |group|
    ensures Cost(group[j..]) == Cost(group[j..k]) + Cost(group[k..])
  {
    assert group[j..] == group[j..k] + group[k..];
    CostConcat(group[j..k], group[k..]);
  }

  lemma {:induction false} OverlapStartIsLongest(group: seq<string>, k: nat, limit: int)
    requires k <= |group|
    requires k < |group| ==> |Join(SPACE, group[k..])| <= limit
    ensures LongestFittingSuffix(group, OverlapStart(group, k, limit), limit)
  {
    if k > 0 {
      CostSuffix(group, k - 1, k);
      assert group[k - 1..k] == [group[k - 1]];
      CostIsJoinLength(group[k - 1..]);
      if Cost(group[k..]) + |group[k - 1]| > limit {
        forall j | 0 <= j < k ensures |Join(SPACE, group[j..])| > limit {
          CostSuffix(group, j, k - 1);
          CostIsJoinLength(group[j..]);
        }
      } else {
        OverlapStartIsLongest(group, k - 1, limit);
      }
    }
  }

  /** What a chunk carries over from the group before it. */
  function Overlap(group: seq<string>, limit: int): string {
    var k := OverlapStart(group, |group|, limit);
    if k < |group| then Join(SPACE, group[k..]) + SPACE else ""
  }

  /** `_build_overlap` */
  method BuildOverlap(sentences: seq<string>, limit: int) returns (prefix: string)
    ensures prefix == Overlap(sentences, limit)
  {
    var overlapSents: seq<string> := [];
    var total := 0;
    var k: nat := |sentences|;
    while k > 0 && total + |sentences[k - 1]| <= limit
      invariant k <= |sentences| && overlapSents == sentences[k..] && total == Cost(overlapSents)
      invariant OverlapStart(sentences, |sentences|, limit) == OverlapStart(sentences, k, limit)
    {
      assert sentences[k - 1..] == [sentences[k - 1]] + overlapSents;
      overlapSents := [sentences[k - 1]] + overlapSents;
      total := total + |sentences[k - 1]| + 1;
      k := k - 1;
    }
    prefix := if overlapSents != [] then Join(SPACE, overlapSents) + SPACE else "";
  }

  /** The overlap is the longest whole-sentence suffix of a group whose join fits the limit, with
      a separator; it is empty when not even the last sentence fits. */
  lemma OverlapIsLongest(group: seq<string>, limit: int)
    ensures exists k: nat :: LongestFittingSuffix(group, k, limit)
                          && Overlap(group, limit) == if k < |group| then Join(SPACE, group[k..]) + SPACE else ""
  {
    OverlapStartIsLongest(group, |group|, limit);
  }

  // ---------------------------------------------------------------- chunks

  /** The overlap prefix of chunk `i`. */
  function Prefix(groups: seq<seq<string>>, i: nat, overlapChars: int): string
    requires i <= |groups|
  {
    if i == 0 then "" else Overlap(groups[i - 1], overlapChars)
  }

  /** `_make_chunk` */
  function MakeChunk(index: nat, sentences: seq<string>, overlapPrefix: string, charStart: int): Chunk {
    var raw := if overlapPrefix != "" then overlapPrefix + Join(SPACE, sentences) else Join(SPACE, sentences);
    var text := Strip(raw);
    Chunk(text, index, charStart, charStart + |text|)
  }

  /** The i-th chunk of a partition into groups. */
  function ChunkAt(groups: seq<seq<string>>, i: nat, overlapChars: int): Chunk
    requires i < |groups|
  {
    MakeChunk(i, groups[i], Prefix(groups, i, overlapChars), Cost(Flatten(groups[..i])))
  }

  function ChunksOf(groups: seq<seq<string>>, overlapChars: int): (cs: seq<Chunk>)
  {
    seq(|groups|, i requires 0 <= i < |groups| => ChunkAt(groups, i, overlapChars))
  }

  /** The accumulation loop's relation to the greedy groups of all sentences: `closed` groups are
      done, `current` is filling up, `rest` is still to come. */
  ghost predicate Accumulating(closed: seq<seq<string>>, current: seq<string>, rest: seq<string>,
                               sentences: seq<string>, maxChars: int) {
    && Groups(sentences, maxChars) == closed + Groups(current + rest, maxChars)
    && (current != [] ==> Take(current + rest, 1, maxChars) == Take(current + rest, |current|, maxChars))
  }

  lemma FlushStep(closed: seq<seq<string>>, current: seq<string>, rest: seq<string>,
                  sentences: seq<string>, maxChars: int)
    requires Accumulating(closed, current, rest, sentences, maxChars)
    requires current != [] && (rest != [] ==> Cost(current) + |rest[0]| + 1 > maxChars)
    ensures Accumulating(closed + [current], [], rest, sentences, maxChars)
  {
    TakeCloses(current, rest, maxChars);
    GroupsCut(current, rest, maxChars);
    Associative(closed, [current], Groups(rest, maxChars));
    assert [] + rest == rest;
  }

  lemma TakeCloses(current: seq<string>, rest: seq<string>, maxChars: int)
    requires current != [] && (rest != [] ==> Cost(current) + |rest[0]| + 1 > maxChars)
    ensures Take(current + rest, |current|, maxChars) == |current|
  {
    assert (current + rest)[..|current|] == current;
  }

  lemma GroupsCut(current: seq<string>, rest: seq<string>, maxChars: int)
    requires current != [] && Take(current + rest, 1, maxChars) == |current|
    ensures Groups(current + rest, maxChars) == [current] + Groups(rest, maxChars)
  {
    var s := current + rest;
    assert s[..|current|] == current && s[|current|..] == rest;
  }

  lemma AppendStep(closed: seq<seq<string>>, current: seq<string>, rest: seq<string>,
                   sentences: seq<string>, maxChars: int)
    requires Accumulating(closed, current, rest, sentences, maxChars)
    requires rest != [] && (current == [] || Cost(current) + |rest[0]| + 1 <= maxChars)
    ensures Accumulating(closed, current + [rest[0]], rest[1..], sentences, maxChars)
  {
    hide Groups, Cost;
    var s := current + rest;
    assert s == current + [rest[0]] + rest[1..];
    assert s[..|current|] == current;
  }

  /** The rest of the loop's state: the chunks built from the closed groups, and what the next
      chunk starts from. */
  ghost predicate Built(closed: seq<seq<string>>, chunks: seq<Chunk>, overlapPrefix: string, charStart: int,
                        overlapChars: int) {
    && chunks == ChunksOf(closed, overlapChars)
    && overlapPrefix == Prefix(closed, |closed|, overlapChars)
    && charStart == Cost(Flatten(closed))
  }

  /** `_build_chunks` */
  method BuildChunks(sentences: seq<string>, maxChars: int, overlapChars: int) returns (chunks: seq<Chunk>)
    ensures chunks == ChunksOf(Groups(sentences, maxChars), overlapChars)
  {
    hide Overlap, Accumulating, Built;
    chunks := [];
    var currentSentences: seq<string> := [];
    var currentLen := 0;
    var overlapPrefix := "";
    var charStart := 0;
    ghost var closed: seq<seq<string>> := [];
    StartState(sentences, maxChars, overlapChars);
    for i := 0 to |sentences|
      invariant Accumulating(closed, currentSentences, sentences[i..], sentences, maxChars)
      invariant Built(closed, chunks, overlapPrefix, charStart, overlapChars)
      invariant currentLen == Cost(currentSentences)
    {
      var sent := sentences[i];
      if currentLen + |sent| + 1 > maxChars && currentSentences != [] {
        assert sentences[i..][0] == sent;
        CloseStep(closed, currentSentences, chunks, overlapPrefix, charStart, overlapChars);
        FlushStep(closed, currentSentences, sentences[i..], sentences, maxChars);
        chunks := chunks + [MakeChunk(|chunks|, currentSentences, overlapPrefix, charStart)];
        overlapPrefix := BuildOverlap(currentSentences, overlapChars);
        charStart := charStart + currentLen;
        closed := closed + [currentSentences];
        currentSentences := [];
        currentLen := 0;
      }
      AppendStep(closed, currentSentences, sentences[i..], sentences, maxChars);
      CostConcat(currentSentences, [sent]);
      assert sentences[i..][1..] == sentences[i + 1..];
      currentSentences := currentSentences + [sent];
      currentLen := currentLen + |sent| + 1;
    }
    if currentSentences != [] {
      CloseStep(closed, currentSentences, chunks, overlapPrefix, charStart, overlapChars);
      FlushStep(closed, currentSentences, [], sentences, maxChars);
      chunks := chunks + [MakeChunk(|chunks|, currentSentences, overlapPrefix, charStart)];
      EndState(closed + [currentSentences], chunks, Overlap(currentSentences, overlapChars), charStart + currentLen,
               sentences, maxChars, overlapChars);
    } else {
      EndState(closed, chunks, overlapPrefix, charStart, sentences, maxChars, overlapChars);
    }
  }

  lemma StartState(sentences: seq<string>, maxChars: int, overlapChars: int)
    ensures Accumulating([], [], sentences[0..], sentences, maxChars)
    ensures Built([], [], "", 0, overlapChars)
  {
    assert [] + sentences[0..] == sentences;
    assert [] + Groups(sentences, maxChars) == Groups(sentences, maxChars);
  }

  lemma EndState(closed: seq<seq<string>>, chunks: seq<Chunk>, overlapPrefix: string, charStart: int,
                 sentences: seq<string>, maxChars: int, overlapChars: int)
    requires Accumulating(closed, [], [], sentences, maxChars)
    requires Built(closed, chunks, overlapPrefix, charStart, overlapChars)
    ensures chunks == ChunksOf(Groups(sentences, maxChars), overlapChars)
  {
    var nothing: seq<string> := [];
    assert nothing + nothing == nothing;
    assert closed + [] == closed;
  }

  lemma CloseStep(closed: seq<seq<string>>, group: seq<string>, chunks: seq<Chunk>, overlapPrefix: string,
                  charStart: int, overlapChars: int)
    requires Built(closed, chunks, overlapPrefix, charStart, overlapChars)
    ensures Built(closed + [group], chunks + [MakeChunk(|chunks|, group, overlapPrefix, charStart)],
                  Overlap(group, overlapChars), charStart + Cost(group), overlapChars)
  {
    hide Overlap, MakeChunk, ChunksOf, ChunkAt, Cost, Flatten, Prefix;
    ChunksSnoc(closed, group, overlapChars);
    PrefixAfter(closed, group, overlapChars);
    CostAfter(closed, group);
  }

  lemma PrefixAfter(closed: seq<seq<string>>, group: seq<string>, overlapChars: int)
    ensures Prefix(closed + [group], |closed + [group]|, overlapChars) == Overlap(group, overlapChars)
  {
    hide Overlap;
    assert (closed + [group])[|closed|] == group;
  }

  lemma CostAfter(closed: seq<seq<string>>, group: seq<string>)
    ensures Cost(Flatten(closed + [group])) == Cost(Flatten(closed)) + Cost(group)
  {
    hide Cost, Flatten;
    FlattenSnoc(closed, group);
    CostConcat(Flatten(closed), group);
  }

  lemma ChunksSnoc(closed: seq<seq<string>>, group: seq<string>, overlapChars: int)
    ensures ChunksOf(closed + [group], overlapChars)
         == ChunksOf(closed, overlapChars)
            + [MakeChunk(|closed|, group, Prefix(closed, |closed|, overlapChars), Cost(Flatten(closed)))]
    ensures |ChunksOf(closed, overlapChars)| == |closed|
  {
    hide MakeChunk, Overlap, Cost, Flatten;
    var longer := closed + [group];
    forall i: nat | i < |closed| ensures ChunkAt(longer, i, overlapChars) == ChunkAt(closed, i, overlapChars) {
      assert longer[..i] == closed[..i];
    }
    assert longer[..|closed|] == closed;
  }

  /** `chunk`, after the text has been split into sentences. */
  method ChunkSentences(sentences: seq<string>, maxChars: int, overlapChars: int, minChars: int)
    returns (chunks: seq<Chunk>)
    requires AllClean(sentences)
    ensures exists merged :: IsMerge(sentences, merged, minChars)
                          && chunks == ChunksOf(Groups(merged, maxChars), overlapChars)
  {
    var merged := MergeShort(sentences, minChars);
    chunks := BuildChunks(merged, maxChars, overlapChars);
  }

  // ---------------------------------------------------------------- offsets

  /** What precedes a group's own text in the join of everything. */
  function Lead(before: seq<string>): (lead: string)
    ensures |lead| == Cost(before)
  {
    if before == [] then ""
    else
      CostIsJoinLength(before);
      Join(SPACE, before) + SPACE
  }

  function Trail(after: seq<string>): string {
    if after == [] then "" else SPACE + Join(SPACE, after)
  }

  lemma JoinAround(before: seq<string>, own: seq<string>, after: seq<string>)
    requires own != []
    ensures Join(SPACE, before + own + after) == Lead(before) + Join(SPACE, own) + Trail(after)
  {
    hide Cost;
    var tail := own + after;
    assert before + own + after == before + tail;
    if after != [] {
      JoinConcat(SPACE, own, after);
    } else {
      assert tail == own;
    }
    if before != [] {
      JoinConcat(SPACE, before, tail);
      assert Join(SPACE, before) + SPACE + Join(SPACE, tail) == Lead(before) + Join(SPACE, own) + Trail(after);
    } else {
      assert before + tail == tail;
    }
  }

  /** Where the i-th group's own text sits in the join of everything. */
  lemma OwnTextInJoin(groups: seq<seq<string>>, i: nat)
    requires i < |groups| && groups[i] != []
    ensures Join(SPACE, Flatten(groups))
         == Lead(Flatten(groups[..i])) + Join(SPACE, groups[i]) + Trail(Flatten(groups[i + 1..]))
  {
    FlattenSplit(groups, i);
    JoinAround(Flatten(groups[..i]), groups[i], Flatten(groups[i + 1..]));
  }

  /** The text before a chunk's own part ends with exactly its overlap prefix. */
  lemma LeadEndsWithOverlap(before: seq<string>, group: seq<string>, limit: int) returns (rest: string)
    requires group != []
    ensures Lead(before + group) == rest + Overlap(group, limit)
  {
    var k := OverlapStart(group, |group|, limit);
    OverlapStartIsLongest(group, |group|, limit);
    if k < |group| {
      assert before + group == (before + group[..k]) + group[k..] + [];
      JoinAround(before + group[..k], group[k..], []);
      rest := Lead(before + group[..k]);
      assert Lead(before + group) == rest + Join(SPACE, group[k..]) + "" + SPACE;
    } else {
      rest := Lead(before + group);
    }
  }

  lemma LeadEndsWithPrefix(groups: seq<seq<string>>, i: nat, overlapChars: int) returns (rest: string)
    requires i < |groups| && (i > 0 ==> groups[i - 1] != [])
    ensures Lead(Flatten(groups[..i])) == rest + Prefix(groups, i, overlapChars)
  {
    if i == 0 {
      rest := "";
    } else {
      assert groups[..i] == groups[..i - 1] + [groups[i - 1]];
      FlattenSnoc(groups[..i - 1], groups[i - 1]);
      rest := LeadEndsWithOverlap(Flatten(groups[..i - 1]), groups[i - 1], overlapChars);
    }
  }

  lemma PrefixEnds(group: seq<string>, limit: int)
    requires group != [] && AllClean(group)
    ensures var p := Overlap(group, limit); p != "" ==> !IsSpace(p[0])
  {
    var k := OverlapStart(group, |group|, limit);
    if k < |group| {
      JoinClean(SPACE, group[k..]);
    }
  }

  /** Stripping a chunk's text changes nothing: it starts and ends inside sentences. */
  lemma ChunkTextUnstripped(groups: seq<seq<string>>, i: nat, overlapChars: int)
    requires i < |groups| && forall j :: 0 <= j < |groups| ==> groups[j] != [] && AllClean(groups[j])
    ensures ChunkAt(groups, i, overlapChars).text == Prefix(groups, i, overlapChars) + Join(SPACE, groups[i])
  {
    JoinClean(SPACE, groups[i]);
    if i > 0 {
      PrefixEnds(groups[i - 1], overlapChars);
    }
    StripOfStripped(Prefix(groups, i, overlapChars) + Join(SPACE, groups[i]));
  }

  /** The text is that of its own group behind the longest fitting suffix of the group before. */
  ghost predicate CarriesOver(text: string, before: seq<string>, own: seq<string>, overlapChars: int) {
    exists k: nat :: LongestFittingSuffix(before, k, overlapChars)
        && text == (if k < |before| then Join(SPACE, before[k..]) + " " else "") + Join(SPACE, own)
  }

  /** A chunk starts with what it carries over, the longest whole-sentence suffix of the group before it that
      fits OVERLAP_CHARS, and goes on with its own group. */
  lemma ChunkCarriesOverlap(sentences: seq<string>, maxChars: int, overlapChars: int, i: nat)
    requires AllClean(sentences) && 0 < i < |Groups(sentences, maxChars)|
    ensures var groups := Groups(sentences, maxChars);
            CarriesOver(ChunksOf(groups, overlapChars)[i].text, groups[i - 1], groups[i], overlapChars)
    ensures ChunksOf(Groups(sentences, maxChars), overlapChars)[0].text == Join(SPACE, Groups(sentences, maxChars)[0])
  {
    hide Groups, Join, Overlap, MakeChunk, LongestFittingSuffix;
    var groups := Groups(sentences, maxChars);
    GroupsClean(sentences, maxChars);
    ChunkTextUnstripped(groups, i, overlapChars);
    ChunkTextUnstripped(groups, 0, overlapChars);
    OverlapIsLongest(groups[i - 1], overlapChars);
  }

  lemma GroupsClean(sentences: seq<string>, maxChars: int)
    requires AllClean(sentences)
    ensures Flatten(Groups(sentences, maxChars)) == sentences
    ensures forall j :: 0 <= j < |Groups(sentences, maxChars)| ==>
              Groups(sentences, maxChars)[j] != [] && AllClean(Groups(sentences, maxChars)[j])
  {
    var gs := Groups(sentences, maxChars);
    GroupsPartition(sentences, maxChars);
    forall j: nat | j < |gs| ensures gs[j] != [] && AllClean(gs[j]) {
      GroupOfClean(gs, j);
    }
  }

  /** Offsets are exact: with J the join of the merged sentences and p the length of the chunk's
      overlap prefix, the chunk's text is J[start - p .. end - p], and what follows the prefix is
      the chunk's own group, J[start .. end - p]. */
  lemma OffsetsAreExact(sentences: seq<string>, maxChars: int, overlapChars: int, i: nat)
    requires AllClean(sentences) && i < |Groups(sentences, maxChars)|
    ensures var groups := Groups(sentences, maxChars);
            var all := Join(SPACE, sentences);
            var c := ChunksOf(groups, overlapChars)[i];
            var p := |Prefix(groups, i, overlapChars)|;
            && p <= c.start <= c.end - p <= |all|
            && c.text == all[c.start - p..c.end - p]
            && all[c.start..c.end - p] == Join(SPACE, groups[i])
            && c.index == i
  {
    hide Groups, ChunkAt, Prefix, Join, Flatten;
    GroupsClean(sentences, maxChars);
    OffsetsInGroups(Groups(sentences, maxChars), overlapChars, i);
  }

  lemma OffsetsInGroups(groups: seq<seq<string>>, overlapChars: int, i: nat)
    requires i < |groups| && forall j :: 0 <= j < |groups| ==> groups[j] != [] && AllClean(groups[j])
    ensures var all := Join(SPACE, Flatten(groups));
            var c := ChunkAt(groups, i, overlapChars);
            var p := |Prefix(groups, i, overlapChars)|;
            && p <= c.start <= c.end - p <= |all|
            && c.text == all[c.start - p..c.end - p]
            && all[c.start..c.end - p] == Join(SPACE, groups[i])
            && c.index == i
  {
    hide Join, Overlap, Flatten, AllClean;
    OwnTextInJoin(groups, i);
    ChunkTextUnstripped(groups, i, overlapChars);
    var prefix, own := Prefix(groups, i, overlapChars), Join(SPACE, groups[i]);
    var rest := LeadEndsWithPrefix(groups, i, overlapChars);
    Pieces(rest, prefix, own, Trail(Flatten(groups[i + 1..])));
  }

  lemma Pieces(rest: string, prefix: string, own: string, trail: string)
    ensures var all := rest + prefix + own + trail;
            var start := |rest + prefix|;
            && |prefix| <= start <= start + |own| <= |all|
            && all[start - |prefix|..start + |own|] == prefix + own
            && all[start..start + |own|] == own
  {
    Middle(rest + prefix, own, trail);
    Middle(rest, prefix + own, trail);
    assert rest + prefix + own + trail == rest + (prefix + own) + trail;
  }

  /** The chunks' own parts tile J: the first starts it, each next one starts one separator after
      the one before, the last one ends it. */
  lemma OwnPartsTile(sentences: seq<string>, maxChars: int, overlapChars: int, i: nat)
    requires AllClean(sentences) && i < |Groups(sentences, maxChars)|
    ensures var groups := Groups(sentences, maxChars);
            var all := Join(SPACE, sentences);
            var cs := ChunksOf(groups, overlapChars);
            var ownEnd := cs[i].end - |Prefix(groups, i, overlapChars)|;
            && (i == 0 ==> cs[i].start == 0)
            && (i + 1 < |cs| ==> cs[i + 1].start == ownEnd + 1 && ownEnd < |all| && all[ownEnd] == ' ')
            && (i + 1 == |cs| ==> ownEnd == |all|)
  {
    hide Groups, Join, Overlap, Prefix;
    GroupsClean(sentences, maxChars);
    OwnEnd(Groups(sentences, maxChars), overlapChars, i);
  }

  /** Where the own part of a chunk starts and ends in the join of everything. */
  lemma OwnEnd(groups: seq<seq<string>>, overlapChars: int, i: nat)
    requires i < |groups| && forall j :: 0 <= j < |groups| ==> groups[j] != [] && AllClean(groups[j])
    ensures var all := Join(SPACE, Flatten(groups));
            var c := ChunkAt(groups, i, overlapChars);
            var ownEnd := c.end - |Prefix(groups, i, overlapChars)|;
            && (i == 0 ==> c.start == 0)
            && (i + 1 < |groups| ==>
                  && ChunkAt(groups, i + 1, overlapChars).start == ownEnd + 1
                  && 0 <= ownEnd < |all| && all[ownEnd] == ' ')
            && (i + 1 == |groups| ==> ownEnd == |all|)
  {
    hide Join, Overlap, AllClean;
    ChunkTextUnstripped(groups, i, overlapChars);
    OwnTextInJoin(groups, i);
    var before, own := Lead(Flatten(groups[..i])), Join(SPACE, groups[i]);
    if i + 1 < |groups| {
      NextStart(groups, i);
      SpaceAfter(before + own, Trail(Flatten(groups[i + 1..])));
    } else {
      assert groups[i + 1..] == [];
    }
  }

  lemma SpaceAfter(text: string, trail: string)
    requires trail != "" && trail[0] == ' '
    ensures |text| < |text + trail| && (text + trail)[|text|] == ' '
  {
  }

  lemma NextStart(groups: seq<seq<string>>, i: nat)
    requires i + 1 < |groups| && groups[i] != [] && groups[i + 1] != []
    ensures Cost(Flatten(groups[..i + 1])) == Cost(Flatten(groups[..i])) + |Join(SPACE, groups[i])| + 1
    ensures Trail(Flatten(groups[i + 1..])) != "" && Trail(Flatten(groups[i + 1..]))[0] == ' '
  {
    FlattenSplit(groups[i + 1..], 0);
    assert groups[..i + 1] == groups[..i] + [groups[i]];
    FlattenSnoc(groups[..i], groups[i]);
    CostConcat(Flatten(groups[..i]), groups[i]);
    CostIsJoinLength(groups[i]);
  }
}
