/** How long the chunks of the sentence-accumulating chunker get (ingestion/chunker.py, class
    TurkishChunker), and exactly when they keep to MAX_CHARS. */
module ChunkLimits {
  import opened PyText
  import opened TurkishChunker

  // ---------------------------------------------------------------- upper bounds

  lemma PrefixLength(group: seq<string>, limit: nat)
    ensures |Overlap(group, limit)| <= limit + 1
  {
    OverlapStartIsLongest(group, |group|, limit);
  }

  ghost predicate AllAtMost(parts: seq<string>, limit: int) {
    forall i :: 0 <= i < |parts| ==> |parts[i]| <= limit
  }

  /** A group's own text is one sentence of the list, or stays below MAX_CHARS. */
  lemma OwnTextBound(sentences: seq<string>, maxChars: int, longest: int, i: nat)
    requires i < |Groups(sentences, maxChars)|
    requires maxChars - 1 <= longest && AllAtMost(sentences, longest)
    ensures |Join(SPACE, Groups(sentences, maxChars)[i])| <= longest
  {
    hide Groups, Join, Cost, Flatten;
    var groups := Groups(sentences, maxChars);
    GroupsPartition(sentences, maxChars);
    GroupsAdmissible(sentences, maxChars);
    CostIsJoinLength(groups[i]);
    if |groups[i]| == 1 {
      FlattenSplit(groups, i);
      JoinOfOne(groups[i]);
      assert groups[i][0] == sentences[|Flatten(groups[..i])|];
    }
  }

  lemma JoinOfOne(group: seq<string>)
    requires |group| == 1
    ensures Join(SPACE, group) == group[0]
  {
  }

  /** Every chunk stays within the longer of MAX_CHARS - 1 and its longest sentence, plus the
      overlap and its separator. */
  lemma ChunkSize(sentences: seq<string>, maxChars: int, overlapChars: nat, longest: int, i: nat)
    requires AllClean(sentences) && i < |Groups(sentences, maxChars)|
    requires maxChars - 1 <= longest && AllAtMost(sentences, longest)
    ensures |ChunksOf(Groups(sentences, maxChars), overlapChars)[i].text| <= longest + overlapChars + 1
  {
    hide Groups, Join, AllAtMost, Overlap, MakeChunk;
    var groups := Groups(sentences, maxChars);
    GroupsClean(sentences, maxChars);
    ChunkTextUnstripped(groups, i, overlapChars);
    OwnTextBound(sentences, maxChars, longest, i);
    if i > 0 {
      PrefixLength(groups[i - 1], overlapChars);
    }
  }

  /** With no sentence of MAX_CHARS or more, no chunk exceeds MAX_CHARS + OVERLAP_CHARS. */
  lemma ChunkSizeOfShortSentences(sentences: seq<string>, maxChars: int, overlapChars: nat, i: nat)
    requires AllClean(sentences) && i < |Groups(sentences, maxChars)|
    requires forall j :: 0 <= j < |sentences| ==> |sentences[j]| <= maxChars - 1
    ensures |ChunksOf(Groups(sentences, maxChars), overlapChars)[i].text| <= maxChars + overlapChars
  {
    ChunkSize(sentences, maxChars, overlapChars, maxChars - 1, i);
  }

  // ---------------------------------------------------------------- own text

  lemma {:induction false} SentenceWithinJoin(group: seq<string>, j: nat)
    requires j < |group|
    ensures |group[j]| <= |Join(SPACE, group)|
  {
    if |group| > 1 && j > 0 {
      SentenceWithinJoin(group[1..], j - 1);
    }
  }

  /** Every sentence is within the own text of some chunk. */
  lemma SentenceInGroup(sentences: seq<string>, maxChars: int, j: nat) returns (i: nat)
    requires j < |sentences|
    ensures i < |Groups(sentences, maxChars)|
    ensures |sentences[j]| <= |Join(SPACE, Groups(sentences, maxChars)[i])|
  {
    hide Groups, Join;
    GroupsPartition(sentences, maxChars);
    i := ElementInGroup(Groups(sentences, maxChars), j);
    var group := Groups(sentences, maxChars)[i];
    var k :| 0 <= k < |group| && group[k] == sentences[j];
    SentenceWithinJoin(group, k);
  }

  lemma {:induction false} ElementInGroup(groups: seq<seq<string>>, j: nat) returns (i: nat)
    requires j < |Flatten(groups)|
    ensures i < |groups| && Flatten(groups)[j] in groups[i]
  {
    if j < |groups[0]| {
      i := 0;
    } else {
      var later := ElementInGroup(groups[1..], j - |groups[0]|);
      i := later + 1;
    }
  }

  /** Every chunk's own text keeps to a limit, from MAX_CHARS - 1 up, exactly when every sentence
      does. */
  lemma OwnTextFitsIff(sentences: seq<string>, maxChars: int, limit: int)
    requires limit >= maxChars - 1
    ensures AllAtMost(Joined(Groups(sentences, maxChars)), limit) <==> AllAtMost(sentences, limit)
  {
    hide Groups, Join;
    var groups := Groups(sentences, maxChars);
    if AllAtMost(sentences, limit) {
      forall i: nat | i < |groups| ensures |Joined(groups)[i]| <= limit {
        OwnTextBound(sentences, maxChars, limit, i);
      }
    }
    if AllAtMost(Joined(groups), limit) {
      forall j: nat | j < |sentences| ensures |sentences[j]| <= limit {
        var i := SentenceInGroup(sentences, maxChars, j);
        assert |Joined(groups)[i]| <= limit;
      }
    }
  }

  // ---------------------------------------------------------------- merging is determined

  lemma ReachedOnce(sentences: seq<string>, m: nat, n: nat, minChars: int)
    requires m <= |sentences| && n <= |sentences|
    requires ReachesAtLast(sentences[..m], minChars) && ReachesAtLast(sentences[..n], minChars)
    ensures m >= n
  {
    hide Join;
    if m < n {
      var before := sentences[..n][..n - 1];
      assert before == sentences[..m] + sentences[m..n - 1];
      JoinGrows(sentences[..m], sentences[m..n - 1]);
    }
  }

  /** Runs that end in one that reaches the minimum length. */
  ghost predicate Reaching(runs: seq<seq<string>>, minChars: int) {
    runs != [] && Closed(runs[..|runs| - 1], minChars) && EndsMerge(runs[|runs| - 1], false, minChars)
  }

  /** The first run of such a list starts with a run that has just reached the minimum length; it is
      that run, or all that remains of it is too short for another. */
  lemma FirstReach(runs: seq<seq<string>>, minChars: int) returns (k: nat)
    requires Reaching(runs, minChars)
    ensures 0 < k <= |runs[0]| && ReachesAtLast(runs[0][..k], minChars)
    ensures |runs| > 1 ==> k == |runs[0]|
    ensures |runs| == 1 ==> Leftover(runs[0][k..], minChars)
  {
    hide ReachesAtLast, Leftover;
    if |runs| > 1 {
      k := |runs[0]|;
      assert runs[0][..k] == runs[0] && runs[..|runs| - 1][0] == runs[0];
      ReachedLength(runs[0], minChars);
    } else {
      k :| 0 < k <= |runs[0]| && ReachesAtLast(runs[0][..k], minChars) && Leftover(runs[0][k..], minChars);
    }
  }

  lemma ReachingTail(runs: seq<seq<string>>, minChars: int)
    requires Reaching(runs, minChars) && |runs| > 1
    ensures Reaching(runs[1..], minChars)
  {
    assert runs[1..][..|runs| - 2] == runs[..|runs| - 1][1..];
  }

  /** A single run cannot hold what two or more runs hold. */
  lemma OneRunIsNotTwo(one: seq<seq<string>>, more: seq<seq<string>>, minChars: int)
    requires |one| == 1 && Reaching(one, minChars) && Reaching(more, minChars)
    requires Flatten(one) == Flatten(more)
    ensures |more| == 1
  {
    hide Join, EndsMerge, Closed;
    var k := FirstReach(one, minChars);
    if |more| > 1 {
      FlattenOne(one[0]);
      var n := FirstReach(more, minChars);
      var sentences := one[0];
      assert one == [sentences];
      assert sentences[..n] == more[0] && sentences[n..] == Flatten(more[1..]);
      assert more[0][..n] == more[0];
      ReachedOnce(sentences, k, n, minChars);
      ReachedOnce(sentences, n, k, minChars);
      ReachingTail(more, minChars);
      TailReaches(more[1..], minChars);
    }
  }

  lemma TailReaches(runs: seq<seq<string>>, minChars: int)
    requires Reaching(runs, minChars)
    ensures !Leftover(Flatten(runs), minChars)
  {
    hide Join, EndsMerge, Closed;
    var k := FirstReach(runs, minChars);
    assert Flatten(runs) == runs[0][..k] + (runs[0][k..] + Flatten(runs[1..]));
    JoinGrows(runs[0][..k], runs[0][k..] + Flatten(runs[1..]));
  }

  lemma {:induction false} RunsAreUnique(runs: seq<seq<string>>, others: seq<seq<string>>, minChars: int)
    requires Reaching(runs, minChars) && Reaching(others, minChars) && Flatten(runs) == Flatten(others)
    ensures runs == others
    decreases |runs|
  {
    hide Join, EndsMerge, Closed, ReachesAtLast, Leftover;
    if |runs| == 1 {
      OneRunIsNotTwo(runs, others, minChars);
      FlattenOne(runs[0]);
      FlattenOne(others[0]);
      assert runs == [runs[0]] && others == [others[0]];
    } else if |others| == 1 {
      OneRunIsNotTwo(others, runs, minChars);
    } else {
      var m := FirstReach(runs, minChars);
      var n := FirstReach(others, minChars);
      var sentences := Flatten(runs);
      assert sentences[..m] == runs[0] == runs[0][..m] && sentences[..n] == others[0] == others[0][..n];
      ReachedOnce(sentences, m, n, minChars);
      ReachedOnce(sentences, n, m, minChars);
      assert sentences[m..] == Flatten(runs[1..]) && sentences[n..] == Flatten(others[1..]);
      ReachingTail(runs, minChars);
      ReachingTail(others, minChars);
      RunsAreUnique(runs[1..], others[1..], minChars);
      assert runs == [runs[0]] + runs[1..] && others == [others[0]] + others[1..];
    }
  }

  lemma ReachingOrLeftover(runs: seq<seq<string>>, sentences: seq<string>, minChars: int)
    requires MergeRuns(runs, sentences, minChars) && runs != []
    ensures Reaching(runs, minChars) || (runs == [sentences] && Leftover(sentences, minChars))
  {
    hide ReachesAtLast, Leftover;
    if !Reaching(runs, minChars) {
      FlattenOne(runs[0]);
      assert runs == [runs[0]];
    }
  }

  lemma NoSentences(runs: seq<seq<string>>, minChars: int)
    requires MergeRuns(runs, [], minChars)
    ensures runs == []
  {
    if runs != [] {
      FlattenSplit(runs, |runs| - 1);
    }
  }

  /** What comes out of merging is determined by what goes in. */
  lemma MergeIsUnique(sentences: seq<string>, merged: seq<string>, other: seq<string>, minChars: int)
    requires IsMerge(sentences, merged, minChars) && IsMerge(sentences, other, minChars)
    ensures merged == other
  {
    var runs: seq<seq<string>> :| MergeRuns(runs, sentences, minChars) && merged == Joined(runs);
    var others: seq<seq<string>> :| MergeRuns(others, sentences, minChars) && other == Joined(others);
    hide Join, EndsMerge, Closed, ReachesAtLast, Leftover;
    if sentences == [] {
      NoSentences(runs, minChars);
      NoSentences(others, minChars);
    } else {
      ReachingOrLeftover(runs, sentences, minChars);
      ReachingOrLeftover(others, sentences, minChars);
      if Reaching(runs, minChars) {
        TailReaches(runs, minChars);
      }
      if Reaching(others, minChars) {
        TailReaches(others, minChars);
      }
      if Reaching(runs, minChars) && Reaching(others, minChars) {
        RunsAreUnique(runs, others, minChars);
      }
    }
  }

  // ---------------------------------------------------------------- the whole text

  /** No chunk made of these merged sentences, overlap included, exceeds MAX_CHARS. */
  ghost predicate WholeTextWithin(merged: seq<string>, maxChars: int, overlapChars: int) {
    forall i :: 0 <= i < |Groups(merged, maxChars)| ==>
                  |ChunksOf(Groups(merged, maxChars), overlapChars)[i].text| <= maxChars
  }

  /** The limit holds for every sentence list whose merged sentences keep to it. */
  ghost predicate MergedLimit(maxChars: int, overlapChars: int, minChars: int) {
    forall sentences, merged ::
      AllClean(sentences) && IsMerge(sentences, merged, minChars) && AllAtMost(merged, maxChars) ==>
        WholeTextWithin(merged, maxChars, overlapChars)
  }

  /** The documented promise: it holds for every list of sentences that keep to it themselves. */
  ghost predicate DocumentedLimit(maxChars: int, overlapChars: int, minChars: int) {
    forall sentences, merged ::
      AllClean(sentences) && AllAtMost(sentences, maxChars) && IsMerge(sentences, merged, minChars) ==>
        WholeTextWithin(merged, maxChars, overlapChars)
  }

  /** The least length of a merged sentence that is not the only one. */
  function Least(minChars: int): nat {
    if minChars < 1 then 1 else minChars
  }

  lemma NoOverlap(group: seq<string>, limit: int)
    requires group != [] && |group[|group| - 1]| > limit
    ensures Overlap(group, limit) == ""
  {
    assert group[|group|..] == [];
  }

  lemma NoPrefix(merged: seq<string>, maxChars: int, overlapChars: int, i: nat)
    requires i < |Groups(merged, maxChars)|
    requires |merged| > 1 ==> forall j :: 0 <= j < |merged| ==> |merged[j]| > overlapChars
    ensures Prefix(Groups(merged, maxChars), i, overlapChars) == ""
  {
    hide Groups, Overlap;
    var groups := Groups(merged, maxChars);
    GroupsPartition(merged, maxChars);
    if i > 0 {
      FlattenSplit(groups, i - 1);
      FlattenSplit(groups[i..], 0);
      assert groups[i - 1 + 1..] == groups[i..];
      var last := groups[i - 1][|groups[i - 1]| - 1];
      assert last == merged[|Flatten(groups[..i - 1])| + |groups[i - 1]| - 1];
      NoOverlap(groups[i - 1], overlapChars);
    }
  }

  lemma LimitKept(sentences: seq<string>, merged: seq<string>, maxChars: int, overlapChars: int, minChars: int)
    requires AllClean(sentences) && IsMerge(sentences, merged, minChars) && AllAtMost(merged, maxChars)
    requires overlapChars < Least(minChars) || maxChars < Least(minChars)
    ensures WholeTextWithin(merged, maxChars, overlapChars)
  {
    hide Groups, Overlap, Prefix, IsMerge, Join;
    MergeKeepsTextAndLength(sentences, merged, minChars);
    GroupsClean(merged, maxChars);
    forall i: nat | i < |Groups(merged, maxChars)|
      ensures |ChunksOf(Groups(merged, maxChars), overlapChars)[i].text| <= maxChars
    {
      ChunkTextUnstripped(Groups(merged, maxChars), i, overlapChars);
      OwnTextBound(merged, maxChars, maxChars, i);
      NoPrefix(merged, maxChars, overlapChars, i);
    }
  }

  function Letters(n: nat): (s: string)
    ensures |s| == n
    ensures forall i :: 0 <= i < n ==> s[i] == 'a'
  {
    seq(n, i => 'a')
  }

  lemma LettersClean(n: nat)
    requires n > 0
    ensures Clean(Letters(n))
  {
    assert Letters(n)[0] == 'a' && Letters(n)[n - 1] == 'a';
  }

  /** Two sentences that make two chunks, the second one with the first as its overlap. */
  lemma TwoChunks(x: string, y: string, maxChars: int, overlapChars: int)
    requires Clean(x) && Clean(y) && |x| <= overlapChars && |y| == maxChars
    ensures !WholeTextWithin([x, y], maxChars, overlapChars)
  {
    var groups := Groups([x, y], maxChars);
    TwoGroups(x, y, maxChars);
    GroupsClean([x, y], maxChars);
    ChunkTextUnstripped(groups, 1, overlapChars);
    OneSentenceOverlap(x, overlapChars);
    hide Groups, Overlap, MakeChunk;
    assert |ChunksOf(groups, overlapChars)[1].text| == |x| + 1 + maxChars;
  }

  lemma TwoGroups(x: string, y: string, maxChars: int)
    requires |y| == maxChars
    ensures Groups([x, y], maxChars) == [[x], [y]]
  {
    assert [x, y][..1] == [x] && [x, y][1..] == [y];
    OneGroup(y, maxChars);
  }

  lemma OneGroup(y: string, maxChars: int)
    ensures Groups([y], maxChars) == [[y]]
  {
    assert [y][..1] == [y] && [y][1..] == [];
  }

  lemma OneSentenceOverlap(x: string, limit: int)
    requires |x| <= limit
    ensures Overlap([x], limit) == x + SPACE
  {
    assert [x][1..] == [] && [x][0..] == [x];
    assert OverlapStart([x], 0, limit) == 0;
    assert OverlapStart([x], 1, limit) == 0;
    JoinOfOne([x]);
  }

  /** Sentences that are long enough are merged with nothing. */
  lemma LongSentencesStay(sentences: seq<string>, minChars: int)
    requires forall i :: 0 <= i < |sentences| ==> |sentences[i]| >= minChars
    ensures IsMerge(sentences, sentences, minChars)
  {
    var runs := seq(|sentences|, i requires 0 <= i < |sentences| => [sentences[i]]);
    FlattenSingletons(sentences);
    assert Joined(runs) == sentences;
    if runs != [] {
      var last := runs[|runs| - 1];
      assert last[..1] == last && last[1..] == [];
      assert ReachesAtLast(last[..1], minChars) && Leftover(last[1..], minChars);
    }
    assert MergeRuns(runs, sentences, minChars);
  }

  lemma {:induction false} FlattenSingletons(sentences: seq<string>)
    ensures Flatten(seq(|sentences|, i requires 0 <= i < |sentences| => [sentences[i]])) == sentences
  {
    var runs := seq(|sentences|, i requires 0 <= i < |sentences| => [sentences[i]]);
    if sentences != [] {
      FlattenSingletons(sentences[1..]);
      assert runs[1..] == seq(|sentences[1..]|, i requires 0 <= i < |sentences[1..]| => [sentences[1..][i]]);
    }
  }

  lemma LimitBroken(maxChars: int, overlapChars: int, minChars: int) returns (sentences: seq<string>)
    requires Least(minChars) <= overlapChars && Least(minChars) <= maxChars
    ensures AllClean(sentences) && IsMerge(sentences, sentences, minChars) && AllAtMost(sentences, maxChars)
    ensures !WholeTextWithin(sentences, maxChars, overlapChars)
  {
    var x, y := Letters(Least(minChars)), Letters(maxChars);
    sentences := [x, y];
    LettersClean(Least(minChars));
    LettersClean(maxChars);
    hide IsMerge, WholeTextWithin;
    LongSentencesStay(sentences, minChars);
    TwoChunks(x, y, maxChars, overlapChars);
  }

  /** Whole chunks, overlap included, keep to MAX_CHARS for all merged sentences that do exactly when
      no merged sentence can be an overlap, or no two of them can be that short. */
  lemma MergedLimitIff(maxChars: int, overlapChars: int, minChars: int)
    ensures MergedLimit(maxChars, overlapChars, minChars)
       <==> overlapChars < Least(minChars) || maxChars < Least(minChars)
  {
    hide IsMerge, WholeTextWithin, AllClean, AllAtMost;
    if overlapChars < Least(minChars) || maxChars < Least(minChars) {
      forall sentences, merged |
        AllClean(sentences) && IsMerge(sentences, merged, minChars) && AllAtMost(merged, maxChars)
        ensures WholeTextWithin(merged, maxChars, overlapChars)
      {
        LimitKept(sentences, merged, maxChars, overlapChars, minChars);
      }
    } else {
      var sentences := LimitBroken(maxChars, overlapChars, minChars);
    }
  }

  /** A short sentence merged with one of exactly MAX_CHARS is already too long on its own. */
  lemma MergingBreaksLimit(maxChars: int, overlapChars: int, minChars: int)
    returns (sentences: seq<string>, merged: seq<string>)
    requires maxChars >= 1 && minChars > 1
    ensures AllClean(sentences) && AllAtMost(sentences, maxChars) && IsMerge(sentences, merged, minChars)
    ensures !WholeTextWithin(merged, maxChars, overlapChars)
  {
    hide WholeTextWithin, IsMerge;
    var x, y := Letters(1), Letters(maxChars);
    sentences, merged := [x, y], [x + SPACE + y];
    LettersClean(1);
    LettersClean(maxChars);
    ShortIsMerged(x, y, minChars);
    LongChunk(x + SPACE + y, maxChars, overlapChars);
  }

  lemma LongChunk(text: string, maxChars: int, overlapChars: int)
    requires Clean(text) && |text| > maxChars
    ensures !WholeTextWithin([text], maxChars, overlapChars)
  {
    OneGroup(text, maxChars);
    GroupsClean([text], maxChars);
    ChunkTextUnstripped([[text]], 0, overlapChars);
    hide Groups, Overlap, MakeChunk;
    assert |ChunksOf(Groups([text], maxChars), overlapChars)[0].text| == |text|;
  }

  lemma ShortIsMerged(x: string, y: string, minChars: int)
    requires |x| < minChars
    ensures IsMerge([x, y], [x + SPACE + y], minChars)
  {
    var run := [x, y];
    assert run[..2] == run && run[2..] == [] && run[..1] == [x] && run[1..] == [y];
    assert Join(SPACE, run) == x + SPACE + y;
    FlattenOne(run);
    assert Joined([run]) == [x + SPACE + y];
    if |x + SPACE + y| >= minChars {
      assert ReachesAtLast(run[..2], minChars) && Leftover(run[2..], minChars);
    }
    assert MergeRuns([run], run, minChars);
  }

  /** The documented promise, chunks not exceeding MAX_CHARS for sentences that do not, holds exactly
      when nothing is merged and nothing overlaps (or there can be no sentences). */
  lemma DocumentedLimitIff(maxChars: int, overlapChars: int, minChars: int)
    ensures DocumentedLimit(maxChars, overlapChars, minChars)
       <==> maxChars < 1 || (minChars <= 1 && overlapChars <= 0)
  {
    hide IsMerge, WholeTextWithin;
    if maxChars < 1 || (minChars <= 1 && overlapChars <= 0) {
      forall sentences, merged |
        AllClean(sentences) && AllAtMost(sentences, maxChars) && IsMerge(sentences, merged, minChars)
        ensures WholeTextWithin(merged, maxChars, overlapChars)
      {
        NothingMerged(sentences, merged, maxChars, minChars);
        LimitKept(sentences, merged, maxChars, overlapChars, minChars);
      }
    } else if minChars > 1 {
      var sentences, merged := MergingBreaksLimit(maxChars, overlapChars, minChars);
    } else {
      var sentences := LimitBroken(maxChars, overlapChars, minChars);
    }
  }

  lemma NothingMerged(sentences: seq<string>, merged: seq<string>, maxChars: int, minChars: int)
    requires AllClean(sentences) && AllAtMost(sentences, maxChars) && IsMerge(sentences, merged, minChars)
    requires maxChars < 1 || minChars <= 1
    ensures merged == sentences
  {
    hide IsMerge;
    LongSentencesStay(sentences, minChars);
    MergeIsUnique(sentences, merged, sentences, minChars);
  }

  /** It fails for the class's own values: 800, 150 and 40. */
  lemma DefaultsExceedMaxChars()
    ensures !MergedLimit(800, 150, 40) && !DocumentedLimit(800, 150, 40)
  {
    MergedLimitIff(800, 150, 40);
    DocumentedLimitIff(800, 150, 40);
  }
}
