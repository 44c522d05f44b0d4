/** The paragraph chunker (ingestion/chunker.py, class ParagraphChunker): paragraphs are merged as long
    as they fit, and a paragraph that does not fit is cut into fixed windows. The paragraphs, split on
    blank lines, stripped and not empty, are the input. */
module ParagraphChunker {
  import opened PyText
  import opened FixedSizeChunker

  const BREAK: string := "\n\n"

  // ---------------------------------------------------------------- merging

  function Extended(buf: string, para: string): string {
    if buf == "" then para else Strip(buf + BREAK + para)
  }

  function Pending(buf: string): seq<string> {
    if buf == "" then [] else [buf]
  }

  /** The merged paragraphs, with `buf` already collected. */
  function MergeFrom(buf: string, paras: seq<string>, maxChars: nat): seq<string>
    decreases |paras|
  {
    if paras == [] then Pending(buf)
    else
      var candidate := Extended(buf, paras[0]);
      if |candidate| <= maxChars then MergeFrom(candidate, paras[1..], maxChars)
      else Pending(buf) + MergeFrom(paras[0], paras[1..], maxChars)
  }

  method MergeParagraphs(paras: seq<string>, maxChars: nat) returns (merged: seq<string>)
    ensures merged == MergeFrom("", paras, maxChars)
  {
    hide Extended;
    merged := [];
    var buf := "";
    for i := 0 to |paras|
      invariant MergeFrom("", paras, maxChars) == merged + MergeFrom(buf, paras[i..], maxChars)
    {
      var candidate := Extended(buf, paras[i]);
      assert paras[i..][1..] == paras[i + 1..];
      if |candidate| <= maxChars {
        buf := candidate;
      } else {
        merged := merged + Pending(buf);
        buf := paras[i];
      }
    }
    merged := merged + Pending(buf);
  }

  lemma ExtendedIsJoined(buf: string, para: string)
    requires (buf == "" || Clean(buf)) && Clean(para)
    ensures Clean(Extended(buf, para))
    ensures Extended(buf, para) == if buf == "" then para else buf + BREAK + para
  {
    if buf != "" {
      StripOfStripped(buf + BREAK + para);
    }
  }

  /** Merging loses and adds nothing: joined on blank lines, the merged paragraphs are the text. */
  lemma {:induction false} MergeKeepsText(buf: string, paras: seq<string>, maxChars: nat)
    requires (buf == "" || Clean(buf)) && AllClean(paras)
    ensures AllClean(MergeFrom(buf, paras, maxChars))
    ensures Join(BREAK, MergeFrom(buf, paras, maxChars)) == Join(BREAK, Pending(buf) + paras)
    decreases |paras|
  {
    hide Extended, Stripped;
    if paras == [] {
      assert Pending(buf) + paras == Pending(buf);
    } else {
      var candidate, rest := Extended(buf, paras[0]), paras[1..];
      ExtendedIsJoined(buf, paras[0]);
      assert paras == [paras[0]] + rest;
      if |candidate| <= maxChars {
        MergeKeepsText(candidate, rest, maxChars);
        JoinedPair(buf, paras[0], rest);
      } else {
        MergeKeepsText(paras[0], rest, maxChars);
        var later := MergeFrom(paras[0], rest, maxChars);
        MergeNotEmpty(paras[0], rest, maxChars);
        assert Pending(paras[0]) + rest == paras;
        assert buf == "" ==> [] + later == later && [] + paras == paras;
        if buf != "" {
          JoinConcat(BREAK, [buf], later);
          JoinConcat(BREAK, [buf], paras);
        }
      }
    }
  }

  lemma JoinedPair(buf: string, para: string, rest: seq<string>)
    requires para != ""
    ensures Join(BREAK, Pending(if buf == "" then para else buf + BREAK + para) + rest)
         == Join(BREAK, Pending(buf) + ([para] + rest))
  {
    if buf != "" {
      var both := buf + BREAK + para;
      assert Pending(buf) + ([para] + rest) == [buf, para] + rest;
      assert Join(BREAK, [buf, para]) == both;
      if rest == [] {
        assert [buf, para] + rest == [buf, para] && [both] + rest == [both];
      } else {
        JoinConcat(BREAK, [both], rest);
        JoinConcat(BREAK, [buf, para], rest);
      }
    } else {
      assert Pending(buf) + ([para] + rest) == [para] + rest;
    }
  }

  lemma {:induction false} MergeNotEmpty(buf: string, paras: seq<string>, maxChars: nat)
    requires (buf == "" || Clean(buf)) && AllClean(paras) && (buf != "" || paras != [])
    ensures MergeFrom(buf, paras, maxChars) != []
    decreases |paras|
  {
    hide Extended;
    if paras != [] {
      ExtendedIsJoined(buf, paras[0]);
      MergeNotEmpty(Extended(buf, paras[0]), paras[1..], maxChars);
      MergeNotEmpty(paras[0], paras[1..], maxChars);
    }
  }

  /** Only a paragraph of the text itself can be too long: merging never makes one. */
  ghost predicate FitsOrIsOne(text: string, buf: string, paras: seq<string>, maxChars: nat) {
    |text| <= maxChars || text == buf || text in paras
  }

  lemma {:induction false} MergedFitOrAreSingle(buf: string, paras: seq<string>, maxChars: nat, k: nat)
    requires k < |MergeFrom(buf, paras, maxChars)|
    ensures FitsOrIsOne(MergeFrom(buf, paras, maxChars)[k], buf, paras, maxChars)
    decreases |paras|
  {
    hide Extended;
    if paras != [] {
      var candidate := Extended(buf, paras[0]);
      if |candidate| <= maxChars {
        MergedFitOrAreSingle(candidate, paras[1..], maxChars, k);
      } else if k >= |Pending(buf)| {
        MergedFitOrAreSingle(paras[0], paras[1..], maxChars, k - |Pending(buf)|);
      }
    }
  }

  // ---------------------------------------------------------------- chunks

  function Shifted(cs: seq<Chunk>, pos: nat, index: nat): (shifted: seq<Chunk>)
    ensures |shifted| == |cs|
  {
    seq(|cs|, j requires 0 <= j < |cs| => Chunk(cs[j].text, index + j, cs[j].start + pos, cs[j].end + pos))
  }

  function ParagraphChunks(para: string, pos: nat, index: nat, maxChars: nat, overlapChars: nat): seq<Chunk>
    requires Advances(|para|, maxChars, overlapChars)
  {
    if |para| <= maxChars then [Chunk(para, index, pos, pos + |para|)]
    else Shifted(ChunksFrom(para, 0, 0, maxChars, overlapChars), pos, index)
  }

  predicate AllAdvance(paras: seq<string>, maxChars: nat, overlapChars: nat) {
    forall i :: 0 <= i < |paras| ==> Advances(|paras[i]|, maxChars, overlapChars)
  }

  function ChunksOf(paras: seq<string>, pos: nat, index: nat, maxChars: nat, overlapChars: nat): seq<Chunk>
    requires AllAdvance(paras, maxChars, overlapChars)
  {
    if paras == [] then []
    else
      var here := ParagraphChunks(paras[0], pos, index, maxChars, overlapChars);
      here + ChunksOf(paras[1..], pos + |paras[0]|, index + |here|, maxChars, overlapChars)
  }

  /** `chunk`, from the split paragraphs on */
  method ChunkParagraphs(paras: seq<string>, maxChars: nat, overlapChars: nat) returns (result: seq<Chunk>)
    requires AllAdvance(MergeFrom("", paras, maxChars), maxChars, overlapChars)
    ensures result == ChunksOf(MergeFrom("", paras, maxChars), 0, 0, maxChars, overlapChars)
  {
    var merged := MergeParagraphs(paras, maxChars);
    hide MergeFrom, ChunksFrom, ChunksOf;
    result := [];
    var pos: nat := 0;
    for i := 0 to |merged|
      invariant ChunksOf(merged, 0, 0, maxChars, overlapChars)
             == result + ChunksOf(merged[i..], pos, |result|, maxChars, overlapChars)
    {
      var para := merged[i];
      NextParagraph(merged, i, pos, |result|, maxChars, overlapChars);
      if |para| <= maxChars {
        result := result + [Chunk(para, |result|, pos, pos + |para|)];
      } else {
        var subChunks := ChunkText(para, maxChars, overlapChars);
        result := result + Shifted(subChunks, pos, |result|);
      }
      pos := pos + |para|;
    }
    NoParagraphs(pos, |result|, maxChars, overlapChars);
  }

  lemma NextParagraph(paras: seq<string>, i: nat, pos: nat, index: nat, maxChars: nat, overlapChars: nat)
    requires i < |paras| && AllAdvance(paras, maxChars, overlapChars)
    ensures var here := ParagraphChunks(paras[i], pos, index, maxChars, overlapChars);
            ChunksOf(paras[i..], pos, index, maxChars, overlapChars) ==
            here + ChunksOf(paras[i + 1..], pos + |paras[i]|, index + |here|, maxChars, overlapChars)
  {
    hide ParagraphChunks, Advances;
    assert paras[i..][1..] == paras[i + 1..];
  }

  lemma NoParagraphs(pos: nat, index: nat, maxChars: nat, overlapChars: nat)
    ensures ChunksOf([], pos, index, maxChars, overlapChars) == []
  {
  }

  lemma WindowShift(before: string, para: string, after: string, c: Chunk, index: nat, maxChars: nat)
    requires IsWindow(para, c, maxChars)
    ensures IsWindow(before + para + after, Chunk(c.text, index, c.start + |before|, c.end + |before|), maxChars)
  {
    assert (before + para + after)[c.start + |before|..c.end + |before|] == para[c.start..c.end];
  }

  lemma ParagraphWindows(before: string, para: string, after: string, index: nat, maxChars: nat, overlapChars: nat)
    requires Advances(|para|, maxChars, overlapChars) && Clean(para)
    ensures AreWindows(before + para + after, ParagraphChunks(para, |before|, index, maxChars, overlapChars),
                       index, maxChars)
  {
    hide ChunksFrom, IsWindow, Clean;
    if |para| <= maxChars {
      WholeWindow(para, maxChars);
      WindowShift(before, para, after, Chunk(para, 0, 0, |para|), index, maxChars);
    } else {
      var cs := ChunksFrom(para, 0, 0, maxChars, overlapChars);
      ChunksAreWindows(para, 0, 0, maxChars, overlapChars);
      forall j | 0 <= j < |cs| ensures IsWindow(before + para + after, Shifted(cs, |before|, index)[j], maxChars) {
        WindowShift(before, para, after, cs[j], index + j, maxChars);
      }
    }
  }

  lemma WholeWindow(para: string, maxChars: nat)
    requires Clean(para) && |para| <= maxChars
    ensures IsWindow(para, Chunk(para, 0, 0, |para|), maxChars)
  {
    StripOfStripped(para);
    assert para[0..|para|] == para;
  }

  /** Every chunk, whole paragraph or fixed window, is the stripped text between its own offsets in the
      concatenation of the merged paragraphs, is at most `maxChars` long, and carries the next index. */
  lemma {:induction false} OffsetsCountMergedText(before: string, paras: seq<string>, index: nat,
                                                  maxChars: nat, overlapChars: nat)
    requires AllAdvance(paras, maxChars, overlapChars) && AllClean(paras)
    ensures AreWindows(before + Flatten(paras), ChunksOf(paras, |before|, index, maxChars, overlapChars),
                       index, maxChars)
    decreases |paras|
  {
    hide IsWindow, ParagraphChunks, Advances, Clean;
    if paras != [] {
      var here := ParagraphChunks(paras[0], |before|, index, maxChars, overlapChars);
      var rest := Flatten(paras[1..]);
      assert before + Flatten(paras) == before + paras[0] + rest;
      ParagraphWindows(before, paras[0], rest, index, maxChars, overlapChars);
      OffsetsCountMergedText(before + paras[0], paras[1..], index + |here|, maxChars, overlapChars);
    }
  }

  ghost predicate Covered(cs: seq<Chunk>, i: int) {
    exists j :: 0 <= j < |cs| && Covers(cs[j], i)
  }

  /** Every character of the merged paragraphs that is not blank lies in some chunk. */
  lemma {:induction false} ParagraphsCovered(before: string, paras: seq<string>, index: nat,
                                             maxChars: nat, overlapChars: nat, i: nat)
    requires AllAdvance(paras, maxChars, overlapChars)
    requires |before| <= i < |before + Flatten(paras)| && !IsSpace((before + Flatten(paras))[i])
    ensures Covered(ChunksOf(paras, |before|, index, maxChars, overlapChars), i)
    decreases |paras|
  {
    hide IsSpace, ParagraphChunks, Advances, Covered;
    var para := paras[0];
    var here := ParagraphChunks(para, |before|, index, maxChars, overlapChars);
    var later := ChunksOf(paras[1..], |before| + |para|, index + |here|, maxChars, overlapChars);
    assert before + Flatten(paras) == before + para + Flatten(paras[1..]);
    CoveredInEither(here, later, i);
    if i >= |before| + |para| {
      ParagraphsCovered(before + para, paras[1..], index + |here|, maxChars, overlapChars, i);
    } else {
      assert (before + para + Flatten(paras[1..]))[i] == para[i - |before|];
      ParagraphCovered(para, |before|, index, maxChars, overlapChars, i - |before|);
    }
  }

  lemma CoveredInEither(here: seq<Chunk>, later: seq<Chunk>, i: int)
    ensures Covered(here, i) || Covered(later, i) ==> Covered(here + later, i)
  {
    if Covered(here, i) {
      var j :| 0 <= j < |here| && Covers(here[j], i);
      assert Covers((here + later)[j], i);
    } else if Covered(later, i) {
      var j :| 0 <= j < |later| && Covers(later[j], i);
      assert Covers((here + later)[|here| + j], i);
    }
  }

  lemma ParagraphCovered(para: string, pos: nat, index: nat, maxChars: nat, overlapChars: nat, i: nat)
    requires Advances(|para|, maxChars, overlapChars) && i < |para| && !IsSpace(para[i])
    ensures Covered(ParagraphChunks(para, pos, index, maxChars, overlapChars), pos + i)
  {
    hide ChunksFrom, Advances, IsSpace;
    var chunks := ParagraphChunks(para, pos, index, maxChars, overlapChars);
    if |para| > maxChars {
      ChunksCover(para, 0, 0, maxChars, overlapChars, i);
      var cs := ChunksFrom(para, 0, 0, maxChars, overlapChars);
      var k :| 0 <= k < |cs| && Covers(cs[k], i);
      assert Covers(chunks[k], pos + i);
    } else {
      assert Covers(chunks[0], pos + i);
    }
  }

  /** The whole chunker: the merged paragraphs are the text, and the chunks are windows of at most
      `maxChars` characters on their concatenation. The offsets count no blank lines, so they fall
      behind the joined text by two for every break between merged paragraphs. */
  lemma ParagraphChunksAreExact(paras: seq<string>, maxChars: nat, overlapChars: nat)
    requires AllClean(paras) && AllAdvance(MergeFrom("", paras, maxChars), maxChars, overlapChars)
    ensures var merged := MergeFrom("", paras, maxChars);
            && Join(BREAK, merged) == Join(BREAK, paras)
            && AreWindows(Flatten(merged), ChunksOf(merged, 0, 0, maxChars, overlapChars), 0, maxChars)
    ensures var merged := MergeFrom("", paras, maxChars);
            forall i :: 0 <= i < |Flatten(merged)| && !IsSpace(Flatten(merged)[i])
                     ==> Covered(ChunksOf(merged, 0, 0, maxChars, overlapChars), i)
  {
    var merged := MergeFrom("", paras, maxChars);
    MergeKeepsText("", paras, maxChars);
    assert [] + paras == paras;
    OffsetsCountMergedText("", merged, 0, maxChars, overlapChars);
    assert "" + Flatten(merged) == Flatten(merged);
    forall i | 0 <= i < |Flatten(merged)| && !IsSpace(Flatten(merged)[i])
      ensures Covered(ChunksOf(merged, 0, 0, maxChars, overlapChars), i)
    {
      ParagraphsCovered("", merged, 0, maxChars, overlapChars, i);
    }
  }

  // ---------------------------------------------------------------- exactly which paragraphs, and where cut

  /** The merged paragraphs join consecutive groups on blank lines; a paragraph joins the one before it exactly
      if it fits. */
  ghost predicate MergedInTurn(merged: seq<string>, groups: seq<seq<string>>, maxChars: nat) {
    && |merged| == |groups|
    && (forall i :: 0 <= i < |groups| ==> MergedGroup(merged[i], groups[i], maxChars))
    && (forall i :: 0 < i < |groups| ==> Full(merged[i - 1], groups[i], maxChars))
  }

  ghost predicate MergedGroup(text: string, group: seq<string>, maxChars: nat) {
    group != [] && text == Join(BREAK, group) && (|group| > 1 ==> |text| <= maxChars)
  }

  /** The first paragraph of the next group would not have fitted in. */
  predicate Full(text: string, next: seq<string>, maxChars: nat) {
    next != [] && |text| + |BREAK| + |next[0]| > maxChars
  }

  lemma OneMoreMerged(buf: string, current: seq<string>, merged: seq<string>, groups: seq<seq<string>>, maxChars: nat)
    requires MergedInTurn(merged, groups, maxChars) && groups != []
    requires MergedGroup(buf, current, maxChars) && Full(buf, groups[0], maxChars)
    ensures MergedInTurn([buf] + merged, [current] + groups, maxChars)
  {
    hide MergedGroup, Full;
    var all, sets := [buf] + merged, [current] + groups;
    forall i | 0 < i < |sets| ensures Full(all[i - 1], sets[i], maxChars) {
      assert i > 1 ==> Full(merged[i - 2], groups[i - 1], maxChars);
    }
  }

  lemma {:induction false} MergeGroups(buf: string, current: seq<string>, paras: seq<string>, maxChars: nat)
    returns (groups: seq<seq<string>>)
    requires AllClean(paras) && Clean(buf) && MergedGroup(buf, current, maxChars)
    ensures Flatten(groups) == current + paras && groups != [] && current <= groups[0]
    ensures MergedInTurn(MergeFrom(buf, paras, maxChars), groups, maxChars)
    decreases |paras|
  {
    hide Extended, Flatten, Join, Stripped;
    if paras == [] {
      groups := [current];
      FlattenOne(current);
      assert current + paras == current;
    } else {
      var para, rest := paras[0], paras[1..];
      ExtendedIsJoined(buf, para);
      if |Extended(buf, para)| <= maxChars {
        JoinConcat(BREAK, current, [para]);
        JoinedAlone(para);
        groups := MergeGroups(Extended(buf, para), current + [para], rest, maxChars);
        assert current + [para] + rest == current + paras;
      } else {
        JoinedAlone(para);
        var others := MergeGroups(para, [para], rest, maxChars);
        groups := [current] + others;
        FlattenCons(current, others);
        assert [para] + rest == paras;
        OneMoreMerged(buf, current, MergeFrom(para, rest, maxChars), others, maxChars);
      }
    }
  }

  lemma JoinedAlone(para: string)
    ensures Join(BREAK, [para]) == para
  {
  }

  /** Merging is greedy: consecutive groups of the paragraphs, each as large as the limit allows. */
  lemma ParagraphsMergeInTurn(paras: seq<string>, maxChars: nat)
    requires AllClean(paras)
    ensures exists groups: seq<seq<string>> ::
              Flatten(groups) == paras && MergedInTurn(MergeFrom("", paras, maxChars), groups, maxChars)
  {
    if paras == [] {
      var none: seq<seq<string>> := [];
      assert Flatten(none) == paras && MergedInTurn(MergeFrom("", paras, maxChars), none, maxChars);
    } else {
      JoinedAlone(paras[0]);
      assert MergedGroup(paras[0], [paras[0]], maxChars);
      var groups := MergeGroups(paras[0], [paras[0]], paras[1..], maxChars);
      assert [paras[0]] + paras[1..] == paras;
      assert MergeFrom("", paras, maxChars) == MergeFrom(paras[0], paras[1..], maxChars);
    }
  }

  /** The chunks `part` are the windows of one paragraph, which starts at `pos`. */
  ghost predicate WindowsOf(para: string, part: seq<Chunk>, pos: nat, index: nat, maxChars: nat, overlapChars: nat) {
    exists ns: seq<nat> :: WindowsAre(para, part, ns, 0, pos, index, maxChars, overlapChars)
  }

  lemma ShiftWindows(para: string, cs: seq<Chunk>, ns: seq<nat>, pos: nat, index: nat, maxChars: nat, overlapChars: nat)
    requires WindowsAre(para, cs, ns, 0, 0, 0, maxChars, overlapChars)
    ensures WindowsAre(para, Shifted(cs, pos, index), ns, 0, pos, index, maxChars, overlapChars)
  {
    hide Strip, Reached, HasInk, Offset;
  }

  lemma OneWindow(para: string, pos: nat, index: nat, maxChars: nat, overlapChars: nat)
    requires Clean(para) && |para| <= maxChars
    ensures WindowsAre(para, [Chunk(para, index, pos, pos + |para|)], [0], 0, pos, index, maxChars, overlapChars)
  {
    hide IsNthWindow, Reached, Clean, WindowsAre;
    var c := Chunk(para, index, pos, pos + |para|);
    WholeIsFirstWindow(para, c, pos, maxChars, overlapChars);
    SingleWindow(|para|, maxChars, overlapChars);
    NoWindows(para, 1, pos, index + 1, maxChars, overlapChars);
    FirstWindow(para, c, [], [], 0, pos, index, maxChars, overlapChars);
    assert [c] + [] == [c];
    assert [0] + [] == [0];
  }

  lemma WholeIsFirstWindow(para: string, c: Chunk, pos: nat, maxChars: nat, overlapChars: nat)
    requires Clean(para) && |para| <= maxChars && c.text == para && c.start == pos && c.end == pos + |para|
    ensures IsNthWindow(para, c, 0, pos, maxChars, overlapChars)
  {
    StripOfStripped(para);
    hide Strip, Offset;
    FirstOffset(maxChars, overlapChars);
    assert para[0..|para|] == para;
  }

  lemma ParagraphIsWindows(para: string, pos: nat, index: nat, maxChars: nat, overlapChars: nat)
    requires Advances(|para|, maxChars, overlapChars) && Clean(para)
    ensures WindowsOf(para, ParagraphChunks(para, pos, index, maxChars, overlapChars), pos, index, maxChars,
                      overlapChars)
  {
    hide WindowsAre, Clean;
    if |para| <= maxChars {
      OneWindow(para, pos, index, maxChars, overlapChars);
    } else {
      ChunksAreTheWindows(para, maxChars, overlapChars);
      var cs := ChunksFrom(para, 0, 0, maxChars, overlapChars);
      var ns: seq<nat> :| WindowsAre(para, cs, ns, 0, 0, 0, maxChars, overlapChars);
      ShiftWindows(para, cs, ns, pos, index, maxChars, overlapChars);
    }
  }

  /** The chunks of the paragraphs one after the other: paragraph `p` starts behind those before it, and its
      chunks are numbered on from theirs. */
  ghost predicate ByParagraph(paras: seq<string>, parts: seq<seq<Chunk>>, pos: nat, index: nat, maxChars: nat,
                              overlapChars: nat)
  {
    && |parts| == |paras|
    && forall p :: 0 <= p < |paras| ==>
         WindowsOf(paras[p], parts[p], pos + |Flatten(paras[..p])|, index + |Flatten(parts[..p])|, maxChars,
                   overlapChars)
  }

  lemma FirstParagraph(paras: seq<string>, here: seq<Chunk>, parts: seq<seq<Chunk>>, pos: nat, index: nat,
                       maxChars: nat, overlapChars: nat)
    requires paras != [] && WindowsOf(paras[0], here, pos, index, maxChars, overlapChars)
    requires ByParagraph(paras[1..], parts, pos + |paras[0]|, index + |here|, maxChars, overlapChars)
    ensures ByParagraph(paras, [here] + parts, pos, index, maxChars, overlapChars)
  {
    hide WindowsOf;
    var all := [here] + parts;
    forall p | 0 <= p < |paras|
      ensures WindowsOf(paras[p], all[p], pos + |Flatten(paras[..p])|, index + |Flatten(all[..p])|, maxChars,
                        overlapChars)
    {
      if p > 0 {
        assert paras[..p] == [paras[0]] + paras[1..][..p - 1] && all[..p] == [here] + parts[..p - 1];
        FlattenCons(paras[0], paras[1..][..p - 1]);
        FlattenCons(here, parts[..p - 1]);
      }
    }
  }

  lemma {:induction false} ChunksByParagraph(paras: seq<string>, pos: nat, index: nat, maxChars: nat, overlapChars: nat)
    returns (parts: seq<seq<Chunk>>)
    requires AllAdvance(paras, maxChars, overlapChars) && AllClean(paras)
    ensures Flatten(parts) == ChunksOf(paras, pos, index, maxChars, overlapChars)
    ensures ByParagraph(paras, parts, pos, index, maxChars, overlapChars)
    decreases |paras|
  {
    hide WindowsOf, ParagraphChunks, Advances, Clean;
    parts := [];
    if paras != [] {
      var here := ParagraphChunks(paras[0], pos, index, maxChars, overlapChars);
      ParagraphIsWindows(paras[0], pos, index, maxChars, overlapChars);
      var others := ChunksByParagraph(paras[1..], pos + |paras[0]|, index + |here|, maxChars, overlapChars);
      FirstParagraph(paras, here, others, pos, index, maxChars, overlapChars);
      FlattenCons(here, others);
      parts := [here] + others;
    }
  }

  /** The chunks of the paragraphs: each merged paragraph's own windows, so a paragraph that fits is one chunk
      and a longer one is cut every max - overlap characters. */
  lemma ParagraphsAreCutIntoWindows(paras: seq<string>, maxChars: nat, overlapChars: nat)
    requires AllClean(paras) && AllAdvance(MergeFrom("", paras, maxChars), maxChars, overlapChars)
    ensures var merged := MergeFrom("", paras, maxChars);
            exists parts: seq<seq<Chunk>> ::
              Flatten(parts) == ChunksOf(merged, 0, 0, maxChars, overlapChars)
              && ByParagraph(merged, parts, 0, 0, maxChars, overlapChars)
  {
    MergeKeepsText("", paras, maxChars);
    var parts := ChunksByParagraph(MergeFrom("", paras, maxChars), 0, 0, maxChars, overlapChars);
  }
}
