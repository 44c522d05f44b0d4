/** The separator-driven chunker (ingestion/chunker.py, class RecursiveChunker): recursive
    splitting into pieces, then merging the pieces with overlap. */
module RecursiveChunker {
  import opened PyText

  const SEPARATORS: seq<string> := ["\n\n", "\n", ". ", "! ", "? ", " ", ""]

  // ---------------------------------------------------------------- str.split

  /** The first place where `sep` occurs in `text`, or -1. */
  function Find(text: string, sep: string): (i: int)
    requires sep != ""
    ensures -1 <= i <= |text| - |sep| || i == -1
    ensures i >= 0 ==> text[i..i + |sep|] == sep
  {
    if |text| < |sep| then -1
    else if text[..|sep|] == sep then 0
    else
      var i := Find(text[1..], sep);
      if i < 0 then -1 else i + 1
  }

  /** `text.split(sep)` */
  function SplitOn(text: string, sep: string): (parts: seq<string>)
    requires sep != ""
    ensures parts != []
    decreases |text|
  {
    var i := Find(text, sep);
    if i < 0 then [text] else [text[..i]] + SplitOn(text[i + |sep|..], sep)
  }

  /** Splitting loses nothing but the separators: joining on the separator restores the text. */
  lemma {:induction false} SplitThenJoin(text: string, sep: string)
    requires sep != ""
    ensures Join(sep, SplitOn(text, sep)) == text
    decreases |text|
  {
    var i := Find(text, sep);
    if i >= 0 {
      SplitThenJoin(text[i + |sep|..], sep);
      assert text == text[..i] + text[i..i + |sep|] + text[i + |sep|..];
      assert SplitOn(text, sep)[1..] == SplitOn(text[i + |sep|..], sep);
    }
  }

  ghost predicate NoPartHolds(parts: seq<string>, sep: string)
    requires sep != ""
  {
    forall k :: 0 <= k < |parts| ==> Find(parts[k], sep) == -1
  }

  /** ... and no part still holds the separator. */
  lemma {:induction false} SplitPartsFree(text: string, sep: string)
    requires sep != ""
    ensures NoPartHolds(SplitOn(text, sep), sep)
    decreases |text|
  {
    var i := Find(text, sep);
    hide Find, NoPartHolds;
    if i >= 0 {
      var rest := text[i + |sep|..];
      assert SplitOn(text, sep) == [text[..i]] + SplitOn(rest, sep);
      hide SplitOn;
      FindBefore(text, sep);
      SplitPartsFree(rest, sep);
      ConsHolds(text[..i], SplitOn(rest, sep), sep);
    } else {
      ConsHolds(text, [], sep);
    }
  }

  lemma ConsHolds(part: string, parts: seq<string>, sep: string)
    requires sep != "" && Find(part, sep) == -1
    ensures NoPartHolds(parts, sep) ==> NoPartHolds([part] + parts, sep)
    ensures NoPartHolds([part], sep)
  {
    hide Find;
  }

  lemma {:induction false} FindBefore(text: string, sep: string)
    requires sep != "" && Find(text, sep) >= 0
    ensures Find(text[..Find(text, sep)], sep) == -1
  {
    var i := Find(text, sep);
    if i >= |sep| {
      var before := text[..i];
      assert text[..|sep|] != sep && Find(text[1..], sep) == i - 1;
      FindBefore(text[1..], sep);
      assert before[1..] == text[1..][..i - 1];
      assert before[..|sep|] == text[..|sep|];
    }
  }

  // ---------------------------------------------------------------- what must survive

  /** The characters no separator and no stripping may remove. */
  predicate IsCore(c: char) {
    !IsSpace(c) && c != '.' && c != '!' && c != '?'
  }

  function Core(s: string): string {
    if s == "" then ""
    else (if IsCore(s[0]) then [s[0]] else "") + Core(s[1..])
  }

  lemma {:induction false} CoreConcat(a: string, b: string)
    ensures Core(a + b) == Core(a) + Core(b)
  {
    if a == "" {
      assert a + b == b;
    } else {
      CoreConcat(a[1..], b);
      hide IsCore;
      assert (a + b)[0] == a[0] && (a + b)[1..] == a[1..] + b;
      Associative(if IsCore(a[0]) then [a[0]] else "", Core(a[1..]), Core(b));
    }
  }

  lemma {:induction false} CoreLStrip(s: string)
    ensures Core(LStrip(s)) == Core(s)
  {
    if s != "" && IsSpace(s[0]) {
      CoreLStrip(s[1..]);
    }
  }

  lemma {:induction false} CoreRStrip(s: string)
    ensures Core(RStrip(s)) == Core(s)
  {
    if s != "" && IsSpace(s[|s| - 1]) {
      CoreRStrip(s[..|s| - 1]);
      assert s == s[..|s| - 1] + [s[|s| - 1]];
      CoreConcat(s[..|s| - 1], [s[|s| - 1]]);
    }
  }

  lemma CoreStrip(s: string)
    ensures Core(Strip(s)) == Core(s)
  {
    CoreLStrip(s);
    CoreRStrip(LStrip(s));
  }

  lemma {:induction false} CoreSplitOn(text: string, sep: string)
    requires sep != "" && Core(sep) == ""
    ensures Core(Flatten(SplitOn(text, sep))) == Core(text)
    decreases |text|
  {
    hide Core, Flatten, Find;
    var i := Find(text, sep);
    if i < 0 {
      FlattenOne(text);
    } else {
      var head, tail := text[..i], text[i + |sep|..];
      CutTwice(text, i, i + |sep|);
      CoreConcat(head, sep + tail);
      CoreConcat(sep, tail);
      CoreSplitOn(tail, sep);
      FlattenCons(head, SplitOn(tail, sep));
      CoreConcat(head, Flatten(SplitOn(tail, sep)));
    }
  }

  // ---------------------------------------------------------------- splitting

  function Letters(text: string): seq<string> {
    if text == "" then [] else [[text[0]]] + Letters(text[1..])
  }

  lemma {:induction false} LettersFlatten(text: string)
    ensures Flatten(Letters(text)) == text
    ensures forall i :: 0 <= i < |Letters(text)| ==> |Letters(text)[i]| == 1
  {
    if text != "" {
      LettersFlatten(text[1..]);
    }
  }

  /** `text.split(sep) if sep else list(text)` */
  function Parts(text: string, sep: string): seq<string> {
    if sep == "" then Letters(text) else SplitOn(text, sep)
  }

  /** The pieces `_split` makes of a text. */
  function Split(text: string, separators: seq<string>, maxChars: int): seq<string>
    decreases |separators|, 0
  {
    if |text| <= maxChars || separators == [] then
      if text != "" then [text] else []
    else
      SplitParts(Parts(text, separators[0]), separators[1..], maxChars)
  }

  /** The pieces of one part, once it is stripped. */
  function PartPieces(part: string, rest: seq<string>, maxChars: int): seq<string>
    decreases |rest|, 1
  {
    var p := Strip(part);
    if p == "" then [] else if |p| <= maxChars then [p] else Split(p, rest, maxChars)
  }

  function SplitParts(parts: seq<string>, rest: seq<string>, maxChars: int): seq<string>
    decreases |rest|, 2 + |parts|
  {
    if parts == [] then []
    else PartPieces(parts[0], rest, maxChars) + SplitParts(parts[1..], rest, maxChars)
  }

  /** `_split` */
  method SplitText(text: string, separators: seq<string>, maxChars: int) returns (out: seq<string>)
    ensures out == Split(text, separators, maxChars)
    decreases |separators|
  {
    if |text| <= maxChars || separators == [] {
      return if text != "" then [text] else [];
    }
    assert Split(text, separators, maxChars) == SplitParts(Parts(text, separators[0]), separators[1..], maxChars);
    var parts := Parts(text, separators[0]);
    var rest := separators[1..];
    out := [];
    assert parts[0..] == parts;
    hide Strip, SplitParts, Split, Parts;
    for i := 0 to |parts|
      invariant SplitParts(parts, rest, maxChars) == out + SplitParts(parts[i..], rest, maxChars)
    {
      var part := Strip(parts[i]);
      NextPart(parts, i, rest, maxChars);
      Associative(out, PartPieces(parts[i], rest, maxChars), SplitParts(parts[i + 1..], rest, maxChars));
      if part != "" {
        if |part| <= maxChars {
          out := out + [part];
        } else {
          var deeper := SplitText(part, rest, maxChars);
          out := out + deeper;
        }
      } else {
        assert out + PartPieces(parts[i], rest, maxChars) == out;
      }
    }
    NoMoreParts(parts, rest, maxChars);
  }

  lemma NextPart(parts: seq<string>, i: nat, rest: seq<string>, maxChars: int)
    requires i < |parts|
    ensures SplitParts(parts[i..], rest, maxChars)
         == PartPieces(parts[i], rest, maxChars) + SplitParts(parts[i + 1..], rest, maxChars)
  {
    hide PartPieces;
    assert parts[i..][1..] == parts[i + 1..];
  }

  lemma NoMoreParts(parts: seq<string>, rest: seq<string>, maxChars: int)
    ensures SplitParts(parts[|parts|..], rest, maxChars) == []
  {
  }

  function AtLeastOne(n: int): int {
    if n < 1 then 1 else n
  }

  ghost predicate AllWithin(parts: seq<string>, limit: int) {
    forall i :: 0 <= i < |parts| ==> |parts[i]| <= limit
  }

  /** With the empty separator as a last resort, no piece is longer than max_chars (than one
      character, if max_chars asks for less). */
  lemma {:induction false} PieceSize(text: string, separators: seq<string>, maxChars: int)
    requires "" in separators || |text| <= AtLeastOne(maxChars)
    ensures AllWithin(Split(text, separators, maxChars), AtLeastOne(maxChars))
    decreases |separators|, 0
  {
    if |text| > maxChars && separators != [] {
      var sep, rest := separators[0], separators[1..];
      LettersFlatten(text);
      if sep != "" && "" !in rest {
        assert "" !in separators;
        ShortParts(text, sep);
      }
      PartsSize(Parts(text, sep), rest, maxChars);
    }
  }

  lemma {:induction false} ShortParts(text: string, sep: string)
    requires sep != ""
    ensures AllWithin(SplitOn(text, sep), |text|)
    decreases |text|
  {
    var i := Find(text, sep);
    if i >= 0 {
      ShortParts(text[i + |sep|..], sep);
    }
  }

  lemma {:induction false} PartsSize(parts: seq<string>, rest: seq<string>, maxChars: int)
    requires "" in rest || AllWithin(parts, AtLeastOne(maxChars))
    ensures AllWithin(SplitParts(parts, rest, maxChars), AtLeastOne(maxChars))
    decreases |rest|, 2 + |parts|
  {
    if parts != [] {
      PartsSize(parts[1..], rest, maxChars);
      if |Strip(parts[0])| > maxChars {
        PieceSize(Strip(parts[0]), rest, maxChars);
      }
    }
  }

  ghost predicate CoreFree(separators: seq<string>) {
    forall i :: 0 <= i < |separators| ==> Core(separators[i]) == ""
  }

  /** Splitting keeps every character that is neither whitespace nor sentence punctuation, in order. */
  lemma {:induction false} SplitKeepsCore(text: string, separators: seq<string>, maxChars: int)
    requires CoreFree(separators)
    ensures Core(Flatten(Split(text, separators, maxChars))) == Core(text)
    decreases |separators|, 0
  {
    if |text| <= maxChars || separators == [] {
      FlattenOne(text);
    } else {
      var sep, rest := separators[0], separators[1..];
      if sep == "" {
        LettersFlatten(text);
      } else {
        CoreSplitOn(text, sep);
      }
      PartsKeepCore(Parts(text, sep), rest, maxChars);
    }
  }

  lemma {:induction false} PartsKeepCore(parts: seq<string>, rest: seq<string>, maxChars: int)
    requires CoreFree(rest)
    ensures Core(Flatten(SplitParts(parts, rest, maxChars))) == Core(Flatten(parts))
    decreases |rest|, 2 + |parts|
  {
    if parts != [] {
      var pieces, others := PartPieces(parts[0], rest, maxChars), SplitParts(parts[1..], rest, maxChars);
      PartKeepsCore(parts[0], rest, maxChars);
      PartsKeepCore(parts[1..], rest, maxChars);
      FlattenConcat(pieces, others);
      CoreConcat(Flatten(pieces), Flatten(others));
      CoreConcat(parts[0], Flatten(parts[1..]));
    }
  }

  lemma {:induction false} PartKeepsCore(part: string, rest: seq<string>, maxChars: int)
    requires CoreFree(rest)
    ensures Core(Flatten(PartPieces(part, rest, maxChars))) == Core(part)
    decreases |rest|, 1
  {
    CoreStrip(part);
    var p := Strip(part);
    if p != "" {
      if |p| <= maxChars {
        FlattenOne(p);
      } else {
        SplitKeepsCore(p, rest, maxChars);
      }
    }
  }

  lemma {:induction false} PiecesClean(text: string, separators: seq<string>, maxChars: int)
    requires Stripped(text)
    ensures AllClean(Split(text, separators, maxChars))
    decreases |separators|, 0
  {
    if |text| > maxChars && separators != [] {
      PartsClean(Parts(text, separators[0]), separators[1..], maxChars);
    }
  }

  lemma {:induction false} PartsClean(parts: seq<string>, rest: seq<string>, maxChars: int)
    ensures AllClean(SplitParts(parts, rest, maxChars))
    decreases |rest|, 2 + |parts|
  {
    if parts != [] {
      PartsClean(parts[1..], rest, maxChars);
      if |Strip(parts[0])| > maxChars {
        PiecesClean(Strip(parts[0]), rest, maxChars);
      }
    }
  }

  /** What the documented separators make of any text. */
  lemma SplitByDefault(text: string, maxChars: int)
    requires maxChars >= 1
    ensures var pieces := Split(Strip(text), SEPARATORS, maxChars);
            && AllWithin(pieces, maxChars)
            && AllClean(pieces)
            && Core(Flatten(pieces)) == Core(text)
  {
    assert SEPARATORS[6] == "";
    PieceSize(Strip(text), SEPARATORS, maxChars);
    PiecesClean(Strip(text), SEPARATORS, maxChars);
    forall i | 0 <= i < |SEPARATORS| ensures Core(SEPARATORS[i]) == "" {
      BlankSeparator(SEPARATORS[i]);
    }
    SplitKeepsCore(Strip(text), SEPARATORS, maxChars);
    CoreStrip(text);
  }

  lemma {:induction false} BlankSeparator(s: string)
    requires forall i :: 0 <= i < |s| ==> !IsCore(s[i])
    ensures Core(s) == ""
  {
    if s != "" {
      BlankSeparator(s[1..]);
    }
  }

  // ---------------------------------------------------------------- merging with overlap

  /** `buf[-n:] if n else ""` */
  function Tail(buf: string, n: nat): string {
    if n == 0 then "" else if n >= |buf| then buf else buf[|buf| - n..]
  }

  /** The buffer that `part` opens after `buf` has been emitted. */
  function Reopen(buf: string, part: string, overlapChars: nat): string {
    var tail := Tail(buf, overlapChars);
    if tail != "" then Strip(tail + " " + part) else part
  }

  function MergeFrom(buf: string, parts: seq<string>, maxChars: int, overlapChars: nat): seq<string>
    decreases |parts|
  {
    if parts == [] then [buf]
    else if |buf| + |parts[0]| + 1 <= maxChars then
      MergeFrom(buf + " " + parts[0], parts[1..], maxChars, overlapChars)
    else
      [buf] + MergeFrom(Reopen(buf, parts[0], overlapChars), parts[1..], maxChars, overlapChars)
  }

  function Merge(parts: seq<string>, maxChars: int, overlapChars: nat): seq<string> {
    if parts == [] then [] else MergeFrom(parts[0], parts[1..], maxChars, overlapChars)
  }

  /** The reopened buffer ends with its part; at most the overlap and a separator precede it. */
  lemma ReopenEnds(buf: string, part: string, overlapChars: nat) returns (carried: string)
    requires Clean(part)
    ensures Reopen(buf, part, overlapChars) == carried + part
    ensures |carried| <= overlapChars + 1
  {
    var tail := Tail(buf, overlapChars);
    if tail == "" {
      carried := "";
    } else {
      var raw := tail + " " + part;
      var k := LStripDrops(tail + " ", part);
      carried := (tail + " ")[k..];
      assert raw == tail + " " + part;
    }
  }

  lemma {:induction false} LStripDrops(lead: string, part: string) returns (k: nat)
    requires Clean(part)
    ensures k <= |lead| && Strip(lead + part) == lead[k..] + part
  {
    if lead != "" && IsSpace(lead[0]) {
      var j := LStripDrops(lead[1..], part);
      k := j + 1;
      assert (lead + part)[1..] == lead[1..] + part;
      assert Strip(lead + part) == Strip(lead[1..] + part);
    } else {
      k := 0;
      assert lead + part != "";
      StripOfStripped(lead + part);
    }
  }

  /** `_merge_with_overlap` */
  method MergeWithOverlap(parts: seq<string>, maxChars: int, overlapChars: nat) returns (merged: seq<string>)
    requires AllClean(parts)
    ensures merged == Merge(parts, maxChars, overlapChars)
  {
    hide Strip, Tail, Join;
    merged := [];
    var buf := "";
    for i := 0 to |parts|
      invariant buf == "" <==> i == 0
      invariant i == 0 ==> merged == []
      invariant i > 0 ==>
          Merge(parts, maxChars, overlapChars) == merged + MergeFrom(buf, parts[i..], maxChars, overlapChars)
    {
      var part := parts[i];
      assert parts[i..][1..] == parts[i + 1..];
      if buf == "" {
        buf := part;
      } else if |buf| + |part| + 1 <= maxChars {
        buf := buf + " " + part;
      } else {
        merged := merged + [buf];
        var carried := ReopenEnds(buf, part, overlapChars);
        var tail := Tail(buf, overlapChars);
        buf := if tail != "" then Strip(tail + " " + part) else part;
      }
    }
    if buf != "" {
      merged := merged + [buf];
    }
  }

  /** How a merged chunk is made: what was carried over, then whole pieces. */
  predicate MadeOf(chunk: string, group: seq<string>, overlapChars: nat) {
    && group != []
    && var own := Join(" ", group);
       && |own| <= |chunk| <= |own| + overlapChars + 1
       && chunk[|chunk| - |own|..] == own
  }

  lemma AppendPiece(buf: string, current: seq<string>, part: string, overlapChars: nat)
    requires MadeOf(buf, current, overlapChars)
    ensures MadeOf(buf + " " + part, current + [part], overlapChars)
  {
    JoinConcat(" ", current, [part]);
    var own := Join(" ", current);
    var k := |buf| - |own|;
    assert (buf + " " + part)[k..] == buf[k..] + " " + part;
  }

  lemma OpenPiece(buf: string, part: string, overlapChars: nat)
    requires Clean(part)
    ensures MadeOf(Reopen(buf, part, overlapChars), [part], overlapChars)
  {
    var carried := ReopenEnds(buf, part, overlapChars);
  }

  /** Merging loses and reorders no piece: the pieces fall into consecutive groups, one a chunk, and
      each chunk ends with the join of its own group, after at most overlap_chars + 1 characters
      carried over from the chunk before. */
  lemma {:induction false} MergeKeepsPieces(buf: string, current: seq<string>, parts: seq<string>,
                                            maxChars: int, overlapChars: nat) returns (groups: seq<seq<string>>)
    requires AllClean(parts) && MadeOf(buf, current, overlapChars)
    ensures var merged := MergeFrom(buf, parts, maxChars, overlapChars);
            && |groups| == |merged| > 0
            && Flatten(groups) == current + parts
            && forall i :: 0 <= i < |groups| ==> MadeOf(merged[i], groups[i], overlapChars)
    decreases |parts|
  {
    hide Join, Strip, Reopen, Flatten;
    if parts == [] {
      groups := [current];
      FlattenOne(current);
      assert current + parts == current;
    } else if |buf| + |parts[0]| + 1 <= maxChars {
      AppendPiece(buf, current, parts[0], overlapChars);
      groups := MergeKeepsPieces(buf + " " + parts[0], current + [parts[0]], parts[1..], maxChars, overlapChars);
      assert current + [parts[0]] + parts[1..] == current + parts;
    } else {
      OpenPiece(buf, parts[0], overlapChars);
      var reopened := Reopen(buf, parts[0], overlapChars);
      var others := MergeKeepsPieces(reopened, [parts[0]], parts[1..], maxChars, overlapChars);
      groups := [current] + others;
      FlattenCons(current, others);
      assert [parts[0]] + parts[1..] == parts;
    }
  }

  lemma MergedMadeOfPieces(parts: seq<string>, maxChars: int, overlapChars: nat)
    requires AllClean(parts)
    ensures exists groups: seq<seq<string>> ::
              var merged := Merge(parts, maxChars, overlapChars);
              && |groups| == |merged|
              && Flatten(groups) == parts
              && forall i :: 0 <= i < |groups| ==> MadeOf(merged[i], groups[i], overlapChars)
  {
    var groups: seq<seq<string>> := [];
    if parts != [] {
      groups := MergeKeepsPieces(parts[0], [parts[0]], parts[1..], maxChars, overlapChars);
      assert [parts[0]] + parts[1..] == parts;
    }
    assert |groups| == |Merge(parts, maxChars, overlapChars)|;
  }

  lemma {:induction false} MergeSize(buf: string, parts: seq<string>, maxChars: int, overlapChars: nat)
    requires AllClean(parts) && AllWithin(parts, maxChars) && |buf| <= maxChars + overlapChars + 1
    ensures AllWithin(MergeFrom(buf, parts, maxChars, overlapChars), maxChars + overlapChars + 1)
    decreases |parts|
  {
    if parts != [] {
      if |buf| + |parts[0]| + 1 <= maxChars {
        MergeSize(buf + " " + parts[0], parts[1..], maxChars, overlapChars);
      } else {
        var carried := ReopenEnds(buf, parts[0], overlapChars);
        MergeSize(Reopen(buf, parts[0], overlapChars), parts[1..], maxChars, overlapChars);
      }
    }
  }

  /** Without overlap, merging keeps every core character exactly once. */
  lemma {:induction false} MergeKeepsCore(buf: string, parts: seq<string>, maxChars: int)
    ensures Core(Flatten(MergeFrom(buf, parts, maxChars, 0))) == Core(buf) + Core(Flatten(parts))
    decreases |parts|
  {
    if parts == [] {
      FlattenOne(buf);
    } else {
      var part := parts[0];
      CoreConcat(part, Flatten(parts[1..]));
      if |buf| + |part| + 1 <= maxChars {
        MergeKeepsCore(buf + " " + part, parts[1..], maxChars);
        CoreConcat(buf + " ", part);
        CoreConcat(buf, " ");
        BlankSeparator(" ");
      } else {
        MergeKeepsCore(part, parts[1..], maxChars);
        CoreConcat(buf, Flatten(MergeFrom(part, parts[1..], maxChars, 0)));
      }
    }
  }

  /** `chunk`: the texts of the chunks. */
  method ChunkTexts(text: string, maxChars: int, overlapChars: nat) returns (texts: seq<string>)
    ensures texts == Merge(Split(Strip(text), SEPARATORS, maxChars), maxChars, overlapChars)
  {
    var pieces := SplitText(Strip(text), SEPARATORS, maxChars);
    PiecesClean(Strip(text), SEPARATORS, maxChars);
    texts := MergeWithOverlap(pieces, maxChars, overlapChars);
  }

  /** What `chunk` promises of any text: bounded chunks, and nothing lost when there is no overlap. */
  lemma ChunksBoundedAndComplete(text: string, maxChars: int, overlapChars: nat)
    requires maxChars >= 1
    ensures var texts := Merge(Split(Strip(text), SEPARATORS, maxChars), maxChars, overlapChars);
            && AllWithin(texts, maxChars + overlapChars + 1)
            && (overlapChars == 0 ==> Core(Flatten(texts)) == Core(text))
  {
    var pieces := Split(Strip(text), SEPARATORS, maxChars);
    SplitByDefault(text, maxChars);
    if pieces != [] {
      MergeSize(pieces[0], pieces[1..], maxChars, overlapChars);
      MergeKeepsCore(pieces[0], pieces[1..], maxChars);
      CoreConcat(pieces[0], Flatten(pieces[1..]));
    }
  }
}
