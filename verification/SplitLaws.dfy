/** What the recursive splitting cuts and what it leaves whole, and how the pieces fill the chunks
    (ingestion/chunker.py, class RecursiveChunker). */
module SplitLaws {
  import opened PyText
  import opened RecursiveChunker

  // ---------------------------------------------------------------- str.split finds the first occurrence

  predicate OccursAt(text: string, sep: string, i: int) {
    0 <= i <= |text| - |sep| && text[i..i + |sep|] == sep
  }

  /** The place found is that of the first occurrence; -1 means that there is none. */
  lemma {:induction false} FindIsFirst(text: string, sep: string)
    requires sep != ""
    ensures Find(text, sep) >= 0 ==> OccursAt(text, sep, Find(text, sep))
    ensures forall j :: OccursAt(text, sep, j) ==> 0 <= Find(text, sep) <= j
  {
    if |text| >= |sep| && text[..|sep|] != sep {
      FindIsFirst(text[1..], sep);
      forall j | OccursAt(text, sep, j) ensures 0 <= Find(text, sep) <= j {
        assert j > 0;
        assert text[1..][j - 1..j - 1 + |sep|] == text[j..j + |sep|];
        assert OccursAt(text[1..], sep, j - 1);
      }
    }
  }

  // ---------------------------------------------------------------- coarse units

  /** Stripping a part and going on splits it just as the loop does. */
  lemma PartIsSplit(part: string, rest: seq<string>, maxChars: int)
    ensures PartPieces(part, rest, maxChars) == Split(Strip(part), rest, maxChars)
  {
    NothingToSplit(rest, maxChars);
  }

  lemma NothingToSplit(separators: seq<string>, maxChars: int)
    ensures Split("", separators, maxChars) == []
  {
    if separators != [] {
      var rest := separators[1..];
      assert PartPieces("", rest, maxChars) == [];
      assert SplitParts([""], rest, maxChars) == PartPieces("", rest, maxChars) + SplitParts([""][1..], rest, maxChars);
      assert Parts("", separators[0]) == if separators[0] == "" then [] else [""];
    }
  }

  function NonBlank(parts: seq<string>): seq<string> {
    if parts == [] then []
    else (if Strip(parts[0]) != "" then [Strip(parts[0])] else []) + NonBlank(parts[1..])
  }

  lemma {:induction false} FittingParts(parts: seq<string>, rest: seq<string>, maxChars: int)
    requires forall i :: 0 <= i < |parts| ==> |Strip(parts[i])| <= maxChars
    ensures SplitParts(parts, rest, maxChars) == NonBlank(parts)
    decreases |parts|
  {
    if parts != [] {
      hide Strip;
      FittingParts(parts[1..], rest, maxChars);
    }
  }

  /** A text whose parts at the coarsest separator all fit is cut there and nowhere else. */
  lemma FittingPartsAreThePieces(text: string, sep: string, rest: seq<string>, maxChars: int)
    requires sep != "" && |text| > maxChars
    requires forall i :: 0 <= i < |SplitOn(text, sep)| ==> |Strip(SplitOn(text, sep)[i])| <= maxChars
    ensures Split(text, [sep] + rest, maxChars) == NonBlank(SplitOn(text, sep))
  {
    hide Strip, SplitParts;
    assert ([sep] + rest)[1..] == rest;
    FittingParts(SplitOn(text, sep), rest, maxChars);
  }

  /** A part of the text at a separator: between two occurrences, or one character if it is empty. */
  ghost predicate PartOf(part: string, text: string, sep: string) {
    if sep == "" then exists i :: 0 <= i < |text| && part == [text[i]] else part in SplitOn(text, sep)
  }

  /** `unit` is what the first `n` separators, one after the other, have left of the text, each applied only
      to a unit that was too long. */
  ghost predicate IsUnit(unit: string, text: string, separators: seq<string>, n: nat, maxChars: int)
    decreases n
  {
    if n == 0 then unit == text
    else
      && |text| > maxChars && separators != []
      && exists part :: PartOf(part, text, separators[0])
                     && IsUnit(unit, Strip(part), separators[1..], n - 1, maxChars)
  }

  /** A unit that is not split on: it fits, or there is no separator left. */
  ghost predicate IsLastUnit(unit: string, text: string, separators: seq<string>, n: nat, maxChars: int) {
    && n <= |separators| && IsUnit(unit, text, separators, n, maxChars)
    && (|unit| <= maxChars || n == |separators|)
  }

  lemma {:induction false} LettersAre(text: string, part: string)
    ensures part in Letters(text) <==> exists i :: 0 <= i < |text| && part == [text[i]]
  {
    if text != "" {
      LettersAre(text[1..], part);
      if i :| 0 <= i < |text| && part == [text[i]] {
        assert i > 0 ==> part == [text[1..][i - 1]];
      }
      if i :| 0 <= i < |text[1..]| && part == [text[1..][i]] {
        assert part == [text[i + 1]];
      }
    }
  }

  lemma {:induction false} InParts(parts: seq<string>, rest: seq<string>, maxChars: int, piece: string)
    ensures piece in SplitParts(parts, rest, maxChars)
       <==> exists part :: part in parts && piece in Split(Strip(part), rest, maxChars)
    decreases |parts|
  {
    hide Strip, Split;
    if parts != [] {
      PartIsSplit(parts[0], rest, maxChars);
      InParts(parts[1..], rest, maxChars, piece);
      assert forall part :: part in parts <==> part == parts[0] || part in parts[1..];
    }
  }

  /** The pieces are exactly the coarsest units that fit: a unit is split on if and only if it is too long
      and there is a separator left. */
  lemma {:induction false} PieceIff(text: string, separators: seq<string>, maxChars: int, piece: string)
    ensures piece in Split(text, separators, maxChars)
       <==> piece != "" && exists n :: IsLastUnit(piece, text, separators, n, maxChars)
    decreases |separators|
  {
    hide Strip;
    if |text| <= maxChars || separators == [] {
      assert piece == text ==> IsLastUnit(piece, text, separators, 0, maxChars);
    } else {
      var sep, rest := separators[0], separators[1..];
      InParts(Parts(text, sep), rest, maxChars, piece);
      forall part ensures part in Parts(text, sep) <==> PartOf(part, text, sep) {
        LettersAre(text, part);
      }
      forall part
        ensures piece in Split(Strip(part), rest, maxChars)
           <==> piece != "" && exists n :: IsLastUnit(piece, Strip(part), rest, n, maxChars)
      {
        PieceIff(Strip(part), rest, maxChars, piece);
      }
      hide Split, SplitParts, Parts, PartOf;
      UnitsBelow(text, separators, maxChars, piece);
    }
  }

  lemma UnitsBelow(text: string, separators: seq<string>, maxChars: int, unit: string)
    requires |text| > maxChars && separators != []
    ensures (exists n :: IsLastUnit(unit, text, separators, n, maxChars))
       <==> exists part :: PartOf(part, text, separators[0])
                        && exists n :: IsLastUnit(unit, Strip(part), separators[1..], n, maxChars)
  {
    hide Strip, PartOf;
    var rest := separators[1..];
    if n: nat :| IsLastUnit(unit, text, separators, n, maxChars) {
      var part :| PartOf(part, text, separators[0]) && IsUnit(unit, Strip(part), rest, n - 1, maxChars);
      assert IsLastUnit(unit, Strip(part), rest, n - 1, maxChars);
    }
    if part :| PartOf(part, text, separators[0]) && exists n :: IsLastUnit(unit, Strip(part), rest, n, maxChars) {
      var n: nat :| IsLastUnit(unit, Strip(part), rest, n, maxChars);
      assert IsUnit(unit, text, separators, n + 1, maxChars);
      assert IsLastUnit(unit, text, separators, n + 1, maxChars);
    }
  }

  // ---------------------------------------------------------------- words

  /** A space or a line break. */
  predicate Breaks(c: char) {
    c == ' ' || c == '\n'
  }

  /** A separator holds a space or a line break, and otherwise only characters that may be lost. */
  ghost predicate Separates(sep: string) {
    (exists b :: 0 <= b < |sep| && Breaks(sep[b])) && forall k :: 0 <= k < |sep| ==> !IsCore(sep[k])
  }

  /** The text from `i` to `j` starts and ends with a core character and lies within the stretch from `s`
      to `e`, which has no space or line break in it and is surrounded by them. */
  ghost predicate WordIn(text: string, s: int, e: int, i: int, j: int) {
    && 0 <= s <= i < j <= e <= |text|
    && IsCore(text[i]) && IsCore(text[j - 1])
    && (forall k :: s <= k < e ==> !Breaks(text[k]))
    && (s > 0 ==> Breaks(text[s - 1])) && (e < |text| ==> Breaks(text[e]))
  }

  /** One of the pieces has the word in it, whole. */
  ghost predicate Holds(pieces: seq<string>, word: string) {
    exists k, a :: 0 <= k < |pieces| && OccursAt(pieces[k], word, a)
  }

  lemma SepBesideWord(text: string, sep: string, f: int, s: int, e: int, i: int, j: int)
    requires WordIn(text, s, e, i, j) && Separates(sep) && OccursAt(text, sep, f)
    ensures f + |sep| <= i || j <= f
  {
    var b :| 0 <= b < |sep| && Breaks(sep[b]);
    forall k | f <= k < f + |sep| ensures text[k] == sep[k - f] && !IsCore(text[k]) {
      assert text[k] == text[f..f + |sep|][k - f];
    }
    assert text[f + b] == sep[b];
  }

  lemma WordBefore(text: string, f: int, s: int, e: int, i: int, j: int)
    requires WordIn(text, s, e, i, j) && j <= f <= |text|
    ensures WordIn(text[..f], s, if e < f then e else f, i, j)
    ensures text[..f][i..j] == text[i..j]
  {
  }

  lemma WordAfter(text: string, n: int, s: int, e: int, i: int, j: int)
    requires WordIn(text, s, e, i, j) && 0 <= n <= i
    ensures WordIn(text[n..], if s < n then 0 else s - n, e - n, i - n, j - n)
    ensures text[n..][i - n..j - n] == text[i..j]
  {
  }

  /** Where a word is, and how long its stretch is. */
  datatype Place = Place(s: int, e: int, i: int, j: int)

  ghost predicate HasWord(text: string, word: string, limit: int, p: Place) {
    WordIn(text, p.s, p.e, p.i, p.j) && p.e - p.s <= limit && text[p.i..p.j] == word
  }

  lemma {:induction false} PartWithWord(text: string, sep: string, word: string, limit: int, p: Place)
    returns (k: int, q: Place)
    requires sep != "" && Separates(sep) && HasWord(text, word, limit, p)
    ensures 0 <= k < |SplitOn(text, sep)| && HasWord(SplitOn(text, sep)[k], word, limit, q)
    decreases |text|
  {
    hide Separates, WordIn, Find;
    var f := Find(text, sep);
    if f < 0 {
      assert SplitOn(text, sep) == [text];
      k, q := 0, p;
    } else {
      FindIsFirst(text, sep);
      SepBesideWord(text, sep, f, p.s, p.e, p.i, p.j);
      var head, tail := text[..f], text[f + |sep|..];
      assert SplitOn(text, sep) == [head] + SplitOn(tail, sep);
      hide SplitOn;
      if p.j <= f {
        k, q := 0, HeadPlace(p, f);
        HeadWord(text, f, word, limit, p);
      } else {
        TailWord(text, f + |sep|, word, limit, p);
        var m, r := PartWithWord(tail, sep, word, limit, TailPlace(p, f + |sep|));
        k, q := m + 1, r;
      }
    }
  }

  /** A word's place once the text is cut off at `f`, behind the word. */
  function HeadPlace(p: Place, f: int): Place {
    p.(e := if p.e < f then p.e else f)
  }

  /** A word's place once the text is cut off up to `n`, before the word. */
  function TailPlace(p: Place, n: int): Place {
    Place(if p.s < n then 0 else p.s - n, p.e - n, p.i - n, p.j - n)
  }

  lemma HeadWord(text: string, f: int, word: string, limit: int, p: Place)
    requires HasWord(text, word, limit, p) && p.j <= f <= |text|
    ensures HasWord(text[..f], word, limit, HeadPlace(p, f))
  {
    WordBefore(text, f, p.s, p.e, p.i, p.j);
  }

  lemma TailWord(text: string, n: int, word: string, limit: int, p: Place)
    requires HasWord(text, word, limit, p) && 0 <= n <= p.i
    ensures HasWord(text[n..], word, limit, TailPlace(p, n))
  {
    WordAfter(text, n, p.s, p.e, p.i, p.j);
  }

  /** The word lies within what stripping leaves. */
  lemma WordWithin(text: string, l: int, r: int, p: Place)
    requires 0 <= l <= r <= |text| && AllSpace(text[..l]) && AllSpace(text[r..])
    requires WordIn(text, p.s, p.e, p.i, p.j)
    ensures l <= p.i && p.j <= r
  {
    hide IsSpace;
    forall k | 0 <= k < l ensures IsSpace(text[k]) {
      assert text[k] == text[..l][k];
    }
    forall k | r <= k < |text| ensures IsSpace(text[k]) {
      assert text[k] == text[r..][k - r];
    }
    assert !IsSpace(text[p.i]) && !IsSpace(text[p.j - 1]);
  }

  lemma StripKeepsWord(text: string, word: string, limit: int, p: Place) returns (q: Place)
    requires HasWord(text, word, limit, p)
    ensures HasWord(Strip(text), word, limit, q)
  {
    var l, r := StripSlice(text);
    WordWithin(text, l, r, p);
    hide Strip, WordIn;
    HeadWord(text, r, word, limit, p);
    TailWord(text[..r], l, word, limit, HeadPlace(p, r));
    assert text[..r][l..] == text[l..r];
    q := TailPlace(HeadPlace(p, r), l);
  }

  /** Wherever single letters may be cut off, spaces and line breaks have been split at before. */
  ghost predicate LettersLast(text: string, separators: seq<string>) {
    forall k :: 0 <= k < |separators| ==>
      if separators[k] != "" then Separates(separators[k])
      else (" " in separators[..k] || ' ' !in text) && ("\n" in separators[..k] || '\n' !in text)
  }

  lemma FreeOfLetter(text: string, c: char)
    requires Find(text, [c]) == -1
    ensures c !in text
  {
    FindIsFirst(text, [c]);
    forall i | 0 <= i < |text| ensures text[i] == c ==> OccursAt(text, [c], i) {
      assert text[i..i + 1] == [text[i]];
    }
  }

  lemma StripHasNothingNew(text: string, c: char)
    requires c !in text
    ensures c !in Strip(text)
  {
    var l, r := StripSlice(text);
    hide Strip;
    assert forall k :: 0 <= k < r - l ==> text[l..r][k] == text[l + k];
  }

  lemma {:induction false} PartsHaveNothingNew(text: string, sep: string, k: nat, c: char)
    requires sep != "" && k < |SplitOn(text, sep)| && c !in text
    ensures c !in SplitOn(text, sep)[k]
    decreases |text|
  {
    var f := Find(text, sep);
    if f >= 0 && k > 0 {
      PartsHaveNothingNew(text[f + |sep|..], sep, k - 1, c);
    }
  }

  lemma LettersStayLast(text: string, separators: seq<string>, k: nat)
    requires separators != [] && separators[0] != "" && LettersLast(text, separators)
    requires k < |SplitOn(text, separators[0])|
    ensures LettersLast(Strip(SplitOn(text, separators[0])[k]), separators[1..])
  {
    var sep, rest := separators[0], separators[1..];
    var part := SplitOn(text, sep)[k];
    forall c: char | c !in text || sep == [c] ensures c !in Strip(part) {
      if c !in text {
        PartsHaveNothingNew(text, sep, k, c);
      } else {
        SplitPartsFree(text, sep);
        FreeOfLetter(part, c);
      }
      StripHasNothingNew(part, c);
    }
    hide Strip, SplitOn, Separates;
    forall n | 0 <= n < |rest|
      ensures if rest[n] != "" then Separates(rest[n])
              else (" " in rest[..n] || ' ' !in Strip(part)) && ("\n" in rest[..n] || '\n' !in Strip(part))
    {
      assert rest[n] == separators[n + 1];
      assert separators[..n + 1] == [sep] + rest[..n];
    }
  }

  lemma {:induction false} HoldsInParts(parts: seq<string>, rest: seq<string>, maxChars: int, k: int, word: string)
    requires 0 <= k < |parts| && Holds(PartPieces(parts[k], rest, maxChars), word)
    ensures Holds(SplitParts(parts, rest, maxChars), word)
    decreases |parts|
  {
    hide PartPieces;
    var here, later := PartPieces(parts[0], rest, maxChars), SplitParts(parts[1..], rest, maxChars);
    if k == 0 {
      var n, a :| 0 <= n < |here| && OccursAt(here[n], word, a);
      assert OccursAt((here + later)[n], word, a);
    } else {
      HoldsInParts(parts[1..], rest, maxChars, k - 1, word);
      var n, a :| 0 <= n < |later| && OccursAt(later[n], word, a);
      assert OccursAt((here + later)[|here| + n], word, a);
    }
  }

  lemma WholeText(text: string, word: string, limit: int, p: Place)
    requires HasWord(text, word, limit, p)
    ensures text != "" && Holds([text], word)
  {
    assert OccursAt([text][0], word, p.i);
  }

  lemma {:induction false} WordKept(text: string, separators: seq<string>, maxChars: int, word: string, p: Place)
    requires HasWord(text, word, maxChars, p) && LettersLast(text, separators)
    ensures Holds(Split(text, separators, maxChars), word)
    decreases |separators|
  {
    WholeText(text, word, maxChars, p);
    hide Holds;
    if |text| > maxChars && separators != [] {
      if separators[0] == "" {
        WholeStretch(text, maxChars, word, p);
      } else {
        var sep, rest := separators[0], separators[1..];
        var k, q := PartWithWord(text, sep, word, maxChars, p);
        var part := SplitOn(text, sep)[k];
        var r := StripKeepsWord(part, word, maxChars, q);
        LettersStayLast(text, separators, k);
        WordKept(Strip(part), rest, maxChars, word, r);
        PartIsSplit(part, rest, maxChars);
        HoldsInParts(SplitOn(text, sep), rest, maxChars, k, word);
      }
    }
  }

  /** A text without spaces and line breaks is a single stretch. */
  lemma WholeStretch(text: string, limit: int, word: string, p: Place)
    requires HasWord(text, word, limit, p) && ' ' !in text && '\n' !in text
    ensures |text| <= limit
  {
    forall k | 0 <= k < |text| ensures !Breaks(text[k]) {
      assert text[k] in text;
    }
  }

  lemma DefaultsSeparate(text: string)
    ensures LettersLast(text, SEPARATORS)
  {
    assert " " == SEPARATORS[..6][5] && "\n" == SEPARATORS[..6][1];
    assert Separates("\n\n") && Separates("\n") && Separates(" ") by {
      assert Breaks("\n\n"[0]) && Breaks("\n"[0]) && Breaks(" "[0]);
    }
    assert Separates(". ") && Separates("! ") && Separates("? ") by {
      assert Breaks(". "[1]) && Breaks("! "[1]) && Breaks("? "[1]);
    }
  }

  /** Words are not cut: of any text, a stretch without spaces and line breaks that is at most max_chars long
      goes into one piece whole, but for whitespace and `.`, `!`, `?` at its ends. */
  lemma WordsAreNotCut(text: string, maxChars: int, s: int, e: int, i: int, j: int)
    requires WordIn(text, s, e, i, j) && e - s <= maxChars
    ensures Holds(Split(Strip(text), SEPARATORS, maxChars), text[i..j])
  {
    var p := StripKeepsWord(text, text[i..j], maxChars, Place(s, e, i, j));
    DefaultsSeparate(Strip(text));
    hide Strip, Split, Holds;
    WordKept(Strip(text), SEPARATORS, maxChars, text[i..j], p);
  }

  // ---------------------------------------------------------------- filling the chunks

  /** What a chunk carries over from the one before it: its last characters, from the first that is not
      blank, and a space. */
  function Carried(previous: string, overlapChars: nat): string {
    if overlapChars == 0 then ""
    else LStrip(previous[if overlapChars < |previous| then |previous| - overlapChars else 0..]) + " "
  }

  /** The chunk is its group's join after `lead`; more than one piece is in it only if it keeps to the limit. */
  ghost predicate Filled(chunk: string, lead: string, group: seq<string>, maxChars: int) {
    group != [] && chunk == lead + Join(" ", group) && (|group| > 1 ==> |chunk| <= maxChars)
  }

  /** The first piece of the next group would not have fitted in. */
  predicate Full(chunk: string, next: seq<string>, maxChars: int) {
    next != [] && |chunk| + |next[0]| + 1 > maxChars
  }

  function LeadOf(chunks: seq<string>, i: nat, lead: string, overlapChars: nat): string
    requires i <= |chunks|
  {
    if i == 0 then lead else Carried(chunks[i - 1], overlapChars)
  }

  /** The chunks take the pieces in consecutive groups, each after what it carries over. A piece joins the
      chunk before it exactly if it fits. */
  ghost predicate FilledInTurn(chunks: seq<string>, groups: seq<seq<string>>, lead: string, maxChars: int,
                               overlapChars: nat)
  {
    |chunks| == |groups| && AllFilled(chunks, groups, lead, maxChars, overlapChars) && AllFull(chunks, groups, maxChars)
  }

  ghost predicate AllFilled(chunks: seq<string>, groups: seq<seq<string>>, lead: string, maxChars: int,
                            overlapChars: nat)
    requires |chunks| == |groups|
  {
    forall i :: 0 <= i < |groups| ==> Filled(chunks[i], LeadOf(chunks, i, lead, overlapChars), groups[i], maxChars)
  }

  ghost predicate AllFull(chunks: seq<string>, groups: seq<seq<string>>, maxChars: int)
    requires |chunks| == |groups|
  {
    forall i :: 0 < i < |groups| ==> Full(chunks[i - 1], groups[i], maxChars)
  }

  lemma {:induction false} StripAfterSpace(tail: string, part: string)
    requires tail != "" && !IsSpace(tail[|tail| - 1]) && Clean(part)
    ensures Strip(tail + " " + part) == LStrip(tail) + " " + part
    ensures LStrip(tail) != ""
    decreases |tail|
  {
    var raw := tail + " " + part;
    if IsSpace(tail[0]) {
      assert raw[1..] == tail[1..] + " " + part;
      StripAfterSpace(tail[1..], part);
      assert LStrip(raw) == LStrip(raw[1..]);
    } else {
      StripOfStripped(raw);
    }
  }

  lemma ReopenIsCarried(buf: string, part: string, overlapChars: nat)
    requires Clean(buf) && Clean(part)
    ensures Reopen(buf, part, overlapChars) == Carried(buf, overlapChars) + part
    ensures Clean(Reopen(buf, part, overlapChars))
  {
    var tail := Tail(buf, overlapChars);
    if overlapChars > 0 {
      assert buf[0..] == buf;
      StripAfterSpace(tail, part);
    }
  }

  lemma JoinOneMore(group: seq<string>, part: string)
    requires group != []
    ensures Join(" ", group + [part]) == Join(" ", group) + " " + part
  {
    JoinConcat(" ", group, [part]);
  }

  lemma {:induction false} MergeFills(buf: string, lead: string, current: seq<string>, parts: seq<string>,
                                      maxChars: int, overlapChars: nat) returns (groups: seq<seq<string>>)
    requires AllClean(parts) && Clean(buf) && current != [] && buf == lead + Join(" ", current)
    requires |current| > 1 ==> |buf| <= maxChars
    ensures Flatten(groups) == current + parts && groups != [] && current <= groups[0]
    ensures FilledInTurn(MergeFrom(buf, parts, maxChars, overlapChars), groups, lead, maxChars, overlapChars)
    decreases |parts|
  {
    hide Join, Strip, Reopen, Carried, Flatten;
    if parts == [] {
      groups := [current];
      FlattenOne(current);
      assert current + parts == current;
    } else if |buf| + |parts[0]| + 1 <= maxChars {
      JoinOneMore(current, parts[0]);
      assert lead + Join(" ", current + [parts[0]]) == buf + " " + parts[0];
      groups := MergeFills(buf + " " + parts[0], lead, current + [parts[0]], parts[1..], maxChars, overlapChars);
      assert current + [parts[0]] + parts[1..] == current + parts;
    } else {
      ReopenIsCarried(buf, parts[0], overlapChars);
      var next, carried := Reopen(buf, parts[0], overlapChars), Carried(buf, overlapChars);
      JoinSingle(parts[0]);
      var others := MergeFills(next, carried, [parts[0]], parts[1..], maxChars, overlapChars);
      groups := [current] + others;
      FlattenCons(current, others);
      assert [parts[0]] + parts[1..] == parts;
      OneMoreChunk(buf, lead, current, MergeFrom(next, parts[1..], maxChars, overlapChars), others, maxChars,
                   overlapChars);
    }
  }

  lemma JoinSingle(part: string)
    ensures Join(" ", [part]) == part
  {
  }

  lemma OneMoreChunk(buf: string, lead: string, current: seq<string>, chunks: seq<string>, groups: seq<seq<string>>,
                     maxChars: int, overlapChars: nat)
    requires groups != [] && FilledInTurn(chunks, groups, Carried(buf, overlapChars), maxChars, overlapChars)
    requires Filled(buf, lead, current, maxChars) && Full(buf, groups[0], maxChars)
    ensures FilledInTurn([buf] + chunks, [current] + groups, lead, maxChars, overlapChars)
  {
    hide AllFilled, AllFull, Filled, Full, Carried;
    OneMoreFilled(buf, lead, current, chunks, groups, maxChars, overlapChars);
    OneMoreFull(buf, current, chunks, groups, maxChars);
  }

  lemma OneMoreFilled(buf: string, lead: string, current: seq<string>, chunks: seq<string>, groups: seq<seq<string>>,
                      maxChars: int, overlapChars: nat)
    requires |chunks| == |groups| && AllFilled(chunks, groups, Carried(buf, overlapChars), maxChars, overlapChars)
    requires Filled(buf, lead, current, maxChars)
    ensures AllFilled([buf] + chunks, [current] + groups, lead, maxChars, overlapChars)
  {
    var all, sets := [buf] + chunks, [current] + groups;
    hide Filled, Carried, LeadOf;
    forall i | 0 <= i < |sets| ensures Filled(all[i], LeadOf(all, i, lead, overlapChars), sets[i], maxChars) {
      LeadsShift(buf, chunks, i, lead, overlapChars);
    }
  }

  lemma OneMoreFull(buf: string, current: seq<string>, chunks: seq<string>, groups: seq<seq<string>>, maxChars: int)
    requires |chunks| == |groups| > 0 && AllFull(chunks, groups, maxChars) && Full(buf, groups[0], maxChars)
    ensures AllFull([buf] + chunks, [current] + groups, maxChars)
  {
    var all, sets := [buf] + chunks, [current] + groups;
    hide Full;
    forall i | 0 < i < |sets| ensures Full(all[i - 1], sets[i], maxChars) {
      assert i > 1 ==> Full(chunks[i - 2], groups[i - 1], maxChars);
    }
  }

  lemma LeadsShift(buf: string, chunks: seq<string>, i: nat, lead: string, overlapChars: nat)
    requires i <= |chunks|
    ensures LeadOf([buf] + chunks, i, lead, overlapChars)
         == if i == 0 then lead else LeadOf(chunks, i - 1, Carried(buf, overlapChars), overlapChars)
  {
    hide Carried;
  }

  /** The chunks of any pieces: consecutive groups of them, none empty, none reordered, each chunk as full as
      its pieces allow and starting with exactly what it carries over. */
  lemma ChunksAreFilledInTurn(parts: seq<string>, maxChars: int, overlapChars: nat)
    requires AllClean(parts)
    ensures exists groups: seq<seq<string>> ::
              Flatten(groups) == parts
              && FilledInTurn(Merge(parts, maxChars, overlapChars), groups, "", maxChars, overlapChars)
  {
    if parts == [] {
      var none: seq<seq<string>> := [];
      assert Flatten(none) == parts;
      assert FilledInTurn(Merge(parts, maxChars, overlapChars), none, "", maxChars, overlapChars);
    } else {
      JoinSingle(parts[0]);
      var groups := MergeFills(parts[0], "", [parts[0]], parts[1..], maxChars, overlapChars);
      assert [parts[0]] + parts[1..] == parts;
    }
  }

  lemma {:induction false} JoinHolds(group: seq<string>, k: int, word: string, a: int) returns (b: int)
    requires 0 <= k < |group| && OccursAt(group[k], word, a)
    ensures OccursAt(Join(" ", group), word, b)
    decreases |group|
  {
    if |group| == 1 {
      b := a;
    } else if k == 0 {
      b := a;
      assert Join(" ", group)[a..a + |word|] == group[0][a..a + |word|];
    } else {
      var c := JoinHolds(group[1..], k - 1, word, a);
      var n := |group[0]| + 1;
      b := c + n;
      assert Join(" ", group) == group[0] + " " + Join(" ", group[1..]);
      assert Join(" ", group)[n..] == Join(" ", group[1..]);
      assert Join(" ", group)[b..b + |word|] == Join(" ", group[1..])[c..c + |word|];
    }
  }

  lemma {:induction false} InGroup(groups: seq<seq<string>>, k: int) returns (i: int, n: int)
    requires 0 <= k < |Flatten(groups)|
    ensures 0 <= i < |groups| && 0 <= n < |groups[i]| && groups[i][n] == Flatten(groups)[k]
  {
    if k < |groups[0]| {
      i, n := 0, k;
    } else {
      var j, m := InGroup(groups[1..], k - |groups[0]|);
      i, n := j + 1, m;
    }
  }

  lemma AfterLead(lead: string, own: string, word: string, b: int)
    requires OccursAt(own, word, b)
    ensures OccursAt(lead + own, word, |lead| + b)
  {
    assert (lead + own)[|lead| + b..|lead| + b + |word|] == own[b..b + |word|];
  }

  /** So the chunks of any text keep its words whole. */
  lemma ChunksKeepWords(text: string, maxChars: int, overlapChars: nat, s: int, e: int, i: int, j: int)
    requires WordIn(text, s, e, i, j) && e - s <= maxChars
    ensures Holds(Merge(Split(Strip(text), SEPARATORS, maxChars), maxChars, overlapChars), text[i..j])
  {
    var pieces, word := Split(Strip(text), SEPARATORS, maxChars), text[i..j];
    WordsAreNotCut(text, maxChars, s, e, i, j);
    PiecesClean(Strip(text), SEPARATORS, maxChars);
    ChunksAreFilledInTurn(pieces, maxChars, overlapChars);
    var chunks := Merge(pieces, maxChars, overlapChars);
    var groups: seq<seq<string>> :| Flatten(groups) == pieces
                                    && FilledInTurn(chunks, groups, "", maxChars, overlapChars);
    var k, a :| 0 <= k < |pieces| && OccursAt(pieces[k], word, a);
    hide Split, Strip, Merge;
    WordInChunk(chunks, groups, pieces, maxChars, overlapChars, word, k, a);
  }

  lemma WordInChunk(chunks: seq<string>, groups: seq<seq<string>>, pieces: seq<string>, maxChars: int,
                    overlapChars: nat, word: string, k: int, a: int)
    requires Flatten(groups) == pieces && FilledInTurn(chunks, groups, "", maxChars, overlapChars)
    requires 0 <= k < |pieces| && OccursAt(pieces[k], word, a)
    ensures Holds(chunks, word)
  {
    hide Join, Flatten, Carried, OccursAt;
    var g, n := InGroup(groups, k);
    var b := JoinHolds(groups[g], n, word, a);
    var lead := LeadOf(chunks, g, "", overlapChars);
    assert Filled(chunks[g], lead, groups[g], maxChars);
    AfterLead(lead, Join(" ", groups[g]), word, b);
    assert OccursAt(chunks[g], word, |lead| + b);
  }
}
