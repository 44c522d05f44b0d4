/** The Python string operations the chunkers are written with: whitespace
    stripping, joining, and slicing the tail of a string. */
module PyText {

  /** The characters `str.strip()` removes when it is called without arguments. */
  predicate IsSpace(c: char) {
    || '\U{09}' <= c <= '\U{0D}'
    || '\U{1C}' <= c <= '\U{20}'
    || c == '\U{85}' || c == '\U{A0}' || c == '\U{1680}'
    || '\U{2000}' <= c <= '\U{200A}'
    || c == '\U{2028}' || c == '\U{2029}' || c == '\U{202F}'
    || c == '\U{205F}' || c == '\U{3000}'
  }

  /** No whitespace at either end. */
  predicate Stripped(s: string) {
    s != "" ==> !IsSpace(s[0]) && !IsSpace(s[|s| - 1])
  }

  /** What a sentence splitter hands on: a nonempty, stripped string. */
  predicate Clean(s: string) {
    s != "" && Stripped(s)
  }

  predicate AllClean(parts: seq<string>) {
    forall i :: 0 <= i < |parts| ==> Clean(parts[i])
  }

  function LStrip(s: string): (r: string)
    ensures |r| <= |s|
    ensures r != "" ==> !IsSpace(r[0])
  {
    if s != "" && IsSpace(s[0]) then LStrip(s[1..]) else s
  }

  function RStrip(s: string): (r: string)
    ensures r <= s
    ensures r != "" ==> !IsSpace(r[|r| - 1])
  {
    if s != "" && IsSpace(s[|s| - 1]) then RStrip(s[..|s| - 1]) else s
  }

  /** `s.strip()` */
  function Strip(s: string): (r: string)
    ensures |r| <= |s|
    ensures Stripped(r)
  {
    RStrip(LStrip(s))
  }

  ghost predicate AllSpace(s: string) {
    forall i :: 0 <= i < |s| ==> IsSpace(s[i])
  }

  lemma {:induction false} LStripSlice(s: string) returns (l: nat)
    ensures l <= |s| && LStrip(s) == s[l..] && AllSpace(s[..l])
  {
    if s != "" && IsSpace(s[0]) {
      var k := LStripSlice(s[1..]);
      l := k + 1;
      assert s[..l] == [s[0]] + s[1..][..k];
    } else {
      l := 0;
    }
  }

  lemma {:induction false} RStripSlice(s: string) returns (r: nat)
    ensures r <= |s| && RStrip(s) == s[..r] && AllSpace(s[r..])
  {
    if s != "" && IsSpace(s[|s| - 1]) {
      r := RStripSlice(s[..|s| - 1]);
      assert s[r..] == s[..|s| - 1][r..] + [s[|s| - 1]];
    } else {
      r := |s|;
      assert s[..r] == s;
    }
  }

  /** Stripping takes whitespace from both ends, and nothing else. */
  lemma StripSlice(s: string) returns (l: nat, r: nat)
    ensures l <= r <= |s| && Strip(s) == s[l..r]
    ensures AllSpace(s[..l]) && AllSpace(s[r..])
  {
    l := LStripSlice(s);
    var n := RStripSlice(s[l..]);
    r := l + n;
    hide LStrip, RStrip, IsSpace;
    assert s[l..][..n] == s[l..r] && s[l..][n..] == s[r..];
  }

  lemma StripOfStripped(s: string)
    requires Stripped(s)
    ensures Strip(s) == s
  {
  }

  /** `sep.join(parts)` */
  function Join(sep: string, parts: seq<string>): string {
    if parts == [] then ""
    else if |parts| == 1 then parts[0]
    else parts[0] + sep + Join(sep, parts[1..])
  }

  lemma {:induction false} JoinConcat(sep: string, a: seq<string>, b: seq<string>)
    requires a != [] && b != []
    ensures Join(sep, a + b) == Join(sep, a) + sep + Join(sep, b)
  {
    if |a| == 1 {
      assert (a + b)[1..] == b;
    } else {
      assert (a + b)[1..] == a[1..] + b;
      JoinConcat(sep, a[1..], b);
    }
  }

  lemma {:induction false} JoinClean(sep: string, parts: seq<string>)
    requires parts != [] && AllClean(parts)
    ensures Clean(Join(sep, parts))
  {
    if |parts| > 1 {
      JoinClean(sep, parts[1..]);
    }
  }

  /** `s[:k]`; a negative k drops from the end. */
  function Slice<T>(s: seq<T>, k: int): seq<T> {
    if k >= 0 then if k <= |s| then s[..k] else s
    else if |s| + k >= 0 then s[..|s| + k] else []
  }

  /** `itertools.chain`: the elements of the groups, in order. */
  function Flatten<T>(groups: seq<seq<T>>): seq<T> {
    if groups == [] then [] else groups[0] + Flatten(groups[1..])
  }

  lemma {:induction false} FlattenConcat<T>(a: seq<seq<T>>, b: seq<seq<T>>)
    ensures Flatten(a + b) == Flatten(a) + Flatten(b)
  {
    if a == [] {
      assert a + b == b;
    } else {
      assert (a + b)[1..] == a[1..] + b;
      FlattenConcat(a[1..], b);
    }
  }

  lemma FlattenSplit<T>(groups: seq<seq<T>>, i: nat)
    requires i < |groups|
    ensures Flatten(groups) == Flatten(groups[..i]) + groups[i] + Flatten(groups[i + 1..])
  {
    assert groups == groups[..i] + groups[i..];
    FlattenConcat(groups[..i], groups[i..]);
  }

  lemma FlattenOne<T>(group: seq<T>)
    ensures Flatten([group]) == group
  {
    assert Flatten([group]) == group + Flatten([]);
  }

  lemma FlattenCons<T>(group: seq<T>, groups: seq<seq<T>>)
    ensures Flatten([group] + groups) == group + Flatten(groups)
  {
    assert ([group] + groups)[1..] == groups;
  }

  lemma Associative<T>(a: seq<T>, b: seq<T>, c: seq<T>)
    ensures a + (b + c) == (a + b) + c
  {
  }

  /** `part` is `[x for x in whole if wanted(x)]`: the wanted elements in their order, each one taken
      from the place in `at`. */
  ghost predicate FilteredAt<T>(part: seq<T>, whole: seq<T>, wanted: T -> bool, at: seq<int>) {
    && |at| == |part|
    && (forall i, j :: 0 <= i < j < |at| ==> at[i] < at[j])
    && (forall i :: 0 <= i < |at| ==> 0 <= at[i] < |whole| && part[i] == whole[at[i]])
    && (forall p :: 0 <= p < |whole| ==> (wanted(whole[p]) <==> p in at))
  }

  ghost predicate IsFiltered<T>(part: seq<T>, whole: seq<T>, wanted: T -> bool) {
    exists at :: FilteredAt(part, whole, wanted, at)
  }

  lemma FilteredNothing<T>(wanted: T -> bool)
    ensures IsFiltered([], [], wanted)
  {
    assert FilteredAt([], [], wanted, []);
  }

  lemma FilteredSnoc<T>(part: seq<T>, whole: seq<T>, wanted: T -> bool, x: T)
    requires IsFiltered(part, whole, wanted)
    ensures IsFiltered(part + if wanted(x) then [x] else [], whole + [x], wanted)
  {
    var at :| FilteredAt(part, whole, wanted, at);
    if wanted(x) {
      FilteredTakes(part, whole, wanted, at, x);
      assert FilteredAt(part + [x], whole + [x], wanted, at + [|whole|]);
    } else {
      FilteredDrops(part, whole, wanted, at, x);
      assert part + [] == part;
    }
  }

  lemma FilteredTakes<T>(part: seq<T>, whole: seq<T>, wanted: T -> bool, at: seq<int>, x: T)
    requires FilteredAt(part, whole, wanted, at) && wanted(x)
    ensures FilteredAt(part + [x], whole + [x], wanted, at + [|whole|])
  {
    var longer, all := at + [|whole|], whole + [x];
    forall p | 0 <= p < |all| ensures wanted(all[p]) <==> p in longer {
      if p < |whole| {
        assert all[p] == whole[p];
        assert p in longer <==> p in at;
      } else {
        assert longer[|at|] == p;
      }
    }
  }

  lemma FilteredDrops<T>(part: seq<T>, whole: seq<T>, wanted: T -> bool, at: seq<int>, x: T)
    requires FilteredAt(part, whole, wanted, at) && !wanted(x)
    ensures FilteredAt(part, whole + [x], wanted, at)
  {
    var all := whole + [x];
    forall p | 0 <= p < |all| ensures wanted(all[p]) <==> p in at {
      if p < |whole| {
        assert all[p] == whole[p];
      }
    }
  }

  lemma FilteredSome<T>(part: seq<T>, whole: seq<T>, wanted: T -> bool)
    requires IsFiltered(part, whole, wanted)
    ensures part != [] <==> exists p :: 0 <= p < |whole| && wanted(whole[p])
  {
    var at :| FilteredAt(part, whole, wanted, at);
    if p :| 0 <= p < |whole| && wanted(whole[p]) {
      assert p in at;
    }
    if at != [] {
      assert at[0] in at && wanted(whole[at[0]]);
    }
  }

  lemma CutTwice<T>(s: seq<T>, i: nat, j: nat)
    requires i <= j <= |s|
    ensures s == s[..i] + (s[i..j] + s[j..])
  {
  }

  lemma FlattenSnoc<T>(groups: seq<seq<T>>, group: seq<T>)
    ensures Flatten(groups + [group]) == Flatten(groups) + group
  {
    FlattenConcat(groups, [group]);
    FlattenOne(group);
  }

  lemma DropConcat<T>(a: seq<T>, b: seq<T>, i: nat)
    requires i <= |a + b|
    ensures i >= |a| ==> (a + b)[i..] == b[i - |a|..]
    ensures i < |a| ==> (a + b)[i..] == a[i..] + b
  {
  }

  lemma Middle<T>(a: seq<T>, b: seq<T>, c: seq<T>)
    ensures (a + b + c)[|a|..|a| + |b|] == b
  {
  }
}
