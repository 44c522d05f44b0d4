/** Python's stable `sorted(..., key=..., reverse=True)`: descending keys, equal keys in their
    original order. */
module Sorting {

  function Insert<T>(x: T, sorted: seq<T>, key: T -> real): seq<T> {
    if sorted == [] || key(x) >= key(sorted[0]) then [x] + sorted
    else [sorted[0]] + Insert(x, sorted[1..], key)
  }

  function SortDesc<T>(s: seq<T>, key: T -> real): seq<T> {
    if s == [] then [] else Insert(s[0], SortDesc(s[1..], key), key)
  }

  predicate Descending<T>(s: seq<T>, key: T -> real) {
    forall i, j :: 0 <= i < j < |s| ==> key(s[i]) >= key(s[j])
  }

  /** The elements with key `v`, in order. */
  function WithKey<T>(s: seq<T>, key: T -> real, v: real): seq<T> {
    if s == [] then [] else (if key(s[0]) == v then [s[0]] else []) + WithKey(s[1..], key, v)
  }

  lemma {:induction false} InsertMultiset<T>(x: T, sorted: seq<T>, key: T -> real)
    ensures multiset(Insert(x, sorted, key)) == multiset(sorted) + multiset{x}
  {
    if sorted != [] && key(x) < key(sorted[0]) {
      InsertMultiset(x, sorted[1..], key);
      assert sorted == [sorted[0]] + sorted[1..];
    }
  }

  /** No key of `s` exceeds `bound`. */
  predicate AtMost<T>(s: seq<T>, key: T -> real, bound: real) {
    forall i :: 0 <= i < |s| ==> key(s[i]) <= bound
  }

  lemma {:induction false} InsertAtMost<T>(x: T, sorted: seq<T>, key: T -> real, bound: real)
    requires AtMost(sorted, key, bound) && key(x) <= bound
    ensures AtMost(Insert(x, sorted, key), key, bound)
  {
    if sorted != [] && key(x) < key(sorted[0]) {
      InsertAtMost(x, sorted[1..], key, bound);
    }
  }

  lemma {:induction false} InsertDescending<T>(x: T, sorted: seq<T>, key: T -> real)
    requires Descending(sorted, key)
    ensures Descending(Insert(x, sorted, key), key)
  {
    if sorted != [] && key(x) < key(sorted[0]) {
      InsertDescending(x, sorted[1..], key);
      assert AtMost(sorted[1..], key, key(sorted[0]));
      InsertAtMost(x, sorted[1..], key, key(sorted[0]));
    }
  }

  lemma {:induction false} InsertStable<T>(x: T, sorted: seq<T>, key: T -> real, v: real)
    requires Descending(sorted, key)
    ensures WithKey(Insert(x, sorted, key), key, v) == WithKey([x] + sorted, key, v)
  {
    if sorted != [] && key(x) < key(sorted[0]) {
      InsertStable(x, sorted[1..], key, v);
      assert ([x] + sorted)[1..] == sorted && ([x] + sorted[1..])[1..] == sorted[1..];
    }
  }

  lemma {:induction false} SortFacts<T>(s: seq<T>, key: T -> real)
    ensures Descending(SortDesc(s, key), key)
    ensures multiset(SortDesc(s, key)) == multiset(s)
    ensures |SortDesc(s, key)| == |s|
  {
    if s != [] {
      SortFacts(s[1..], key);
      InsertMultiset(s[0], SortDesc(s[1..], key), key);
      InsertDescending(s[0], SortDesc(s[1..], key), key);
      assert s == [s[0]] + s[1..];
    }
    assert |multiset(SortDesc(s, key))| == |multiset(s)|;
  }

  /** Sorting keeps the order of elements with equal keys. */
  lemma {:induction false} SortStable<T>(s: seq<T>, key: T -> real, v: real)
    ensures WithKey(SortDesc(s, key), key, v) == WithKey(s, key, v)
  {
    if s != [] {
      SortStable(s[1..], key, v);
      SortFacts(s[1..], key);
      InsertStable(s[0], SortDesc(s[1..], key), key, v);
      assert s == [s[0]] + s[1..];
      assert ([s[0]] + SortDesc(s[1..], key))[1..] == SortDesc(s[1..], key);
    }
  }

  /** No two elements share an identity. */
  predicate NoTwins<T>(s: seq<T>, id: T -> string) {
    forall i, j :: 0 <= i < j < |s| ==> id(s[i]) != id(s[j])
  }

  predicate NotAmong<T>(s: seq<T>, id: T -> string, x: string) {
    forall i :: 0 <= i < |s| ==> id(s[i]) != x
  }

  lemma {:induction false} InsertNotAmong<T>(x: T, sorted: seq<T>, key: T -> real, id: T -> string, other: string)
    requires NotAmong(sorted, id, other) && id(x) != other
    ensures NotAmong(Insert(x, sorted, key), id, other)
  {
    if sorted != [] && key(x) < key(sorted[0]) {
      InsertNotAmong(x, sorted[1..], key, id, other);
    }
  }

  lemma {:induction false} InsertNoTwins<T>(x: T, sorted: seq<T>, key: T -> real, id: T -> string)
    requires NoTwins(sorted, id) && NotAmong(sorted, id, id(x))
    ensures NoTwins(Insert(x, sorted, key), id)
  {
    if sorted != [] && key(x) < key(sorted[0]) {
      InsertNoTwins(x, sorted[1..], key, id);
      assert NotAmong(sorted[1..], id, id(sorted[0]));
      InsertNotAmong(x, sorted[1..], key, id, id(sorted[0]));
    }
  }

  lemma {:induction false} SortNotAmong<T>(s: seq<T>, key: T -> real, id: T -> string, other: string)
    requires NotAmong(s, id, other)
    ensures NotAmong(SortDesc(s, key), id, other)
  {
    if s != [] {
      SortNotAmong(s[1..], key, id, other);
      InsertNotAmong(s[0], SortDesc(s[1..], key), key, id, other);
    }
  }

  lemma {:induction false} SortNoTwins<T>(s: seq<T>, key: T -> real, id: T -> string)
    requires NoTwins(s, id)
    ensures NoTwins(SortDesc(s, key), id)
  {
    if s != [] {
      SortNoTwins(s[1..], key, id);
      SortNotAmong(s[1..], key, id, id(s[0]));
      InsertNoTwins(s[0], SortDesc(s[1..], key), key, id);
    }
  }

  /** Every element of a sorted sequence is one of the original. */
  lemma SortedElement<T>(s: seq<T>, key: T -> real, i: nat) returns (j: nat)
    requires i < |SortDesc(s, key)|
    ensures j < |s| && s[j] == SortDesc(s, key)[i]
  {
    SortFacts(s, key);
    assert SortDesc(s, key)[i] in multiset(SortDesc(s, key));
    assert SortDesc(s, key)[i] in multiset(s);
    j :| 0 <= j < |s| && s[j] == SortDesc(s, key)[i];
  }

  // ---------------------------------------------------------------- by places

  /** `sorted` takes the elements of `s` at the places `at`, each once: higher keys first, and of equal
      keys the one that comes first in `s`. */
  ghost predicate SortedPlaces<T>(s: seq<T>, sorted: seq<T>, key: T -> real, at: seq<int>) {
    |s| == |sorted| && TakesPlaces(s, sorted, at) && PlacesInOrder(sorted, key, at)
  }

  ghost predicate TakesPlaces<T>(s: seq<T>, sorted: seq<T>, at: seq<int>) {
    && |at| == |sorted|
    && forall i :: 0 <= i < |at| ==> 0 <= at[i] < |s| && sorted[i] == s[at[i]]
  }

  ghost predicate PlacesInOrder<T>(sorted: seq<T>, key: T -> real, at: seq<int>)
    requires |at| == |sorted|
  {
    forall i, j :: 0 <= i < j < |at| ==> InOrder(key(sorted[i]), at[i], key(sorted[j]), at[j])
  }

  predicate InOrder(key: real, place: int, laterKey: real, laterPlace: int) {
    key > laterKey || (key == laterKey && place < laterPlace)
  }

  lemma {:induction false} InsertAt<T>(x: T, sorted: seq<T>, key: T -> real) returns (p: nat)
    ensures p <= |sorted| && Insert(x, sorted, key) == sorted[..p] + [x] + sorted[p..]
    ensures forall i :: 0 <= i < p ==> key(sorted[i]) > key(x)
    ensures p < |sorted| ==> key(x) >= key(sorted[p])
  {
    if sorted == [] || key(x) >= key(sorted[0]) {
      p := 0;
    } else {
      var q := InsertAt(x, sorted[1..], key);
      p := q + 1;
      assert sorted[1..][..q] == sorted[1..p] && sorted[1..][q..] == sorted[p..];
      assert [sorted[0]] + sorted[1..p] == sorted[..p];
      assert forall i :: 1 <= i < p ==> sorted[i] == sorted[1..][i - 1];
    }
  }

  function Shifted(at: seq<int>): (shifted: seq<int>)
    ensures |shifted| == |at|
    ensures forall i :: 0 <= i < |at| ==> shifted[i] == at[i] + 1
  {
    seq(|at|, i requires 0 <= i < |at| => at[i] + 1)
  }

  /** The places once a new first element has come in at `p`. */
  function WithFirst(at: seq<int>, p: nat): (more: seq<int>)
    requires p <= |at|
    ensures |more| == |at| + 1 && more[p] == 0
    ensures forall i :: 0 <= i < p ==> more[i] == at[i] + 1
    ensures forall i :: p < i <= |at| ==> more[i] == at[i - 1] + 1
  {
    Shifted(at[..p]) + [0] + Shifted(at[p..])
  }

  function InsertedAt<T>(x: T, sorted: seq<T>, p: nat): (longer: seq<T>)
    requires p <= |sorted|
    ensures |longer| == |sorted| + 1 && longer[p] == x
    ensures forall i :: 0 <= i < p ==> longer[i] == sorted[i]
    ensures forall i :: p < i <= |sorted| ==> longer[i] == sorted[i - 1]
  {
    sorted[..p] + [x] + sorted[p..]
  }

  lemma InsertTakes<T>(x: T, s: seq<T>, sorted: seq<T>, at: seq<int>, p: nat)
    requires TakesPlaces(s, sorted, at) && p <= |at|
    ensures TakesPlaces([x] + s, InsertedAt(x, sorted, p), WithFirst(at, p))
  {
    hide WithFirst, InsertedAt;
  }

  lemma InsertOrders<T>(x: T, sorted: seq<T>, key: T -> real, at: seq<int>, p: nat)
    requires |at| == |sorted| && PlacesInOrder(sorted, key, at) && p <= |at|
    requires forall i :: 0 <= i < |at| ==> at[i] >= 0
    requires forall i :: 0 <= i < p ==> key(sorted[i]) > key(x)
    requires forall i :: p <= i < |at| ==> key(x) >= key(sorted[i])
    ensures PlacesInOrder(InsertedAt(x, sorted, p), key, WithFirst(at, p))
  {
    hide WithFirst, InsertedAt;
    var longer, more := InsertedAt(x, sorted, p), WithFirst(at, p);
    forall i, j | 0 <= i < j < |more| ensures InOrder(key(longer[i]), more[i], key(longer[j]), more[j]) {
      if i != p && j != p {
        var k, n := if i < p then i else i - 1, if j < p then j else j - 1;
        assert InOrder(key(sorted[k]), at[k], key(sorted[n]), at[n]);
      }
    }
  }

  lemma InsertPlaces<T>(x: T, s: seq<T>, sorted: seq<T>, key: T -> real, at: seq<int>)
    requires SortedPlaces(s, sorted, key, at)
    ensures exists more: seq<int> :: SortedPlaces([x] + s, Insert(x, sorted, key), key, more)
  {
    var p := InsertAt(x, sorted, key);
    forall i | p <= i < |at| ensures key(x) >= key(sorted[i]) {
      assert i > p ==> InOrder(key(sorted[p]), at[p], key(sorted[i]), at[i]);
    }
    InsertTakes(x, s, sorted, at, p);
    InsertOrders(x, sorted, key, at, p);
    hide TakesPlaces, PlacesInOrder, WithFirst, Insert;
    assert Insert(x, sorted, key) == InsertedAt(x, sorted, p);
    assert SortedPlaces([x] + s, Insert(x, sorted, key), key, WithFirst(at, p));
  }

  /** Sorting is stable, by places. */
  lemma {:induction false} SortHasPlaces<T>(s: seq<T>, key: T -> real)
    ensures exists at: seq<int> :: SortedPlaces(s, SortDesc(s, key), key, at)
  {
    if s == [] {
      assert SortedPlaces(s, SortDesc(s, key), key, []);
    } else {
      SortHasPlaces(s[1..], key);
      var at :| SortedPlaces(s[1..], SortDesc(s[1..], key), key, at);
      InsertPlaces(s[0], s[1..], SortDesc(s[1..], key), key, at);
      assert [s[0]] + s[1..] == s;
      assert SortDesc(s, key) == Insert(s[0], SortDesc(s[1..], key), key);
    }
  }

  // ---------------------------------------------------------------- relative order

  ghost predicate Before<T>(s: seq<T>, a: T, b: T) {
    exists i, j :: 0 <= i < j < |s| && s[i] == a && s[j] == b
  }

  lemma BeforeCons<T>(x: T, s: seq<T>, a: T, b: T)
    ensures Before([x] + s, a, b) <==> (x == a && b in s) || Before(s, a, b)
  {
    var t := [x] + s;
    if Before(t, a, b) {
      var i, j :| 0 <= i < j < |t| && t[i] == a && t[j] == b;
      assert s[j - 1] == b;
      assert i > 0 ==> s[i - 1] == a;
    }
    if x == a && b in s {
      var j :| 0 <= j < |s| && s[j] == b;
      assert t[0] == a && t[j + 1] == b;
    }
    if Before(s, a, b) {
      var i, j :| 0 <= i < j < |s| && s[i] == a && s[j] == b;
      assert t[i + 1] == a && t[j + 1] == b;
    }
  }

  lemma {:induction false} WithKeyMember<T>(s: seq<T>, key: T -> real, v: real, b: T)
    requires key(b) == v
    ensures b in WithKey(s, key, v) <==> b in s
  {
    if s != [] {
      WithKeyMember(s[1..], key, v, b);
      assert s == [s[0]] + s[1..];
    }
  }

  lemma {:induction false} WithKeyBefore<T>(s: seq<T>, key: T -> real, v: real, a: T, b: T)
    requires key(a) == v && key(b) == v
    ensures Before(WithKey(s, key, v), a, b) <==> Before(s, a, b)
  {
    hide Before;
    if s == [] {
      assert WithKey(s, key, v) == s;
    } else {
      WithKeyBefore(s[1..], key, v, a, b);
      WithKeyMember(s[1..], key, v, b);
      assert s == [s[0]] + s[1..];
      BeforeCons(s[0], s[1..], a, b);
      BeforeCons(s[0], WithKey(s[1..], key, v), a, b);
      assert key(s[0]) != v ==> [] + WithKey(s[1..], key, v) == WithKey(s[1..], key, v);
    }
  }

  /** Sorting leaves elements of equal keys in their order. */
  lemma SortKeepsOrder<T>(s: seq<T>, key: T -> real, a: T, b: T)
    requires key(a) == key(b) && Before(s, a, b)
    ensures Before(SortDesc(s, key), a, b)
  {
    hide Before;
    WithKeyBefore(s, key, key(a), a, b);
    WithKeyBefore(SortDesc(s, key), key, key(a), a, b);
    SortStable(s, key, key(a));
  }
}
