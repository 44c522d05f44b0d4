/** The sliding-window limiter of WebSocket messages (api/limits.py, `websocket_rate_limited`): one
    queue of accepted times for each bucket. */
module RateLimiter {
  import opened Options

  type Time = real

  // ---------------------------------------------------------------- one bucket

  /** The queue once its expired front has been dropped. */
  function Evict(hits: seq<Time>, window: real, now: Time): seq<Time> {
    if hits != [] && now - hits[0] > window then Evict(hits[1..], window, now) else hits
  }

  function Limited(hits: seq<Time>, limit: int, window: real, now: Time): bool {
    |Evict(hits, window, now)| >= limit
  }

  function AfterHit(hits: seq<Time>, limit: int, window: real, now: Time): seq<Time> {
    var kept := Evict(hits, window, now);
    if |kept| >= limit then kept else kept + [now]
  }

  function BucketKey(host: Option<string>, key: string): string {
    (if host.Some? then host.value else "unknown") + ":" + (if key == "" then "anonymous" else key)
  }

  /** `limit or int(os.getenv(...))`: zero counts as not given. */
  function EffectiveLimit(limit: Option<int>, configured: int): int {
    if limit.Some? && limit.value != 0 then limit.value else configured
  }

  function QueueOf(buckets: map<string, seq<Time>>, bucket: string): seq<Time> {
    if bucket in buckets then buckets[bucket] else []
  }

  class Limiter {
    var buckets: map<string, seq<Time>>

    constructor ()
      ensures buckets == map[]
    {
      buckets := map[];
    }

    /** `websocket_rate_limited` */
    method WebsocketRateLimited(host: Option<string>, key: string, limit: Option<int>, configured: int,
                                window: real, now: Time) returns (limited: bool)
      modifies this
      ensures var bucket := BucketKey(host, key);
              var n := if limit == None || limit == Some(0) then configured else limit.value;
              var hits := QueueOf(old(buckets), bucket);
              && limited == Limited(hits, n, window, now)
              && buckets == old(buckets)[bucket := AfterHit(hits, n, window, now)]
    {
      var n := EffectiveLimit(limit, configured);
      var bucket := BucketKey(host, key);
      var hits := QueueOf(buckets, bucket);
      ghost var before := hits;
      while hits != [] && now - hits[0] > window
        invariant Evict(hits, window, now) == Evict(before, window, now)
        decreases |hits|
      {
        hits := hits[1..];
      }
      if |hits| >= n {
        buckets := buckets[bucket := hits];
        return true;
      }
      buckets := buckets[bucket := hits + [now]];
      limited := false;
    }
  }

  // ---------------------------------------------------------------- the full history

  function Recent(history: seq<Time>, window: real, now: Time): nat {
    if history == [] then 0
    else (if now - history[0] <= window then 1 else 0) + Recent(history[1..], window, now)
  }

  /** A limiter that forgets nothing: rejects when `limit` accepted hits are still in the window. */
  function HistoryLimited(history: seq<Time>, limit: int, window: real, now: Time): bool {
    Recent(history, window, now) >= limit
  }

  function HistoryAfter(history: seq<Time>, limit: int, window: real, now: Time): seq<Time> {
    if HistoryLimited(history, limit, window, now) then history else history + [now]
  }

  ghost predicate Nondecreasing(ts: seq<Time>) {
    forall i, j :: 0 <= i < j < |ts| ==> ts[i] <= ts[j]
  }

  /** The queue is the history without a front that has expired for good. */
  ghost predicate Represents(hits: seq<Time>, history: seq<Time>, window: real, now: Time) {
    && |hits| <= |history|
    && hits == history[|history| - |hits|..]
    && forall i :: 0 <= i < |history| - |hits| ==> now - history[i] > window
  }

  /** Every time in the history is in the past. */
  ghost predicate Past(history: seq<Time>, now: Time) {
    forall i :: 0 <= i < |history| ==> history[i] <= now
  }

  /** The queue keeps exactly the recent hits: it drops the first k, all of them expired. */
  lemma {:induction false} EvictCounts(hits: seq<Time>, window: real, now: Time) returns (k: nat)
    requires Nondecreasing(hits)
    ensures |Evict(hits, window, now)| == Recent(hits, window, now)
    ensures k <= |hits| && Evict(hits, window, now) == hits[k..] && ExpiredBefore(hits, k, window, now)
  {
    if hits == [] {
      k := 0;
    } else if now - hits[0] > window {
      var j := EvictCounts(hits[1..], window, now);
      k := j + 1;
      assert hits[1..][j..] == hits[k..];
      assert forall i :: 1 <= i < k ==> hits[i] == hits[1..][i - 1];
    } else {
      AllRecent(hits, window, now);
      k := 0;
      assert hits[0..] == hits;
    }
  }

  lemma {:induction false} AllRecent(hits: seq<Time>, window: real, now: Time)
    requires forall i :: 0 <= i < |hits| ==> now - hits[i] <= window
    ensures Recent(hits, window, now) == |hits|
  {
    if hits != [] {
      AllRecent(hits[1..], window, now);
    }
  }

  ghost predicate ExpiredBefore(history: seq<Time>, k: nat, window: real, now: Time) {
    k <= |history| && forall i :: 0 <= i < k ==> now - history[i] > window
  }

  lemma {:induction false} ExpiredFront(history: seq<Time>, k: nat, window: real, now: Time)
    requires ExpiredBefore(history, k, window, now)
    ensures Recent(history, window, now) == Recent(history[k..], window, now)
  {
    if k > 0 {
      ExpiredFront(history[1..], k - 1, window, now);
      assert history[1..][k - 1..] == history[k..];
    } else {
      assert history[0..] == history;
    }
  }

  /** Dropping an expired front leaves a queue that still represents the history. */
  lemma Dropped(hits: seq<Time>, history: seq<Time>, window: real, last: Time, now: Time, k: nat)
    requires Represents(hits, history, window, last) && last <= now && ExpiredBefore(hits, k, window, now)
    ensures Represents(hits[k..], history, window, now)
  {
    var n := |history| - |hits|;
    assert hits[k..] == history[n + k..];
    forall i | 0 <= i < n + k ensures now - history[i] > window {
      if i >= n {
        assert history[i] == hits[i - n];
      }
    }
  }

  /** The queue gives the verdict of the full history. */
  lemma SameVerdict(hits: seq<Time>, history: seq<Time>, limit: int, window: real, last: Time, now: Time)
    requires Represents(hits, history, window, last) && Nondecreasing(history) && last <= now
    ensures Limited(hits, limit, window, now) == HistoryLimited(history, limit, window, now)
  {
    SuffixNondecreasing(hits, history, window, last);
    var k := EvictCounts(hits, window, now);
    ExpiredFront(history, |history| - |hits|, window, now);
  }

  /** After a call the queue represents the history again. */
  lemma HitRefines(hits: seq<Time>, history: seq<Time>, limit: int, window: real, last: Time, now: Time)
    requires Represents(hits, history, window, last) && Nondecreasing(history) && last <= now
    ensures Represents(AfterHit(hits, limit, window, now), HistoryAfter(history, limit, window, now), window, now)
  {
    hide Evict, Recent, Nondecreasing;
    SameVerdict(hits, history, limit, window, last, now);
    SuffixNondecreasing(hits, history, window, last);
    var k := EvictCounts(hits, window, now);
    Dropped(hits, history, window, last, now, k);
    Grown(hits[k..], history, window, now);
  }

  lemma Grown(kept: seq<Time>, history: seq<Time>, window: real, now: Time)
    requires Represents(kept, history, window, now)
    ensures Represents(kept + [now], history + [now], window, now)
  {
    assert (history + [now])[|history| - |kept|..] == kept + [now];
  }

  lemma SuffixNondecreasing(hits: seq<Time>, history: seq<Time>, window: real, last: Time)
    requires Represents(hits, history, window, last) && Nondecreasing(history)
    ensures Nondecreasing(hits)
  {
  }

  // ---------------------------------------------------------------- runs

  datatype Call = Call(bucket: string, now: Time)

  /** The queues after a run of calls, and the verdicts. */
  function QueuesAfter(calls: seq<Call>, limit: int, window: real): map<string, seq<Time>> {
    if calls == [] then map[]
    else
      var n := |calls| - 1;
      var before := QueuesAfter(calls[..n], limit, window);
      var c := calls[n];
      before[c.bucket := AfterHit(QueueOf(before, c.bucket), limit, window, c.now)]
  }

  function Verdict(calls: seq<Call>, c: Call, limit: int, window: real): bool {
    Limited(QueueOf(QueuesAfter(calls, limit, window), c.bucket), limit, window, c.now)
  }

  /** The accepted times of a bucket, according to the full history. */
  function Accepted(calls: seq<Call>, bucket: string, limit: int, window: real): seq<Time> {
    if calls == [] then []
    else
      var n := |calls| - 1;
      var before := Accepted(calls[..n], bucket, limit, window);
      if calls[n].bucket == bucket then HistoryAfter(before, limit, window, calls[n].now) else before
  }

  ghost predicate ClockRuns(calls: seq<Call>) {
    forall i, j :: 0 <= i < j < |calls| ==> calls[i].now <= calls[j].now
  }

  function LastTime(calls: seq<Call>, now: Time): Time {
    if calls == [] then now else calls[|calls| - 1].now
  }

  /** No window of `limit + 1` consecutive accepted hits fits the window length. */
  ghost predicate Spaced(history: seq<Time>, limit: nat, window: real) {
    forall i, j :: 0 <= i && j == i + limit && j < |history| ==> history[j] - history[i] > window
  }

  lemma {:induction false} RecentSuffix(history: seq<Time>, window: real, now: Time, k: nat)
    requires k <= |history| && forall i :: k <= i < |history| ==> now - history[i] <= window
    ensures Recent(history, window, now) >= |history| - k
  {
    if k == 0 {
      AllRecent(history, window, now);
    } else {
      RecentSuffix(history[1..], window, now, k - 1);
    }
  }

  /** A hit is accepted only if fewer than `limit` of the last hits are in its window. */
  lemma AcceptedBeyondWindow(history: seq<Time>, limit: nat, window: real, now: Time)
    requires Nondecreasing(history) && Past(history, now)
    requires !HistoryLimited(history, limit, window, now) && 1 <= limit <= |history|
    ensures now - history[|history| - limit] > window
  {
    var k := |history| - limit;
    if now - history[k] <= window {
      RecentSuffix(history, window, now, k);
    }
  }

  lemma AcceptKeepsSpaced(history: seq<Time>, limit: nat, window: real, now: Time)
    requires limit >= 1 && Sound(history, limit, window, now)
    ensures Sound(HistoryAfter(history, limit, window, now), limit, window, now)
  {
    hide Recent;
    if !HistoryLimited(history, limit, window, now) {
      if |history| >= limit {
        AcceptedBeyondWindow(history, limit, window, now);
      }
      var after := history + [now];
      assert Nondecreasing(after) && Past(after, now);
      forall i, j | 0 <= i && j == i + limit && j < |after| ensures after[j] - after[i] > window {
        if j < |history| {
          assert history[j] - history[i] > window;
        }
      }
    }
  }

  /** Accepted times in order, none in the future, and spaced out. */
  ghost predicate Sound(history: seq<Time>, limit: nat, window: real, now: Time) {
    Nondecreasing(history) && Past(history, now) && Spaced(history, limit, window)
  }

  lemma Later(hits: seq<Time>, history: seq<Time>, limit: nat, window: real, last: Time, now: Time)
    requires Represents(hits, history, window, last) && Sound(history, limit, window, last) && last <= now
    ensures Represents(hits, history, window, now) && Sound(history, limit, window, now)
  {
  }

  /** What holds of each bucket after any run with a nondecreasing clock. */
  ghost predicate BucketOk(calls: seq<Call>, bucket: string, limit: nat, window: real, now: Time) {
    var history := Accepted(calls, bucket, limit, window);
    && Represents(QueueOf(QueuesAfter(calls, limit, window), bucket), history, window, now)
    && Sound(history, limit, window, now)
  }

  lemma {:induction false} BucketsOk(calls: seq<Call>, bucket: string, limit: nat, window: real, now: Time)
    requires limit >= 1 && ClockRuns(calls) && LastTime(calls, now) <= now
    ensures BucketOk(calls, bucket, limit, window, now)
    decreases |calls|
  {
    hide Evict, Recent, AfterHit, HistoryAfter, Represents, Sound;
    if calls == [] {
      EmptyBucketOk(limit, window, now);
    } else {
      var n := |calls| - 1;
      var c := calls[n];
      BucketsOk(calls[..n], bucket, limit, window, c.now);
      var history := Accepted(calls[..n], bucket, limit, window);
      var hits := QueueOf(QueuesAfter(calls[..n], limit, window), bucket);
      if c.bucket == bucket {
        SoundNondecreasing(history, limit, window, c.now);
        HitRefines(hits, history, limit, window, c.now, c.now);
        AcceptKeepsSpaced(history, limit, window, c.now);
      }
      Later(QueueOf(QueuesAfter(calls, limit, window), bucket), Accepted(calls, bucket, limit, window),
            limit, window, c.now, now);
    }
  }

  lemma SoundNondecreasing(history: seq<Time>, limit: nat, window: real, now: Time)
    requires Sound(history, limit, window, now)
    ensures Nondecreasing(history)
  {
  }

  lemma EmptyBucketOk(limit: nat, window: real, now: Time)
    ensures Represents([], [], window, now) && Sound([], limit, window, now)
  {
  }

  /** In any run of calls on any buckets, with a nondecreasing clock and a fixed limit of at least 1,
      the limiter answers every call exactly as the full history does. */
  lemma LimiterRefinesHistory(calls: seq<Call>, c: Call, limit: nat, window: real)
    requires limit >= 1 && ClockRuns(calls) && LastTime(calls, c.now) <= c.now
    ensures Verdict(calls, c, limit, window)
         == HistoryLimited(Accepted(calls, c.bucket, limit, window), limit, window, c.now)
  {
    BucketsOk(calls, c.bucket, limit, window, c.now);
    SameVerdict(QueueOf(QueuesAfter(calls, limit, window), c.bucket), Accepted(calls, c.bucket, limit, window),
                limit, window, c.now, c.now);
  }

  function CountWithin(history: seq<Time>, from: Time, until: Time): nat {
    if history == [] then 0
    else
      var n := |history| - 1;
      CountWithin(history[..n], from, until) + if from <= history[n] <= until then 1 else 0
  }

  lemma {:induction false} CountByIndex(history: seq<Time>, from: Time, until: Time, lo: nat, hi: nat)
    requires lo <= hi
    requires forall i :: 0 <= i < |history| && from <= history[i] <= until ==> lo <= i < hi
    ensures CountWithin(history, from, until) <= hi - lo
    ensures |history| < hi && lo <= |history| ==> CountWithin(history, from, until) <= |history| - lo
    ensures |history| <= lo ==> CountWithin(history, from, until) == 0
  {
    if history != [] {
      var n := |history| - 1;
      CountByIndex(history[..n], from, until, lo, hi);
    }
  }

  lemma BeyondLimit(history: seq<Time>, limit: nat, window: real, now: Time, lo: nat, i: nat)
    requires limit >= 1 && Sound(history, limit, window, now)
    requires lo + limit <= i < |history|
    ensures history[i] - history[lo] > window
  {
    assert history[lo + limit] - history[lo] > window;
  }

  /** No closed interval of the window's length holds more than `limit` accepted hits of a bucket. */
  lemma WindowNeverExceedsLimit(calls: seq<Call>, bucket: string, limit: nat, window: real, from: Time, now: Time)
    requires limit >= 1 && ClockRuns(calls) && LastTime(calls, now) <= now
    ensures CountWithin(Accepted(calls, bucket, limit, window), from, from + window) <= limit
  {
    BucketsOk(calls, bucket, limit, window, now);
    var history := Accepted(calls, bucket, limit, window);
    hide Represents, Sound, Accepted, QueuesAfter;
    var lo := FirstFrom(history, from);
    forall i | 0 <= i < |history| && from <= history[i] <= from + window ensures lo <= i < lo + limit {
      if i >= lo + limit {
        BeyondLimit(history, limit, window, now, lo, i);
      }
    }
    CountByIndex(history, from, from + window, lo, lo + limit);
  }

  lemma {:induction false} FirstFrom(history: seq<Time>, from: Time) returns (lo: nat)
    ensures lo <= |history|
    ensures forall i :: 0 <= i < lo ==> history[i] < from
    ensures lo < |history| ==> history[lo] >= from
  {
    lo := 0;
    while lo < |history| && history[lo] < from
      invariant lo <= |history| && forall i :: 0 <= i < lo ==> history[i] < from
    {
      lo := lo + 1;
    }
  }

  // ---------------------------------------------------------------- refused exactly when the window is full

  /** The times of the calls on a bucket that the limiter has let through. */
  function Granted(calls: seq<Call>, bucket: string, limit: nat, window: real): seq<Time> {
    if calls == [] then []
    else
      var n := |calls| - 1;
      var before := Granted(calls[..n], bucket, limit, window);
      if calls[n].bucket == bucket && !Verdict(calls[..n], calls[n], limit, window) then before + [calls[n].now]
      else before
  }

  lemma {:induction false} GrantedIsAccepted(calls: seq<Call>, bucket: string, limit: nat, window: real)
    requires limit >= 1 && ClockRuns(calls)
    ensures Granted(calls, bucket, limit, window) == Accepted(calls, bucket, limit, window)
    decreases |calls|
  {
    hide Verdict, HistoryLimited;
    if calls != [] {
      var n := |calls| - 1;
      GrantedIsAccepted(calls[..n], bucket, limit, window);
      if calls[n].bucket == bucket {
        LimiterRefinesHistory(calls[..n], calls[n], limit, window);
      }
    }
  }

  lemma {:induction false} RecentSnoc(history: seq<Time>, last: Time, window: real, now: Time)
    ensures Recent(history + [last], window, now)
         == Recent(history, window, now) + if now - last <= window then 1 else 0
  {
    if history == [] {
      assert history + [last] == [last];
    } else {
      assert (history + [last])[1..] == history[1..] + [last];
      RecentSnoc(history[1..], last, window, now);
    }
  }

  lemma {:induction false} RecentIsWithin(history: seq<Time>, window: real, now: Time)
    requires Past(history, now)
    ensures Recent(history, window, now) == CountWithin(history, now - window, now)
  {
    if history != [] {
      var n := |history| - 1;
      assert history == history[..n] + [history[n]];
      RecentSnoc(history[..n], history[n], window, now);
      RecentIsWithin(history[..n], window, now);
    }
  }

  /** A call is refused if and only if `limit` calls on its bucket have been let through within the window
      that ends with it: refused calls do not count, and none is refused without need. */
  lemma RefusedIff(calls: seq<Call>, c: Call, limit: nat, window: real)
    requires limit >= 1 && ClockRuns(calls) && LastTime(calls, c.now) <= c.now
    ensures Verdict(calls, c, limit, window)
       <==> CountWithin(Granted(calls, c.bucket, limit, window), c.now - window, c.now) >= limit
  {
    hide Verdict, Recent, CountWithin, Granted, Accepted, Represents, QueuesAfter, Nondecreasing, Spaced, Past;
    LimiterRefinesHistory(calls, c, limit, window);
    GrantedIsAccepted(calls, c.bucket, limit, window);
    BucketsOk(calls, c.bucket, limit, window, c.now);
    RecentIsWithin(Accepted(calls, c.bucket, limit, window), window, c.now);
  }

  // ---------------------------------------------------------------- buckets

  /** Two keys from one host share a bucket exactly if they are the same, or both stand for no key. */
  lemma KeysShareBucketIff(host: Option<string>, key: string, other: string)
    ensures BucketKey(host, key) == BucketKey(host, other)
       <==> key == other || (key in ["", "anonymous"] && other in ["", "anonymous"])
  {
    var front := (if host.Some? then host.value else "unknown") + ":";
    var tail, otherTail := BucketKey(host, key)[|front|..], BucketKey(host, other)[|front|..];
    assert BucketKey(host, key) == front + tail && BucketKey(host, other) == front + otherTail;
  }

  function HostText(host: Option<string>): string {
    if host.Some? then host.value else "unknown"
  }

  /** Callers from two hosts never share a bucket, whatever their keys, exactly if neither host's text with
      the colon is the beginning of the other's. */
  lemma HostsApartIff(host: Option<string>, other: Option<string>)
    ensures (forall key, otherKey :: BucketKey(host, key) != BucketKey(other, otherKey))
       <==> !(HostText(host) + ":" <= HostText(other) + ":") && !(HostText(other) + ":" <= HostText(host) + ":")
  {
    var a, b := HostText(host) + ":", HostText(other) + ":";
    if a <= b {
      SharedBucket(host, other);
    } else if b <= a {
      SharedBucket(other, host);
    } else {
      forall key, otherKey ensures BucketKey(host, key) != BucketKey(other, otherKey) {
        BucketStarts(host, key);
        BucketStarts(other, otherKey);
      }
    }
  }

  lemma BucketStarts(host: Option<string>, key: string)
    ensures HostText(host) + ":" <= BucketKey(host, key)
  {
  }

  lemma SharedBucket(host: Option<string>, other: Option<string>)
    requires HostText(host) + ":" <= HostText(other) + ":"
    ensures exists key, otherKey :: BucketKey(host, key) == BucketKey(other, otherKey)
  {
    var a, b := HostText(host) + ":", HostText(other) + ":";
    var key := b[|a|..] + "x";
    assert BucketKey(host, key) == a + key;
    assert BucketKey(other, "x") == b + "x";
    assert a + key == b + "x";
  }
}
