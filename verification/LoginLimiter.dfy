/**
 The in-process login limiter, bounded to a number of buckets, against the plain rule that
 looks at the whole history of failures of a key. Times are whole seconds on a clock that does
 not go back; a key is the normalised pair of identifier and address.
 */
module LoginLimiter {
  import opened Base

  type Key = (string, string)

  datatype Rule = Rule(window: int, limit: int, lock: int)

  const STANDARD := Rule(60, 5, 300)
  const CAP: nat := 10000

  ghost predicate Sane(r: Rule) { r.window > 0 && r.limit > 0 && r.lock > 0 }

  /** The failures that still fall in the window. */
  function Recent(xs: seq<int>, now: int, window: int): (r: seq<int>)
    ensures |r| <= |xs|
  {
    if xs == [] then []
    else
      var front := Recent(xs[..|xs| - 1], now, window);
      if now - xs[|xs| - 1] < window then front + [xs[|xs| - 1]] else front
  }

  // ---------- The plain rule ----------

  /** All failures counted since the last lock, and that lock. Nothing is ever pruned or evicted. */
  datatype Plain = Plain(counted: seq<int>, lockedUntil: int)

  const FRESH := Plain([], 0)

  predicate Trips(r: Rule, p: Plain, now: int) {
    now >= p.lockedUntil && |Recent(p.counted, now, r.window)| + 1 >= r.limit
  }

  /** A failure during a lock does not count; the limit-th counted one in the window locks. */
  function After(r: Rule, p: Plain, now: int): Plain {
    if now < p.lockedUntil then p
    else if Trips(r, p, now) then Plain([], now + r.lock)
    else Plain(p.counted + [now], p.lockedUntil)
  }

  /** The state a history of failure times leaves. */
  function Replay(r: Rule, history: seq<int>): Plain {
    if history == [] then FRESH
    else After(r, Replay(r, history[..|history| - 1]), history[|history| - 1])
  }

  lemma ReplayNext(r: Rule, history: seq<int>, now: int)
    ensures Replay(r, history + [now]) == After(r, Replay(r, history), now)
  {
    assert (history + [now])[..|history|] == history;
  }

  // ---------- Buckets ----------

  datatype Bucket = Bucket(failures: seq<int>, lockedUntil: int)

  const NEW := Bucket([], 0)

  predicate Sorted(xs: seq<int>) {
    forall i, j :: 0 <= i < j < |xs| ==> xs[i] <= xs[j]
  }

  function ActiveUntil(r: Rule, b: Bucket): int {
    Max(b.lockedUntil, (if b.failures == [] then 0 else b.failures[|b.failures| - 1]) + r.window)
  }

  /** What one failure does to a bucket, and whether it trips the lock. */
  function Failed(r: Rule, b: Bucket, now: int): (Bucket, bool) {
    if now < b.lockedUntil then (b, false)
    else
      var failures := Recent(b.failures, now, r.window) + [now];
      if |failures| >= r.limit then (Bucket([], now + r.lock), true)
      else (Bucket(failures, b.lockedUntil), false)
  }

  ghost predicate BucketOk(r: Rule, b: Bucket, clock: int) {
    && Sorted(b.failures) && |b.failures| < r.limit
    && forall i :: 0 <= i < |b.failures| ==> b.failures[i] <= clock
  }

  /** From this moment on the bucket and the plain state cannot be told apart. */
  ghost predicate Agrees(r: Rule, b: Bucket, p: Plain, now: int) {
    && (b.lockedUntil == p.lockedUntil || (b.lockedUntil <= now && p.lockedUntil <= now))
    && Recent(b.failures, now, r.window) == Recent(p.counted, now, r.window)
  }

  lemma {:induction false} RecentOfRecent(xs: seq<int>, now: int, later: int, window: int)
    requires now <= later
    ensures Recent(Recent(xs, now, window), later, window) == Recent(xs, later, window)
  {
    if xs != [] {
      var front, last := xs[..|xs| - 1], xs[|xs| - 1];
      RecentOfRecent(front, now, later, window);
      if now - last < window {
        var kept := Recent(front, now, window);
        assert (kept + [last])[..|kept|] == kept;
      }
    }
  }

  lemma {:induction false} RecentIsPart(xs: seq<int>, now: int, window: int)
    ensures forall x :: x in Recent(xs, now, window) <==> x in xs && now - x < window
    ensures Sorted(xs) ==> Sorted(Recent(xs, now, window))
  {
    if xs != [] {
      var front := xs[..|xs| - 1];
      RecentIsPart(front, now, window);
      assert forall x :: x in xs <==> x in front || x == xs[|xs| - 1];
      if Sorted(xs) {
        var kept := Recent(front, now, window);
        forall i | 0 <= i < |kept| ensures kept[i] <= xs[|xs| - 1] {
          assert kept[i] in kept;
          var j :| 0 <= j < |front| && front[j] == kept[i];
          assert xs[j] == front[j];
        }
      }
    }
  }

  lemma RecentAppend(xs: seq<int>, x: int, now: int, window: int)
    ensures Recent(xs + [x], now, window) == Recent(xs, now, window) + if now - x < window then [x] else []
  {
    assert (xs + [x])[..|xs|] == xs;
  }

  lemma AgreementLasts(r: Rule, b: Bucket, p: Plain, now: int, later: int)
    requires Agrees(r, b, p, now) && now <= later
    ensures Agrees(r, b, p, later)
  {
    RecentOfRecent(b.failures, now, later, r.window);
    RecentOfRecent(p.counted, now, later, r.window);
  }

  /** One failure: the bucket trips exactly when the plain rule does, and they agree afterwards. */
  lemma FailureAgrees(r: Rule, b: Bucket, p: Plain, now: int)
    requires Sane(r) && Agrees(r, b, p, now)
    ensures Failed(r, b, now).1 == Trips(r, p, now)
    ensures Agrees(r, Failed(r, b, now).0, After(r, p, now), now)
  {
    if now >= b.lockedUntil && !Trips(r, p, now) {
      var kept := Recent(b.failures, now, r.window);
      RecentOfRecent(b.failures, now, now, r.window);
      RecentAppend(kept, now, now, r.window);
      RecentAppend(p.counted, now, now, r.window);
    }
  }

  lemma FailureKeepsBucketOk(r: Rule, b: Bucket, clock: int, now: int)
    requires Sane(r) && BucketOk(r, b, clock) && clock <= now
    ensures BucketOk(r, Failed(r, b, now).0, now)
  {
    RecentIsPart(b.failures, now, r.window);
    var kept := Recent(b.failures, now, r.window);
    forall i | 0 <= i < |kept| ensures kept[i] <= now {
      assert kept[i] in kept;
      var j :| 0 <= j < |b.failures| && b.failures[j] == kept[i];
    }
  }

  lemma {:induction false} NewestInWindow(xs: seq<int>, now: int, window: int, n: nat)
    requires Sorted(xs) && n <= |xs|
    ensures |Recent(xs, now, window)| >= n <==> n == 0 || now - xs[|xs| - n] < window
  {
    if xs != [] && n > 0 {
      var front := xs[..|xs| - 1];
      if now - xs[|xs| - 1] < window {
        NewestInWindow(front, now, window, n - 1);
      } else {
        NothingRecent(xs, now, window);
      }
    }
  }

  lemma {:induction false} HistoryStaysSorted(r: Rule, history: seq<int>)
    requires Sorted(history)
    ensures Sorted(Replay(r, history).counted)
    ensures forall x :: x in Replay(r, history).counted ==> x in history
  {
    if history != [] {
      var front, last := history[..|history| - 1], history[|history| - 1];
      HistoryStaysSorted(r, front);
      var p := Replay(r, front);
      forall i | 0 <= i < |p.counted| ensures p.counted[i] <= last {
        assert p.counted[i] in p.counted && p.counted[i] in front;
        var j :| 0 <= j < |front| && front[j] == p.counted[i];
        assert history[j] == front[j];
      }
      forall x | x in p.counted ensures x in history {
        var j :| 0 <= j < |front| && front[j] == x;
        assert history[j] == x;
      }
    }
  }

  /** The rule as its documentation puts it: with this failure, the limit-th most recent counted one
      falls in the window. */
  lemma TripsExactlyWhen(r: Rule, history: seq<int>, now: int)
    requires Sane(r) && Sorted(history)
    ensures
      var p := Replay(r, history);
      Trips(r, p, now) <==>
        now >= p.lockedUntil
        && (r.limit == 1
            || (|p.counted| >= r.limit - 1 && now - p.counted[|p.counted| - (r.limit - 1)] < r.window))
  {
    HistoryStaysSorted(r, history);
    var counted := Replay(r, history).counted;
    if |counted| >= r.limit - 1 {
      NewestInWindow(counted, now, r.window, r.limit - 1);
    }
  }

  /** What one more failure does to a key: nothing while it is locked; a lock of the rule's length, counted from
      now, if it trips; otherwise it is counted. */
  lemma OneMoreFailure(r: Rule, history: seq<int>, now: int)
    requires Sane(r) && Sorted(history)
    ensures
      var p, n := Replay(r, history), Replay(r, history + [now]);
      var trips := r.limit == 1
                   || (|p.counted| >= r.limit - 1 && now - p.counted[|p.counted| - (r.limit - 1)] < r.window);
      n == if now < p.lockedUntil then p
           else if trips then Plain([], now + r.lock)
           else Plain(p.counted + [now], p.lockedUntil)
  {
    ReplayNext(r, history, now);
    TripsExactlyWhen(r, history, now);
  }

  /** A lock runs its time: failures meanwhile neither prolong it nor count. */
  lemma {:induction false} LockRunsItsTime(r: Rule, history: seq<int>, now: int, later: seq<int>)
    requires Sane(r) && Trips(r, Replay(r, history), now)
    requires forall i :: 0 <= i < |later| ==> later[i] < now + r.lock
    ensures Replay(r, history + [now] + later) == Plain([], now + r.lock)
  {
    if later == [] {
      ReplayNext(r, history, now);
      assert history + [now] + later == history + [now];
    } else {
      var front, last := later[..|later| - 1], later[|later| - 1];
      LockRunsItsTime(r, history, now, front);
      assert history + [now] + later == history + [now] + front + [last];
      ReplayNext(r, history + [now] + front, last);
    }
  }

  lemma {:induction false} FourAreCounted(history: seq<int>)
    requires |history| <= 4 && Sorted(history) && forall i :: 0 <= i < |history| ==> history[i] >= 0
    ensures Replay(STANDARD, history) == Plain(history, 0)
  {
    if history != [] {
      var front, last := history[..|history| - 1], history[|history| - 1];
      FourAreCounted(front);
      OneMoreFailure(STANDARD, front, last);
      assert front + [last] == history;
    }
  }

  /** The rule of the service: the fifth failure locks, for five minutes, exactly when all five fall within one. */
  lemma FiveFailuresInAMinute(history: seq<int>, now: int)
    requires |history| == 4 && Sorted(history + [now]) && 0 <= now
    requires Sorted(history) && forall i :: 0 <= i < |history| ==> history[i] >= 0
    ensures Replay(STANDARD, history + [now]) == if now - history[0] < 60 then Plain([], now + 300) else Plain(history + [now], 0)
  {
    FourAreCounted(history);
    OneMoreFailure(STANDARD, history, now);
  }

  /** A bucket past its time says what a missing one says: dropping it is invisible. */
  lemma ExpiredIsNew(r: Rule, b: Bucket, p: Plain, clock: int, now: int)
    requires Sane(r) && BucketOk(r, b, clock) && clock <= now && 0 <= now && ActiveUntil(r, b) <= now
    requires Agrees(r, b, p, now)
    ensures Agrees(r, NEW, p, now)
  {
    forall i | 0 <= i < |b.failures| ensures now - b.failures[i] >= r.window {
      assert b.failures[i] <= b.failures[|b.failures| - 1];
    }
    NothingRecent(b.failures, now, r.window);
  }

  lemma {:induction false} NothingRecent(xs: seq<int>, now: int, window: int)
    requires forall i :: 0 <= i < |xs| ==> now - xs[i] >= window
    ensures Recent(xs, now, window) == []
  {
    if xs != [] { NothingRecent(xs[..|xs| - 1], now, window); }
  }

  // ---------- The limiter ----------

  type Buckets = map<Key, Bucket>

  type History = map<Key, seq<int>>

  function BucketAt(buckets: Buckets, k: Key): Bucket {
    if k in buckets then buckets[k] else NEW
  }

  function FailuresOf(history: History, k: Key): seq<int> {
    if k in history then history[k] else []
  }

  ghost predicate AllAgree(r: Rule, buckets: Buckets, history: History, forced: set<Key>, now: int) {
    forall k :: k !in forced ==> Agrees(r, BucketAt(buckets, k), Replay(r, FailuresOf(history, k)), now)
  }

  lemma AllAgreeLater(r: Rule, buckets: Buckets, history: History, forced: set<Key>, now: int, later: int)
    requires AllAgree(r, buckets, history, forced, now) && now <= later
    ensures AllAgree(r, buckets, history, forced, later)
  {
    forall k | k !in forced ensures Agrees(r, BucketAt(buckets, k), Replay(r, FailuresOf(history, k)), later) {
      AgreementLasts(r, BucketAt(buckets, k), Replay(r, FailuresOf(history, k)), now, later);
    }
  }

  lemma AllAgreeWithout(r: Rule, buckets: Buckets, history: History, forced: set<Key>, now: int, k: Key)
    requires AllAgree(r, buckets, history, forced, now)
    requires k in forced || Agrees(r, NEW, Replay(r, FailuresOf(history, k)), now)
    ensures AllAgree(r, buckets - {k}, history, forced, now)
  {
    forall j | j !in forced ensures Agrees(r, BucketAt(buckets - {k}, j), Replay(r, FailuresOf(history, j)), now) {
      assert j != k ==> BucketAt(buckets - {k}, j) == BucketAt(buckets, j);
    }
  }

  lemma AllAgreeAfterFailure(r: Rule, buckets: Buckets, history: History, forced: set<Key>, now: int, k: Key)
    requires Sane(r) && AllAgree(r, buckets, history, forced, now)
    ensures AllAgree(r, buckets[k := Failed(r, BucketAt(buckets, k), now).0],
                     history[k := FailuresOf(history, k) + [now]], forced, now)
    ensures k !in forced ==> (Failed(r, BucketAt(buckets, k), now).1 <==> Trips(r, Replay(r, FailuresOf(history, k)), now))
  {
    if k !in forced { FailureAgrees(r, BucketAt(buckets, k), Replay(r, FailuresOf(history, k)), now); }
    ReplayNext(r, FailuresOf(history, k), now);
    var b, h := buckets[k := Failed(r, BucketAt(buckets, k), now).0], history[k := FailuresOf(history, k) + [now]];
    forall j | j !in forced ensures Agrees(r, BucketAt(b, j), Replay(r, FailuresOf(h, j)), now) {
      assert j != k ==> BucketAt(b, j) == BucketAt(buckets, j) && FailuresOf(h, j) == FailuresOf(history, j);
    }
  }

  lemma AllAgreeAfterReset(r: Rule, buckets: Buckets, history: History, forced: set<Key>, now: int, k: Key)
    requires now >= 0 && AllAgree(r, buckets, history, forced, now)
    ensures AllAgree(r, buckets - {k}, history - {k}, forced - {k}, now)
  {
    forall j | j !in forced - {k}
      ensures Agrees(r, BucketAt(buckets - {k}, j), Replay(r, FailuresOf(history - {k}, j)), now)
    {
      assert j != k ==> BucketAt(buckets - {k}, j) == BucketAt(buckets, j)
                        && FailuresOf(history - {k}, j) == FailuresOf(history, j);
    }
  }

  class Limiter {
    const rule: Rule
    var buckets: Buckets
    /** The time of the last call. */
    ghost var clock: int
    /** Every failure of a key since its last reset. */
    ghost var history: History
    /** Keys that lost a bucket before its time, to make room. */
    ghost var forced: set<Key>

    ghost function PlainOf(k: Key): Plain
      reads this`history
    {
      Replay(rule, FailuresOf(history, k))
    }

    /** The bound, the shape of every bucket, and agreement with the plain rule. */
    ghost predicate Valid()
      reads this
    {
      && Sane(rule) && clock >= 0 && |buckets| <= CAP
      && (forall k :: k in buckets ==> BucketOk(rule, buckets[k], clock))
      && AllAgree(rule, buckets, history, forced, clock)
    }

    constructor (r: Rule)
      requires Sane(r)
      ensures Valid() && rule == r && forced == {} && history == map[] && clock == 0
    {
      rule := r;
      buckets, clock, history, forced := map[], 0, map[], {};
    }

    /** Time passes; nothing is told apart by it. */
    ghost method PassTo(now: int)
      requires Valid() && clock <= now
      modifies this`clock
      ensures Valid() && clock == now
    {
      AllAgreeLater(rule, buckets, history, forced, clock, now);
      clock := now;
    }

    method IsLocked(k: Key, now: int) returns (locked: bool)
      requires Valid() && clock <= now
      modifies this`clock
      ensures Valid() && clock == now
      ensures k !in forced ==> (locked <==> now < PlainOf(k).lockedUntil)
    {
      PassTo(now);
      locked := k in buckets && now < buckets[k].lockedUntil;
      assert k !in forced ==> Agrees(rule, BucketAt(buckets, k), PlainOf(k), now);
    }

    function ExpiredKeys(now: int): set<Key>
      reads this`buckets
    {
      set k | k in buckets && ActiveUntil(rule, buckets[k]) <= now
    }

    /** First half of _evict: what is past its time goes, and nobody can tell. */
    method DropExpired(now: int)
      requires Valid() && now == clock
      modifies this`buckets
      ensures Valid()
      ensures forall k :: k in buckets <==> k in old(buckets) && ActiveUntil(rule, old(buckets)[k]) > now
      ensures forall k :: k in buckets ==> buckets[k] == old(buckets)[k]
    {
      var todo := ExpiredKeys(now);
      while todo != {}
        invariant Valid() && todo <= buckets.Keys
        invariant forall k :: k in buckets ==> k in old(buckets) && buckets[k] == old(buckets)[k]
        invariant forall k :: k in todo ==> ActiveUntil(rule, buckets[k]) <= now
        invariant forall k :: k in old(buckets) && ActiveUntil(rule, old(buckets)[k]) > now ==> k in buckets
        invariant forall k :: k in buckets && ActiveUntil(rule, buckets[k]) <= now ==> k in todo
        decreases todo
      {
        var k :| k in todo;
        if k !in forced {
          assert BucketAt(buckets, k) == buckets[k];
          ExpiredIsNew(rule, buckets[k], PlainOf(k), clock, clock);
        }
        todo := todo - {k};
        RemoveBucket(k);
      }
    }

    /** A bucket may go if it is past its time or its key is written off. */
    method RemoveBucket(k: Key)
      requires Valid() && k in buckets && (k in forced || Agrees(rule, NEW, Replay(rule, FailuresOf(history, k)), clock))
      modifies this`buckets
      ensures Valid() && buckets == old(buckets) - {k} && |buckets| == old(|buckets|) - 1
    {
      AllAgreeWithout(rule, buckets, history, forced, clock, k);
      buckets := buckets - {k};
      assert buckets.Keys == old(buckets).Keys - {k};
    }

    /** The bucket nearest to its end. */
    method Soonest() returns (first: Key)
      requires buckets != map[]
      ensures first in buckets && forall k :: k in buckets ==> ActiveUntil(rule, buckets[first]) <= ActiveUntil(rule, buckets[k])
    {
      first :| first in buckets;
      var todo := buckets.Keys - {first};
      while todo != {}
        invariant todo <= buckets.Keys && first in buckets
        invariant forall k :: k in buckets && k !in todo ==> ActiveUntil(rule, buckets[first]) <= ActiveUntil(rule, buckets[k])
        decreases todo
      {
        var k :| k in todo;
        todo := todo - {k};
        if ActiveUntil(rule, buckets[k]) < ActiveUntil(rule, buckets[first]) { first := k; }
      }
    }

    /** Second half of _evict: still full, the bucket nearest to its end makes room. The cap holds
        at every call, so the overflow the service computes is one at most. */
    method MakeRoom() returns (k: Key)
      requires Valid() && |buckets| - CAP + 1 == 1
      modifies this`buckets, this`forced
      ensures Valid() && |buckets| < CAP && k in old(buckets)
      ensures buckets == old(buckets) - {k} && forced == old(forced) + {k}
      ensures forall j :: j in buckets ==> ActiveUntil(rule, old(buckets)[k]) <= ActiveUntil(rule, buckets[j])
    {
      k := Soonest();
      forced := forced + {k};
      RemoveBucket(k);
    }

    /** Makes room for one more. Only a bucket that was still live can be given up for it. */
    method Evict(now: int)
      requires Valid() && now == clock
      modifies this`buckets, this`forced
      ensures Valid() && |buckets| < CAP
      ensures old(forced) <= forced && buckets.Keys <= old(buckets).Keys
      ensures forall k :: k in forced && k !in old(forced) ==>
                k in old(buckets) && ActiveUntil(rule, old(buckets)[k]) > now
      ensures |set k | k in old(buckets) && ActiveUntil(rule, old(buckets)[k]) > now| < CAP ==> forced == old(forced)
    {
      DropExpired(now);
      assert buckets.Keys == set k | k in old(buckets) && ActiveUntil(rule, old(buckets)[k]) > now;
      if |buckets| - CAP + 1 > 0 {
        var k := MakeRoom();
      }
    }

    /**
     record_failure. The answer is the plain rule's for every key that was never given up, and a key is
     given up only when the cap is reached by buckets that are all still live.
     */
    method RecordFailure(k: Key, now: int) returns (tripped: bool)
      requires Valid() && clock <= now
      modifies this
      ensures Valid() && clock == now
      ensures history == old(history)[k := FailuresOf(old(history), k) + [now]]
      ensures k !in old(forced) ==> (tripped <==> Trips(rule, old(PlainOf(k)), now)) && k !in forced
      ensures forall j :: j in forced && j !in old(forced) ==>
                j in old(buckets) && ActiveUntil(rule, old(buckets)[j]) > now
      ensures k in old(buckets) || old(|buckets|) < CAP ==> forced == old(forced)
      ensures |set j | j in old(buckets) && ActiveUntil(rule, old(buckets)[j]) > now| < CAP ==> forced == old(forced)
    {
      PassTo(now);
      if k !in buckets && |buckets| >= CAP {
        Evict(now);
      }
      var bucket := if k in buckets then buckets[k] else NEW;
      var outcome := Failed(rule, bucket, now);
      tripped := outcome.1;
      Note(k, now, outcome.0);
    }

    /** The bucket and the history take note of one failure. */
    method Note(k: Key, now: int, bucket: Bucket)
      requires Valid() && clock == now && (k in buckets || |buckets| < CAP)
      requires bucket == Failed(rule, BucketAt(buckets, k), now).0
      modifies this`buckets, this`history
      ensures Valid() && buckets == old(buckets)[k := bucket]
      ensures history == old(history)[k := FailuresOf(old(history), k) + [now]]
      ensures k !in forced ==>
                (Failed(rule, BucketAt(old(buckets), k), now).1 <==> Trips(rule, old(PlainOf(k)), now))
    {
      FailureKeepsBucketOk(rule, BucketAt(buckets, k), clock, now);
      AllAgreeAfterFailure(rule, buckets, history, forced, now, k);
      assert buckets[k := bucket].Keys == buckets.Keys + {k};
      buckets := buckets[k := bucket];
      history := history[k := FailuresOf(history, k) + [now]];
    }

    /** reset: the key starts over, and is exact again. */
    method Reset(k: Key)
      requires Valid()
      modifies this`buckets, this`history, this`forced
      ensures Valid() && history == old(history) - {k} && forced == old(forced) - {k}
    {
      AllAgreeAfterReset(rule, buckets, history, forced, clock, k);
      buckets := buckets - {k};
      history := history - {k};
      forced := forced - {k};
      assert buckets.Keys == old(buckets).Keys - {k};
    }
  }
}
