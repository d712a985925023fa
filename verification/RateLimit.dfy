/**
 The fixed-window limiters: `checkLoginRateLimit` and its sweep
 (server/routes/identity.js) and `apiRateLimit` and its sweep (server/index.js).
 They differ only in the limit of a key (5 a minute; 2000 for a credential and
 600 for an address), which is a parameter here.
 */
module RateLimit {
  const WINDOW := 60_000

  datatype Bucket = Bucket(count: nat, resetAt: int)

  type Buckets = map<string, Bucket>

  /** A request of a key at a time, or the periodic sweep. */
  datatype Event = Request(key: string, now: int) | Sweep(now: int)

  function TimeOf(e: Event): int {
    e.now
  }

  function Admits(b: Buckets, key: string, now: int, limit: nat): bool {
    key !in b || now > b[key].resetAt || b[key].count < limit
  }

  function AfterRequest(b: Buckets, key: string, now: int, limit: nat): Buckets {
    if key !in b || now > b[key].resetAt then b[key := Bucket(1, now + WINDOW)]
    else if b[key].count >= limit then b
    else b[key := b[key].(count := b[key].count + 1)]
  }

  function Swept(b: Buckets, now: int): Buckets {
    map k | k in b && now <= b[k].resetAt :: b[k]
  }

  class Limiter {
    var buckets: Buckets

    method Check(key: string, now: int, limit: nat) returns (ok: bool)
      modifies this
      ensures ok == Admits(old(buckets), key, now, limit)
      ensures buckets == AfterRequest(old(buckets), key, now, limit)
    {
      if key !in buckets || now > buckets[key].resetAt {
        buckets := buckets[key := Bucket(1, now + WINDOW)];
        return true;
      }
      if buckets[key].count >= limit { return false; }
      buckets := buckets[key := buckets[key].(count := buckets[key].count + 1)];
      return true;
    }

    /** Walks the entries in any order and deletes the expired ones. */
    method RunSweep(now: int) returns (size: nat)
      modifies this
      ensures buckets == Swept(old(buckets), now) && size == |buckets|
    {
      var todo := buckets.Keys;
      while todo != {}
        invariant todo <= old(buckets).Keys && buckets.Keys <= old(buckets).Keys && todo <= buckets.Keys
        invariant forall k :: k in buckets ==> buckets[k] == old(buckets)[k]
        invariant forall k :: k in old(buckets) && k !in todo ==> (k in buckets <==> now <= old(buckets)[k].resetAt)
        decreases todo
      {
        var k :| k in todo;
        if now > buckets[k].resetAt { buckets := buckets - {k}; }
        todo := todo - {k};
      }
      assert buckets == Swept(old(buckets), now);
      size := |buckets|;
    }
  }

  // ---- the sweep is unobservable -----------------------------------------------------

  /** The decision of each request, in order; a sweep decides nothing. */
  function Decisions(b: Buckets, events: seq<Event>, limit: string -> nat): seq<bool>
    decreases |events|
  {
    if events == [] then []
    else
      match events[0]
      case Request(key, now) =>
        [Admits(b, key, now, limit(key))] + Decisions(AfterRequest(b, key, now, limit(key)), events[1..], limit)
      case Sweep(now) => Decisions(Swept(b, now), events[1..], limit)
  }

  function WithoutSweeps(events: seq<Event>): seq<Event> {
    if events == [] then []
    else (if events[0].Sweep? then [] else [events[0]]) + WithoutSweeps(events[1..])
  }

  predicate Monotone(events: seq<Event>, from: int) {
    events == [] || (from <= TimeOf(events[0]) && Monotone(events[1..], TimeOf(events[0])))
  }

  /** The two maps agree on every bucket that is not expired at `now`. */
  ghost predicate SameWhereOpen(b: Buckets, c: Buckets, now: int) {
    forall k :: (k in b && now <= b[k].resetAt) || (k in c && now <= c[k].resetAt) ==> k in b && k in c && b[k] == c[k]
  }

  lemma {:induction false} SameDecisions(b: Buckets, c: Buckets, events: seq<Event>, limit: string -> nat, now: int)
    requires Monotone(events, now) && SameWhereOpen(b, c, now)
    ensures Decisions(b, events, limit) == Decisions(c, WithoutSweeps(events), limit)
    decreases |events|
  {
    if events != [] {
      var rest := events[1..];
      match events[0]
      case Request(key, t) =>
        SameDecisions(AfterRequest(b, key, t, limit(key)), AfterRequest(c, key, t, limit(key)), rest, limit, t);
        assert ([events[0]] + WithoutSweeps(rest))[1..] == WithoutSweeps(rest);
      case Sweep(t) =>
        SameDecisions(Swept(b, t), c, rest, limit, t);
        assert [] + WithoutSweeps(rest) == WithoutSweeps(rest);
    }
  }

  /** Running the sweep at any times at all changes no decision of any history. */
  lemma SweepIsUnobservable(events: seq<Event>, limit: string -> nat, from: int)
    requires Monotone(events, from)
    ensures Decisions(map[], events, limit) == Decisions(map[], WithoutSweeps(events), limit)
  {
    SameDecisions(map[], map[], events, limit, from);
  }

  // ---- what a sweep leaves behind --------------------------------------------------------

  function After(b: Buckets, events: seq<Event>, limit: string -> nat): Buckets {
    if events == [] then b
    else
      var before := After(b, events[..|events| - 1], limit);
      match events[|events| - 1]
      case Request(key, now) => AfterRequest(before, key, now, limit(key))
      case Sweep(now) => Swept(before, now)
  }

  /** The i-th event is the request that opened the bucket: it found none open, and nothing reset it since. */
  ghost predicate Opened(events: seq<Event>, limit: string -> nat, key: string, i: nat, resetAt: int) {
    && i < |events| && events[i] == Request(key, resetAt - WINDOW)
    && var before := After(map[], events[..i], limit);
       key !in before || resetAt - WINDOW > before[key].resetAt
  }

  lemma {:induction false} BucketsHaveOpeners(events: seq<Event>, limit: string -> nat, key: string) returns (i: nat)
    requires key in After(map[], events, limit)
    ensures Opened(events, limit, key, i, After(map[], events, limit)[key].resetAt)
  {
    var k := |events| - 1;
    var init := events[..k];
    var before := After(map[], init, limit);
    if events[k].Request? && events[k].key == key && (key !in before || events[k].now > before[key].resetAt) {
      i := k;
    } else {
      i := BucketsHaveOpeners(init, limit, key);
      assert init[..i] == events[..i];
    }
  }

  lemma {:induction false} MonotoneUpTo(events: seq<Event>, from: int, i: nat)
    requires Monotone(events, from) && i < |events|
    ensures TimeOf(events[i]) <= TimeOf(events[|events| - 1])
    decreases |events|
  {
    if |events| > 1 {
      if i > 0 {
        MonotoneUpTo(events[1..], TimeOf(events[0]), i - 1);
      } else {
        MonotoneUpTo(events[1..], TimeOf(events[0]), 0);
      }
    }
  }

  /** After a sweep each key left has its bucket from the request that opened it, made in the last 60 seconds. */
  lemma SweptMapIsRecent(events: seq<Event>, limit: string -> nat, from: int, now: int, key: string) returns (i: nat)
    requires Monotone(events + [Sweep(now)], from) && key in After(map[], events + [Sweep(now)], limit)
    ensures Opened(events, limit, key, i, After(map[], events + [Sweep(now)], limit)[key].resetAt)
    ensures now - 60_000 <= TimeOf(events[i]) <= now
  {
    var all := events + [Sweep(now)];
    assert all[..|events|] == events;
    i := BucketsHaveOpeners(events, limit, key);
    MonotoneUpTo(all, from, i);
    assert all[i] == events[i];
  }

  // ---- how much is admitted ------------------------------------------------------------

  /** Times of the admitted requests of one key, oldest first, and the buckets at the end. */
  function Admitted(b: Buckets, events: seq<Event>, limit: string -> nat, key: string): seq<int>
    decreases |events|
  {
    if events == [] then []
    else
      match events[0]
      case Request(k, now) =>
        (if k == key && Admits(b, k, now, limit(k)) then [now] else []) +
        Admitted(AfterRequest(b, k, now, limit(k)), events[1..], limit, key)
      case Sweep(now) => Admitted(Swept(b, now), events[1..], limit, key)
  }

  /** How many of the times lie in the closed interval [lo, hi]. */
  function CountIn(times: seq<int>, lo: int, hi: int): nat {
    if times == [] then 0 else (if lo <= times[0] <= hi then 1 else 0) + CountIn(times[1..], lo, hi)
  }

  /** What the bucket of a key can still admit up to its reset. */
  function Left(b: Buckets, key: string, limit: nat): nat {
    if key in b && b[key].count < limit then limit - b[key].count else 0
  }

  /** Every bucket has counted the request that opened it. */
  ghost predicate BucketsOk(b: Buckets) {
    forall k :: k in b ==> b[k].count >= 1
  }

  lemma {:induction false} NoneBefore(
      b: Buckets, events: seq<Event>, limit: string -> nat, key: string, now: int, lo: int, hi: int)
    requires Monotone(events, now) && hi < now
    ensures CountIn(Admitted(b, events, limit, key), lo, hi) == 0
    decreases |events|
  {
    if events != [] {
      match events[0]
      case Request(k, t) =>
        var rest := Admitted(AfterRequest(b, k, t, limit(k)), events[1..], limit, key);
        NoneBefore(AfterRequest(b, k, t, limit(k)), events[1..], limit, key, t, lo, hi);
        assert ([t] + rest)[1..] == rest && [] + rest == rest;
      case Sweep(t) => NoneBefore(Swept(b, t), events[1..], limit, key, t, lo, hi);
    }
  }

  /**
   Inside one window (nothing later than the open bucket's reset) at most what is
   left; from any point on at most one more full window by lo + 60 s.
   */
  lemma {:induction false} Bound(
      b: Buckets, events: seq<Event>, limit: string -> nat, key: string, now: int, lo: int, hi: int)
    requires Monotone(events, now) && limit(key) >= 1 && now <= hi
    ensures key in b && hi <= b[key].resetAt ==>
      CountIn(Admitted(b, events, limit, key), lo, hi) <= Left(b, key, limit(key))
    ensures (key !in b || now > b[key].resetAt) && hi <= now + WINDOW ==>
      CountIn(Admitted(b, events, limit, key), lo, hi) <= limit(key)
    ensures key in b && now <= b[key].resetAt && hi <= b[key].resetAt + 1 + WINDOW ==>
      CountIn(Admitted(b, events, limit, key), lo, hi) <= Left(b, key, limit(key)) + limit(key)
    decreases |events|
  {
    if events != [] {
      var t := TimeOf(events[0]);
      var after := match events[0] case Request(k, _) => AfterRequest(b, k, t, limit(k)) case Sweep(_) => Swept(b, t);
      var rest := Admitted(after, events[1..], limit, key);
      var all := Admitted(b, events, limit, key);
      assert all == rest ||
        (all == [t] + rest && events[0].Request? && events[0].key == key && Admits(b, key, t, limit(key))) by {
        assert [] + rest == rest;
      }
      if all != rest { assert ([t] + rest)[1..] == rest; }
      if t <= hi {
        Bound(after, events[1..], limit, key, t, lo, hi);
      } else {
        NoneBefore(after, events[1..], limit, key, t, lo, hi);
      }
    }
  }

  /** While a key has no open bucket, the next 60 seconds admit at most its limit. */
  lemma WindowAdmitsAtMostLimit(b: Buckets, events: seq<Event>, limit: string -> nat, key: string, now: int)
    requires Monotone(events, now) && limit(key) >= 1 && (key !in b || now > b[key].resetAt)
    ensures CountIn(Admitted(b, events, limit, key), now, now + 60_000) <= limit(key)
  {
    Bound(b, events, limit, key, now, now, now + WINDOW);
  }

  /** Any closed 60-second interval of any history admits at most 2 * limit - 1 requests of a key. */
  lemma {:induction false} IntervalBound(
      b: Buckets, events: seq<Event>, limit: string -> nat, key: string, now: int, lo: int)
    requires Monotone(events, now) && limit(key) >= 1 && BucketsOk(b)
    ensures CountIn(Admitted(b, events, limit, key), lo, lo + 60_000) <= 2 * limit(key) - 1
    decreases |events|
  {
    if events != [] {
      var t := TimeOf(events[0]);
      if lo + WINDOW < t {
        NoneBefore(b, events, limit, key, t, lo, lo + WINDOW);
      } else if lo <= t {
        Bound(b, events, limit, key, t, lo, lo + WINDOW);
      } else {
        var after := match events[0] case Request(k, _) => AfterRequest(b, k, t, limit(k)) case Sweep(_) => Swept(b, t);
        var rest := Admitted(after, events[1..], limit, key);
        var all := Admitted(b, events, limit, key);
        assert all == rest || all == [t] + rest by { assert [] + rest == rest; }
        if all != rest { assert ([t] + rest)[1..] == rest; }
        IntervalBound(after, events[1..], limit, key, t, lo);
      }
    }
  }

  // ---- and the bound is reached ----------------------------------------------------------

  function Burst(key: string, t: int, n: nat): seq<Event> {
    if n == 0 then [] else [Request(key, t)] + Burst(key, t, n - 1)
  }

  lemma OneAdmitted(b: Buckets, more: seq<Event>, limit: string -> nat, key: string, t: int, lo: int, hi: int)
    requires Admits(b, key, t, limit(key)) && lo <= t <= hi
    ensures CountIn(Admitted(b, [Request(key, t)] + more, limit, key), lo, hi) ==
            1 + CountIn(Admitted(AfterRequest(b, key, t, limit(key)), more, limit, key), lo, hi)
  {
    assert ([Request(key, t)] + more)[1..] == more;
    var rest := Admitted(AfterRequest(b, key, t, limit(key)), more, limit, key);
    assert ([t] + rest)[1..] == rest;
  }

  lemma BurstOrder(n: nat, more: seq<Event>, key: string, t: int)
    requires n > 0
    ensures Burst(key, t, n) + more == [Request(key, t)] + (Burst(key, t, n - 1) + more)
  {
  }

  lemma {:induction false} BurstAdmits(
      b: Buckets, n: nat, more: seq<Event>, limit: string -> nat, key: string, t: int, lo: int, hi: int)
    requires key in b && t <= b[key].resetAt && b[key].count + n <= limit(key) && lo <= t <= hi
    ensures var after := b[key := b[key].(count := b[key].count + n)];
      CountIn(Admitted(b, Burst(key, t, n) + more, limit, key), lo, hi) ==
        n + CountIn(Admitted(after, more, limit, key), lo, hi)
    decreases n
  {
    if n == 0 {
      assert [] + more == more && b[key := b[key].(count := b[key].count)] == b;
    } else {
      BurstOrder(n, more, key, t);
      OneAdmitted(b, Burst(key, t, n - 1) + more, limit, key, t, lo, hi);
      var after := AfterRequest(b, key, t, limit(key));
      BurstAdmits(after, n - 1, more, limit, key, t, lo, hi);
      assert after[key := after[key].(count := after[key].count + (n - 1))] ==
        b[key := b[key].(count := b[key].count + n)];
    }
  }

  /** A window opened at 60 001 and filled at once. */
  function SecondBurst(key: string, n: nat): seq<Event>
    requires n >= 1
  {
    [Request(key, WINDOW + 1)] + Burst(key, WINDOW + 1, n - 1)
  }

  lemma SecondBurstAdmits(b: Buckets, limit: string -> nat, key: string)
    requires limit(key) >= 1 && key in b && b[key].resetAt == WINDOW
    ensures CountIn(Admitted(b, SecondBurst(key, limit(key)), limit, key), WINDOW, WINDOW + 1) == limit(key)
  {
    var n := limit(key) - 1;
    var next := AfterRequest(b, key, WINDOW + 1, limit(key));
    OneAdmitted(b, Burst(key, WINDOW + 1, n), limit, key, WINDOW + 1, WINDOW, WINDOW + 1);
    BurstAdmits(next, n, [], limit, key, WINDOW + 1, WINDOW, WINDOW + 1);
    assert Burst(key, WINDOW + 1, n) + [] == Burst(key, WINDOW + 1, n);
  }

  lemma FirstRequestIsEarlier(more: seq<Event>, limit: string -> nat, key: string)
    ensures CountIn(Admitted(map[], [Request(key, 0)] + more, limit, key), WINDOW, WINDOW + 1) ==
            CountIn(Admitted(map[key := Bucket(1, WINDOW)], more, limit, key), WINDOW, WINDOW + 1)
  {
    assert ([Request(key, 0)] + more)[1..] == more;
    var rest := Admitted(map[key := Bucket(1, WINDOW)], more, limit, key);
    assert ([0] + rest)[1..] == rest;
  }

  /** One request at 0, limit - 1 at 60 000 and limit at 60 001: 2 * limit - 1 are admitted within a millisecond. */
  lemma BoundIsReached(limit: string -> nat, key: string)
    requires limit(key) >= 1
    ensures var n := limit(key);
      var events := [Request(key, 0)] + (Burst(key, WINDOW, n - 1) + SecondBurst(key, n));
      CountIn(Admitted(map[], events, limit, key), WINDOW, WINDOW + 1) == 2 * n - 1
  {
    var n := limit(key);
    var b := map[key := Bucket(1, WINDOW)];
    FirstRequestIsEarlier(Burst(key, WINDOW, n - 1) + SecondBurst(key, n), limit, key);
    BurstAdmits(b, n - 1, SecondBurst(key, n), limit, key, WINDOW, WINDOW, WINDOW + 1);
    SecondBurstAdmits(b[key := b[key].(count := n)], limit, key);
  }
}
