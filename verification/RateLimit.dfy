/** api/deps.py, the in-memory sliding-window limiter. Time is the monotonic clock's real value;
    limit and window are fixed for a run, and calls do not overlap. */
module RateLimit {

  datatype HitResult =
    | Allowed
    | Denied(retryAfter: int)
    | IndexError // an empty bucket is already "full" when the limit is not positive

  datatype Attempt = Attempt(client: string, at: real)

  type Log = map<string, seq<real>>

  // ---------------------------------------------------------------------------------------------
  // The limiter.
  // ---------------------------------------------------------------------------------------------

  function Prune(bucket: seq<real>, now: real, window: int): seq<real> {
    if bucket != [] && now - bucket[0] > window as real then Prune(bucket[1..], now, window) else bucket
  }

  function Bucket(log: Log, client: string): seq<real> { if client in log then log[client] else [] }

  /** The outcome for a pruned bucket. */
  function Decide(bucket: seq<real>, now: real, limit: int, window: int): HitResult {
    if |bucket| >= limit then
      if bucket == [] then IndexError else Denied((window as real - (now - bucket[0])).Floor + 1)
    else Allowed
  }

  function Serve(log: Log, h: Attempt, limit: int, window: int): (Log, HitResult) {
    var bucket := Prune(Bucket(log, h.client), h.at, window);
    var result := Decide(bucket, h.at, limit, window);
    (log[h.client := if result.Allowed? then bucket + [h.at] else bucket], result)
  }

  class InMemoryRateLimitBackend {
    var log: Log

    constructor ()
      ensures log == map[]
    {
      log := map[];
    }

    method Hit(client: string, limit: int, window: int, now: real) returns (result: HitResult)
      modifies this
      ensures (log, result) == Serve(old(log), Attempt(client, now), limit, window)
    {
      var bucket := if client in log then log[client] else [];
      ghost var initial := bucket;
      while bucket != [] && now - bucket[0] > window as real
        invariant Prune(bucket, now, window) == Prune(initial, now, window)
        decreases |bucket|
      {
        bucket := bucket[1..];
      }
      log := log[client := bucket];
      if |bucket| >= limit {
        if bucket == [] {
          return IndexError;
        }
        // The difference is not negative after pruning, so int() truncates as Floor does.
        return Denied((window as real - (now - bucket[0])).Floor + 1);
      }
      bucket := bucket + [now];
      log := log[client := bucket];
      assert log == old(log)[client := bucket];
      return Allowed;
    }
  }

  /** A run on a monotone clock from an empty log, and what the limiter holds and answers in it. */
  ghost predicate Monotone(hits: seq<Attempt>) {
    forall i, j :: 0 <= i < j < |hits| ==> hits[i].at <= hits[j].at
  }

  function LogAfter(hits: seq<Attempt>, limit: int, window: int): Log {
    if hits == [] then map[]
    else Serve(LogAfter(hits[..|hits| - 1], limit, window), hits[|hits| - 1], limit, window).0
  }

  function ResultOf(hits: seq<Attempt>, h: Attempt, limit: int, window: int): HitResult {
    Serve(LogAfter(hits, limit, window), h, limit, window).1
  }

  // ---------------------------------------------------------------------------------------------
  // The naive specification: nothing is ever forgotten, and a hit is accepted when fewer than
  // limit accepted hits of the client are at most window old.
  // ---------------------------------------------------------------------------------------------

  function Recent(accepted: seq<real>, now: real, window: int): seq<real> {
    if accepted == [] then []
    else (if now - accepted[0] <= window as real then [accepted[0]] else []) + Recent(accepted[1..], now, window)
  }

  function Accepted(hits: seq<Attempt>, client: string, limit: int, window: int): seq<real> {
    if hits == [] then []
    else
      var earlier := Accepted(hits[..|hits| - 1], client, limit, window);
      var h := hits[|hits| - 1];
      if h.client == client && |Recent(earlier, h.at, window)| < limit then earlier + [h.at] else earlier
  }

  // ---------------------------------------------------------------------------------------------
  // Refinement.
  // ---------------------------------------------------------------------------------------------

  ghost predicate Sorted(a: seq<real>) { forall i, j :: 0 <= i < j < |a| ==> a[i] <= a[j] }

  /** The bucket is what is left of the accepted times once a prefix older than the window at time
      t has been dropped. */
  ghost predicate Tail(bucket: seq<real>, accepted: seq<real>, t: real, window: int) {
    && Sorted(accepted)
    && (forall i :: 0 <= i < |accepted| ==> accepted[i] <= t)
    && |bucket| <= |accepted|
    && bucket == accepted[|accepted| - |bucket|..]
    && forall i :: 0 <= i < |accepted| - |bucket| ==> t - accepted[i] > window as real
  }

  lemma {:induction false} RecentDropsOld(accepted: seq<real>, k: nat, now: real, window: int)
    requires k <= |accepted|
    requires forall i :: 0 <= i < k ==> now - accepted[i] > window as real
    ensures Recent(accepted, now, window) == Recent(accepted[k..], now, window)
  {
    if k > 0 {
      RecentDropsOld(accepted[1..], k - 1, now, window);
      assert accepted[1..][k - 1..] == accepted[k..];
    } else {
      assert accepted[0..] == accepted;
    }
  }

  lemma {:induction false} RecentKeepsYoung(a: seq<real>, now: real, window: int)
    requires forall i :: 0 <= i < |a| ==> now - a[i] <= window as real
    ensures Recent(a, now, window) == a
  {
    if a != [] {
      RecentKeepsYoung(a[1..], now, window);
    }
  }

  lemma {:induction false} PruneIsRecent(bucket: seq<real>, now: real, window: int)
    requires Sorted(bucket)
    ensures Prune(bucket, now, window) == Recent(bucket, now, window)
  {
    if bucket != [] {
      if now - bucket[0] > window as real {
        PruneIsRecent(bucket[1..], now, window);
      } else {
        RecentKeepsYoung(bucket, now, window);
      }
    }
  }

  /** Pruning a tail at a later time gives exactly the accepted times still inside the window. */
  lemma {:induction false} PruneTail(bucket: seq<real>, accepted: seq<real>, t: real, now: real, window: int)
    requires Tail(bucket, accepted, t, window) && t <= now
    ensures Prune(bucket, now, window) == Recent(accepted, now, window)
    ensures Tail(Recent(accepted, now, window), accepted, now, window)
  {
    TailIsSorted(bucket, accepted, t, window);
    PruneIsRecent(bucket, now, window);
    RecentOfTail(bucket, accepted, t, now, window);
    RecentIsTail(accepted, now, window);
  }

  lemma TailIsSorted(bucket: seq<real>, accepted: seq<real>, t: real, window: int)
    requires Tail(bucket, accepted, t, window)
    ensures Sorted(bucket)
  {
  }

  lemma {:induction false} RecentOfTail(bucket: seq<real>, accepted: seq<real>, t: real, now: real, window: int)
    requires Tail(bucket, accepted, t, window) && t <= now
    ensures Recent(accepted, now, window) == Recent(bucket, now, window)
  {
    RecentDropsOld(accepted, |accepted| - |bucket|, now, window);
  }

  lemma {:induction false} RecentIsTail(accepted: seq<real>, now: real, window: int)
    requires Sorted(accepted) && forall i :: 0 <= i < |accepted| ==> accepted[i] <= now
    ensures Tail(Recent(accepted, now, window), accepted, now, window)
  {
    if accepted != [] {
      if now - accepted[0] <= window as real {
        RecentKeepsYoung(accepted, now, window);
      } else {
        RecentIsTail(accepted[1..], now, window);
        var r := Recent(accepted, now, window);
        var k := |accepted| - |r|;
        assert accepted[1..][k - 1..] == accepted[k..];
        forall i | 0 <= i < k
          ensures now - accepted[i] > window as real
        {
          if i > 0 {
            assert accepted[1..][i - 1] == accepted[i];
          }
        }
      }
    }
  }

  lemma {:induction false} BucketIsTail(hits: seq<Attempt>, client: string, t: real, limit: int, window: int)
    requires Monotone(hits) && forall i :: 0 <= i < |hits| ==> hits[i].at <= t
    ensures var a := Accepted(hits, client, limit, window);
      && Sorted(a)
      && (forall i :: 0 <= i < |a| ==> a[i] <= t)
      && Prune(Bucket(LogAfter(hits, limit, window), client), t, window) == Recent(a, t, window)
  {
    var s := BucketTailAt(hits, client, limit, window);
    var a := Accepted(hits, client, limit, window);
    if hits != [] {
      PruneTail(Bucket(LogAfter(hits, limit, window), client), a, s, t, window);
    }
  }

  /** The bucket is a tail as of the last hit served, s. */
  lemma {:induction false} BucketTailAt(hits: seq<Attempt>, client: string, limit: int, window: int) returns (s: real)
    requires Monotone(hits)
    ensures hits == [] || s == hits[|hits| - 1].at
    ensures Tail(Bucket(LogAfter(hits, limit, window), client), Accepted(hits, client, limit, window), s, window)
  {
    s := 0.0;
    if hits != [] {
      var n := |hits| - 1;
      var s0 := BucketTailAt(hits[..n], client, limit, window);
      s := hits[n].at;
      var log := LogAfter(hits[..n], limit, window);
      var a := Accepted(hits[..n], client, limit, window);
      if n == 0 {
        s0 := s;
        assert a == [] && Bucket(log, client) == [];
      }
      ServeKeepsTail(log, a, hits[n], client, s0, limit, window);
    }
  }

  lemma {:induction false} TailGrows(b: seq<real>, a: seq<real>, now: real, window: int)
    requires Tail(b, a, now, window)
    ensures Tail(b + [now], a + [now], now, window)
  {
    assert (a + [now])[|a| - |b|..] == b + [now];
  }

  lemma {:induction false} ServeKeepsTail(log: Log, a: seq<real>, h: Attempt, client: string, s: real,
      limit: int, window: int)
    requires Tail(Bucket(log, client), a, s, window) && s <= h.at
    ensures Tail(Bucket(Serve(log, h, limit, window).0, client),
                 if h.client == client && |Recent(a, h.at, window)| < limit then a + [h.at] else a, h.at, window)
  {
    var b, r := Bucket(log, client), Recent(a, h.at, window);
    PruneTail(b, a, s, h.at, window);
    if h.client == client {
      if |r| < limit {
        TailGrows(r, a, h.at, window);
      }
    } else {
      assert Bucket(Serve(log, h, limit, window).0, client) == b;
    }
  }

  /** Main result: on a monotone clock the pruned deque is exactly the client's accepted times no
      older than the window, the limiter decides every hit as the naive specification does, and the
      index error is left to non-positive limits. */
  lemma {:induction false} RefinesNaive(hits: seq<Attempt>, h: Attempt, limit: int, window: int)
    requires Monotone(hits + [h])
    ensures var recent := Recent(Accepted(hits, h.client, limit, window), h.at, window);
      var result := ResultOf(hits, h, limit, window);
      && Prune(Bucket(LogAfter(hits, limit, window), h.client), h.at, window) == recent
      && (result.Allowed? <==> |recent| < limit)
      && (result.IndexError? <==> limit <= 0 && recent == [])
      && Accepted(hits + [h], h.client, limit, window)
         == Accepted(hits, h.client, limit, window) + if result.Allowed? then [h.at] else []
  {
    PrefixMonotone(hits, h);
    BucketIsTail(hits, h.client, h.at, limit, window);
    assert (hits + [h])[..|hits|] == hits;
  }

  lemma {:induction false} PrefixMonotone(hits: seq<Attempt>, h: Attempt)
    requires Monotone(hits + [h])
    ensures Monotone(hits) && forall i :: 0 <= i < |hits| ==> hits[i].at <= h.at
  {
    MonotonePrefix(hits + [h], |hits|);
    assert (hits + [h])[..|hits|] == hits;
    forall i | 0 <= i < |hits|
      ensures hits[i].at <= h.at
    {
      assert (hits + [h])[i] == hits[i] && (hits + [h])[|hits|] == h;
    }
  }

  // ---------------------------------------------------------------------------------------------
  // Bounds over whole runs.
  // ---------------------------------------------------------------------------------------------

  /** Any limit + 1 of the times span strictly more than the window. */
  ghost predicate Spread(a: seq<real>, limit: int, window: int)
    requires limit >= 1
  {
    forall i, j :: 0 <= i && i + limit <= j < |a| ==> a[j] - a[i] > window as real
  }

  lemma {:induction false} SpreadGrows(a: seq<real>, t: real, limit: int, window: int)
    requires limit >= 1 && Sorted(a) && Spread(a, limit, window) && forall i :: 0 <= i < |a| ==> a[i] <= t
    requires |Recent(a, t, window)| < limit
    ensures Spread(a + [t], limit, window)
  {
    RecentIsTail(a, t, window);
    forall i, j | 0 <= i && i + limit <= j < |a + [t]|
      ensures (a + [t])[j] - (a + [t])[i] > window as real
    {
      if j == |a| {
        assert i < |a| - |Recent(a, t, window)|;
      }
    }
  }

  /** Any limit + 1 accepted hits of one client span strictly more than the window. */
  lemma {:induction false} AcceptedHitsSpread(hits: seq<Attempt>, client: string, limit: int, window: int)
    requires Monotone(hits) && limit >= 1
    ensures Spread(Accepted(hits, client, limit, window), limit, window)
  {
    if hits != [] {
      var n := |hits| - 1;
      var t := hits[n].at;
      AcceptedHitsSpread(hits[..n], client, limit, window);
      BucketIsTail(hits[..n], client, t, limit, window);
      var a := Accepted(hits[..n], client, limit, window);
      if hits[n].client == client && |Recent(a, t, window)| < limit {
        SpreadGrows(a, t, limit, window);
      }
    }
  }

  /** No client sees its hits judged by another's: only its own hits matter. */
  function Own(hits: seq<Attempt>, client: string): seq<Attempt> {
    if hits == [] then []
    else Own(hits[..|hits| - 1], client) + if hits[|hits| - 1].client == client then [hits[|hits| - 1]] else []
  }

  lemma ServedBucket(log: Log, log': Log, h: Attempt, client: string, limit: int, window: int)
    requires Bucket(log, client) == Bucket(log', client)
    ensures Bucket(Serve(log, h, limit, window).0, client)
         == Bucket(if h.client == client then Serve(log', h, limit, window).0 else log', client)
  {
  }

  lemma {:induction false} ClientsAreIsolated(hits: seq<Attempt>, h: Attempt, limit: int, window: int)
    ensures Bucket(LogAfter(hits, limit, window), h.client)
      == Bucket(LogAfter(Own(hits, h.client), limit, window), h.client)
    ensures ResultOf(hits, h, limit, window) == ResultOf(Own(hits, h.client), h, limit, window)
  {
    if hits != [] {
      var n := |hits| - 1;
      ClientsAreIsolated(hits[..n], h, limit, window);
      var own := Own(hits[..n], h.client);
      ServedBucket(LogAfter(hits[..n], limit, window), LogAfter(own, limit, window), hits[n], h.client, limit, window);
      if hits[n].client == h.client {
        assert (own + [hits[n]])[..|own|] == own && Own(hits, h.client) == own + [hits[n]];
      } else {
        assert Own(hits, h.client) == own;
      }
    }
  }

  // ---------------------------------------------------------------------------------------------
  // Retry-After (section 10.2.3 of RFC 9110).
  // ---------------------------------------------------------------------------------------------

  lemma {:induction false} AcceptedUnchanged(hits: seq<Attempt>, more: seq<Attempt>, client: string,
      limit: int, window: int)
    requires forall i :: 0 <= i < |more| && more[i].client == client ==>
               |Recent(Accepted(hits + more[..i], client, limit, window), more[i].at, window)| >= limit
    ensures Accepted(hits + more, client, limit, window) == Accepted(hits, client, limit, window)
    decreases |more|
  {
    if more == [] {
      assert hits + more == hits;
    } else {
      var n := |more| - 1;
      var init := more[..n];
      forall i | 0 <= i < n && init[i].client == client
        ensures |Recent(Accepted(hits + init[..i], client, limit, window), init[i].at, window)| >= limit
      {
        assert init[..i] == more[..i];
      }
      AcceptedUnchanged(hits, init, client, limit, window);
      assert (hits + more)[..|hits + more| - 1] == hits + init;
      assert (hits + more)[|hits + more| - 1] == more[n];
    }
  }

  /** While a denial's window is full, nothing is accepted until its oldest entry expires. */
  lemma {:induction false} FullUntilOldestExpires(a: seq<real>, now: real, later: real, limit: int, window: int)
    requires limit >= 1 && Sorted(a) && (forall i :: 0 <= i < |a| ==> a[i] <= now) && now <= later
    requires Spread(a, limit, window) && |Recent(a, now, window)| >= limit
    ensures |Recent(a, now, window)| == limit
    ensures |Recent(a, later, window)| < limit <==> later - Recent(a, now, window)[0] > window as real
  {
    RecentIsTail(a, now, window);
    RecentAreRecent(a, now, window);
    var r := Recent(a, now, window);
    var k := |a| - |r|;
    assert r[0] == a[k] && r[0] in r;
    assert a[|a| - 1] - a[k] <= window as real;
    assert |r| <= limit;
    if later - r[0] > window as real {
      RecentDropsOld(a, k + 1, later, window);
      RecentNoLonger(a[k + 1..], later, window);
    } else {
      StillRecent(r, r[0], later, window);
      RecentDropsOld(a, k, later, window);
    }
  }

  lemma {:induction false} StillRecent(r: seq<real>, first: real, later: real, window: int)
    requires Sorted(r) && r != [] && first == r[0] && later - first <= window as real
    ensures Recent(r, later, window) == r
  {
    RecentKeepsYoung(r, later, window);
  }

  lemma {:induction false} RecentAreRecent(a: seq<real>, now: real, window: int)
    ensures forall t :: t in Recent(a, now, window) ==> now - t <= window as real
  {
    if a != [] {
      RecentAreRecent(a[1..], now, window);
    }
  }

  lemma {:induction false} RecentNoLonger(a: seq<real>, now: real, window: int)
    ensures |Recent(a, now, window)| <= |a|
  {
    if a != [] {
      RecentNoLonger(a[1..], now, window);
    }
  }

  lemma MonotonePrefix(hits: seq<Attempt>, k: nat)
    requires Monotone(hits) && k <= |hits|
    ensures Monotone(hits[..k])
  {
  }

  lemma {:induction false} DeniedKeepsAccepted(hits: seq<Attempt>, more: seq<Attempt>, client: string,
      limit: int, window: int)
    requires Monotone(hits + more)
    requires forall i :: 0 <= i < |more| && more[i].client == client ==>
               !ResultOf(hits + more[..i], more[i], limit, window).Allowed?
    ensures Accepted(hits + more, client, limit, window) == Accepted(hits, client, limit, window)
  {
    forall i | 0 <= i < |more| && more[i].client == client
      ensures |Recent(Accepted(hits + more[..i], client, limit, window), more[i].at, window)| >= limit
    {
      assert hits + more[..i] + [more[i]] == (hits + more)[..|hits| + i + 1];
      MonotonePrefix(hits + more, |hits| + i + 1);
      RefinesNaive(hits + more[..i], more[i], limit, window);
    }
    AcceptedUnchanged(hits, more, client, limit, window);
  }

  /** Main result: after a denial, and any further hits none of which is accepted for the client,
      its next hit is allowed exactly when more than the true remaining wait has passed since the
      denial. The returned seconds are at least 1, exceed that wait, and by at most one second. */
  lemma {:induction false} RetryAfterIsSufficientAndTight(hits: seq<Attempt>, h: Attempt, more: seq<Attempt>,
      next: Attempt, limit: int, window: int)
    requires limit >= 1 && Monotone(hits + [h] + more + [next]) && next.client == h.client
    requires ResultOf(hits, h, limit, window).Denied?
    requires forall i :: 0 <= i < |more| && more[i].client == h.client ==>
               !ResultOf(hits + [h] + more[..i], more[i], limit, window).Allowed?
    ensures var retry := ResultOf(hits, h, limit, window).retryAfter;
      var recent := Recent(Accepted(hits, h.client, limit, window), h.at, window);
      |recent| == limit &&
      var wait := window as real - (h.at - recent[0]);
      && retry >= 1 && wait < retry as real <= wait + 1.0
      && (ResultOf(hits + [h] + more, next, limit, window).Allowed? <==> next.at - h.at > wait)
      && (next.at >= h.at + retry as real ==> ResultOf(hits + [h] + more, next, limit, window).Allowed?)
  {
    RunParts(hits, h, more, next);
    var a := Accepted(hits, h.client, limit, window);
    RefinesNaive(hits, h, limit, window);
    DeniedKeepsAccepted(hits + [h], more, h.client, limit, window);
    RefinesNaive(hits + [h] + more, next, limit, window);
    AcceptedHitsSpread(hits, h.client, limit, window);
    BucketIsTail(hits, h.client, h.at, limit, window);
    FullUntilOldestExpires(a, h.at, next.at, limit, window);
    RecentAreRecent(a, h.at, window);
    var recent := Recent(a, h.at, window);
    assert recent[0] in recent;
  }

  lemma {:induction false} RunParts(hits: seq<Attempt>, h: Attempt, more: seq<Attempt>, next: Attempt)
    requires Monotone(hits + [h] + more + [next])
    ensures Monotone(hits + [h] + more) && Monotone(hits + [h]) && Monotone(hits)
    ensures h.at <= next.at && forall i :: 0 <= i < |hits| ==> hits[i].at <= h.at
  {
    var all := hits + [h] + more + [next];
    PrefixMonotone(hits + [h] + more, next);
    MonotonePrefix(all, |hits| + 1);
    assert all[..|hits| + 1] == hits + [h];
    PrefixMonotone(hits, h);
    assert (hits + [h] + more)[|hits|] == h;
  }
}
