/** The fixed-window request counter used twice in the source: the client-side
    `allowAction` of the offline game and the server's `rateLimit` middleware.
    Both keep one bucket `{reset, count}` per key, start a fresh window when the
    clock has passed `reset`, count the request, and let it through while the
    count does not exceed the maximum. */
module RateLimit {
  import opened Wrappers

  datatype Bucket = Bucket(reset: int, count: int)

  /** The bucket after one request at time `now`: created if missing, restarted
      when `now` is past `reset`, and counted. */
  function AfterHit(b: Option<Bucket>, now: int, windowMs: int): (r: Bucket)
  {
    var existing := if b.None? then Bucket(now + windowMs, 0) else b.value;
    var current := if now > existing.reset then Bucket(now + windowMs, 0) else existing;
    current.(count := current.count + 1)
  }

  /** A request counts against its window, and a window that has run out (or a
      key seen for the first time) starts over from zero. */
  lemma HitCounts(b: Option<Bucket>, now: int, windowMs: int)
    ensures b.Some? && now <= b.value.reset ==>
              AfterHit(b, now, windowMs) == Bucket(b.value.reset, b.value.count + 1)
    ensures b.None? || now > b.value.reset ==>
              AfterHit(b, now, windowMs) == Bucket(now + windowMs, 1)
  {
  }

  /** How many of the requests at times `ts` (in order, one key) are let through. */
  function Allowances(b: Option<Bucket>, ts: seq<int>, windowMs: int, max: int): nat
    decreases |ts|
  {
    if ts == [] then 0
    else
      var next := AfterHit(b, ts[0], windowMs);
      (if next.count <= max then 1 else 0) + Allowances(Some(next), ts[1..], windowMs, max)
  }

  /** `min(n, room)`, and 0 when there is no room. */
  function Headroom(n: nat, room: int): nat
  {
    if room <= 0 then 0 else if room < n then room else n
  }

  /** Inside a window that is already open, each request uses up one of the
      `max - count` remaining allowances. */
  lemma {:induction false} WithinWindow(b: Bucket, ts: seq<int>, windowMs: int, max: int)
    requires forall i :: 0 <= i < |ts| ==> ts[i] <= b.reset
    ensures Allowances(Some(b), ts, windowMs, max) == Headroom(|ts|, max - b.count)
    decreases |ts|
  {
    if ts != [] {
      var next := AfterHit(Some(b), ts[0], windowMs);
      assert next == Bucket(b.reset, b.count + 1);
      WithinWindow(next, ts[1..], windowMs, max);
    }
  }

  /** A window opened by a request lets exactly `min(requests, max)` requests
      through before it expires: never more than `max` per key and window. */
  lemma OneWindow(b: Option<Bucket>, ts: seq<int>, windowMs: int, max: int)
    requires |ts| >= 1
    requires b.None? || ts[0] > b.value.reset
    requires forall i :: 1 <= i < |ts| ==> ts[i] <= ts[0] + windowMs
    ensures Allowances(b, ts, windowMs, max) == Headroom(|ts|, max)
  {
    var first := AfterHit(b, ts[0], windowMs);
    assert first == Bucket(ts[0] + windowMs, 1);
    var rest := ts[1..];
    assert forall i :: 0 <= i < |rest| ==> rest[i] <= first.reset by {
      forall i | 0 <= i < |rest| ensures rest[i] <= first.reset {
        assert rest[i] == ts[i + 1];
      }
    }
    WithinWindow(first, rest, windowMs, max);
  }

  /** The table of buckets, one per key, that both limiters keep in memory. */
  class RateLimiter {
    var buckets: map<string, Bucket>

    constructor ()
      ensures buckets == map[]
    {
      buckets := map[];
    }

    /** Count one request for `key` and say whether it is let through:
        it is rejected exactly when its window's count now exceeds `max`. */
    method Hit(key: string, now: int, windowMs: int, max: int) returns (allowed: bool)
      modifies this
      ensures buckets == old(buckets)[key := AfterHit(if key in old(buckets) then Some(old(buckets)[key]) else None, now, windowMs)]
      ensures allowed <==> buckets[key].count <= max
    {
      var b: Bucket;
      if key !in buckets {
        b := Bucket(now + windowMs, 0);
        buckets := buckets[key := b];
      }
      b := buckets[key];
      if now > b.reset {
        b := Bucket(now + windowMs, 0);
      }
      b := b.(count := b.count + 1);
      buckets := buckets[key := b];
      allowed := b.count <= max;
    }
  }
}
