/**
  The client-side rate limiter (lib/rate-limiter.ts): a map from an identifier to the number
  of attempts made in the current window and the time that window ends. Time is passed in
  as `now` (milliseconds), standing for `Date.now()`.
*/
module RateLimit {
  import opened Common

  /** `RateLimitEntry`. */
  datatype Entry = Entry(count: int, resetTime: int)

  /**
    One `isAllowed` decision on the identifier's current entry (`None` when it has none):
    whether the attempt is allowed and the entry stored afterwards. A missing or expired
    entry starts a fresh window holding one attempt; within a window an attempt is allowed
    while fewer than `maxAttempts` were counted, and counted when allowed.
  */
  function Admit(e: Option<Entry>, now: int, maxAttempts: int, windowMs: int): (d: (bool, Entry))
    ensures d.0 <==> e.None? || now > e.value.resetTime || e.value.count < maxAttempts
    ensures (e.None? || now > e.value.resetTime) ==> d.1 == Entry(1, now + windowMs)
    ensures e.Some? && now <= e.value.resetTime ==>
      d.1.resetTime == e.value.resetTime
      && d.1.count == e.value.count + (if d.0 then 1 else 0)
  {
    if e.None? || now > e.value.resetTime then (true, Entry(1, now + windowMs))
    else if e.value.count >= maxAttempts then (false, e.value)
    else (true, Entry(e.value.count + 1, e.value.resetTime))
  }

  /** The number of attempts allowed when calls arrive at `times`, starting from entry `e`. */
  function AllowedCount(e: Option<Entry>, times: seq<int>, maxAttempts: int, windowMs: int): nat
    decreases |times|
  {
    if times == [] then 0
    else
      var d := Admit(e, times[0], maxAttempts, windowMs);
      (if d.0 then 1 else 0) + AllowedCount(Some(d.1), times[1..], maxAttempts, windowMs)
  }

  /**
    Within one window (every call at or before its reset time), an entry that has already
    counted `c` attempts lets exactly `maxAttempts - c` more through (none if it is already
    at the limit), and every call after those is refused.
  */
  lemma {:induction false} WindowAllows(c: int, resetTime: int, times: seq<int>, maxAttempts: int, windowMs: int)
    requires forall k :: 0 <= k < |times| ==> times[k] <= resetTime
    decreases |times|
    ensures AllowedCount(Some(Entry(c, resetTime)), times, maxAttempts, windowMs)
            == Min(|times|, Max(0, maxAttempts - c))
  {
    if times != [] {
      var d := Admit(Some(Entry(c, resetTime)), times[0], maxAttempts, windowMs);
      assert d.1 == Entry(if c < maxAttempts then c + 1 else c, resetTime);
      WindowAllows(d.1.count, resetTime, times[1..], maxAttempts, windowMs);
    }
  }

  /**
    For an identifier with no entry, calls that all fall within `windowMs` of the first are
    allowed at most `maxAttempts` times; at least one is always allowed, even with a limit
    below one.
  */
  lemma FreshWindowAllows(first: int, rest: seq<int>, maxAttempts: int, windowMs: int)
    requires forall k :: 0 <= k < |rest| ==> rest[k] <= first + windowMs
    ensures AllowedCount(None, [first] + rest, maxAttempts, windowMs)
            == Min(1 + |rest|, Max(1, maxAttempts))
  {
    assert ([first] + rest)[1..] == rest;
    WindowAllows(1, first + windowMs, rest, maxAttempts, windowMs);
  }

  /** `getRemainingTime`: whole seconds until the window ends, rounded up, never negative. */
  function RemainingSeconds(e: Option<Entry>, now: int): (r: int)
    ensures r >= 0
    ensures e.None? ==> r == 0
    ensures e.Some? ==> (r == 0 <==> e.value.resetTime - now <= 0)
    ensures e.Some? && r > 0 ==> (r - 1) * 1000 < e.value.resetTime - now <= r * 1000
  {
    if e.None? then 0
    else
      var remaining := e.value.resetTime - now;
      if remaining <= 0 then 0 else (remaining + 999) / 1000
  }

  /** `RateLimiter`: the attempt counts of every identifier seen. */
  class RateLimiter {
    var limits: map<string, Entry>
    const maxAttempts: int
    const windowMs: int

    /** Every stored entry has counted at least one and at most `max(1, maxAttempts)` attempts. */
    ghost predicate Valid()
      reads this
    {
      forall id :: id in limits ==> 1 <= limits[id].count <= Max(1, maxAttempts)
    }

    function Lookup(identifier: string): (e: Option<Entry>)
      reads this
      ensures e.Some? <==> identifier in limits
      ensures e.Some? ==> e.value == limits[identifier]
    {
      if identifier in limits then Some(limits[identifier]) else None
    }

    constructor (maxAttempts: int, windowMs: int)
      ensures this.maxAttempts == maxAttempts && this.windowMs == windowMs
      ensures limits == map[]
      ensures Valid()
    {
      this.maxAttempts := maxAttempts;
      this.windowMs := windowMs;
      limits := map[];
    }

    /** `isAllowed`: decides the attempt and records it under `identifier` only. */
    method IsAllowed(identifier: string, now: int) returns (allowed: bool)
      requires Valid()
      modifies this
      ensures Valid()
      ensures allowed == Admit(old(Lookup(identifier)), now, maxAttempts, windowMs).0
      ensures limits == old(limits)[identifier := Admit(old(Lookup(identifier)), now, maxAttempts, windowMs).1]
    {
      var entry := Lookup(identifier);
      if entry.None? || now > entry.value.resetTime {
        limits := limits[identifier := Entry(1, now + windowMs)];
        return true;
      }
      if entry.value.count >= maxAttempts {
        limits := limits[identifier := entry.value];
        return false;
      }
      limits := limits[identifier := entry.value.(count := entry.value.count + 1)];
      return true;
    }

    /** `getRemainingTime`: changes nothing. */
    method GetRemainingTime(identifier: string, now: int) returns (seconds: int)
      ensures seconds == RemainingSeconds(Lookup(identifier), now)
    {
      var entry := Lookup(identifier);
      if entry.None? {
        return 0;
      }
      var remaining := entry.value.resetTime - now;
      seconds := if remaining <= 0 then 0 else (remaining + 999) / 1000;
    }

    /** `reset`: forgets the identifier, so its next attempt opens a fresh window. */
    method Reset(identifier: string)
      requires Valid()
      modifies this
      ensures Valid()
      ensures limits == old(limits) - {identifier}
      ensures Lookup(identifier).None?
    {
      limits := limits - {identifier};
    }
  }

  /** The three shared limiters: logins, searches and API calls. */
  const LoginMaxAttempts := 5
  const LoginWindowMs := 15 * 60 * 1000
  const SearchMaxAttempts := 30
  const ApiMaxAttempts := 100
  const MinuteMs := 60 * 1000

  method NewLoginRateLimiter() returns (r: RateLimiter)
    ensures fresh(r) && r.Valid() && r.limits == map[]
    ensures r.maxAttempts == 5 && r.windowMs == 900000
  {
    r := new RateLimiter(LoginMaxAttempts, LoginWindowMs);
  }

  method NewSearchRateLimiter() returns (r: RateLimiter)
    ensures fresh(r) && r.Valid() && r.limits == map[]
    ensures r.maxAttempts == 30 && r.windowMs == 60000
  {
    r := new RateLimiter(SearchMaxAttempts, MinuteMs);
  }

  method NewApiRateLimiter() returns (r: RateLimiter)
    ensures fresh(r) && r.Valid() && r.limits == map[]
    ensures r.maxAttempts == 100 && r.windowMs == 60000
  {
    r := new RateLimiter(ApiMaxAttempts, MinuteMs);
  }

  /** Five login attempts within fifteen minutes pass; the sixth is refused. */
  method LoginScenario(identifier: string, t0: int) returns (results: seq<bool>)
    ensures results == [true, true, true, true, true, false]
  {
    var limiter := NewLoginRateLimiter();
    results := [];
    var k := 0;
    while k < 6
      invariant 0 <= k <= 6
      invariant limiter.Valid() && limiter.maxAttempts == 5 && limiter.windowMs == 900000
      invariant |results| == k
      invariant k == 0 ==> identifier !in limiter.limits
      invariant k > 0 ==> limiter.Lookup(identifier) == Some(Entry(Min(k, 5), t0 + 900000))
      invariant results == [true, true, true, true, true, false][..k]
    {
      var ok := limiter.IsAllowed(identifier, t0 + k);
      results := results + [ok];
      k := k + 1;
    }
  }
}
