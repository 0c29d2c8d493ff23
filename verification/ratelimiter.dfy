/** The fixed-window request limiter in front of every `/api` route
    (server/middleware/rateLimiter.ts). Each caller key has a counter and the
    instant its window ends; a request after that instant opens a new window.
    The limiter's table is a map from key to entry; the clock and the
    once-a-minute timer that sweeps the table are parameters: a sweep may
    happen at any instant, as `SweepIsInvisible` shows it changes nothing a
    caller sees. */
module RateLimit {
  import opened Wrappers

  datatype Config = Config(windowMs: nat, maxRequests: nat)

  /** One minute, one hundred requests. */
  const DefaultConfig: Config := Config(60000, 100)
  /** The key of every request without a client address. */
  const UnknownKey: string := "unknown"

  /** A key's request count in its current window and the instant, in
      milliseconds, the window ends. */
  datatype Entry = Entry(count: nat, resetTime: nat)

  type Table = map<string, Entry>

  /** Pass the request on, or answer 429 with the whole seconds left in the
      window. */
  datatype Verdict = Next | TooMany(retryAfter: nat)

  /** The three rate-limit headers (the reset instant is sent as a date) and
      the verdict. Headers are set on refused requests too. */
  datatype Outcome = Outcome(limit: nat, remaining: nat, resetTime: nat, verdict: Verdict)

  /** The caller's key: its address, or "unknown" when there is none or it is
      empty. */
  function KeyOf(ip: Option<string>): (k: string)
    ensures k != ""
    ensures ip.Some? && ip.value != "" ==> k == ip.value
    ensures !(ip.Some? && ip.value != "") ==> k == UnknownKey
  {
    if ip.Some? && ip.value != "" then ip.value else UnknownKey
  }

  /** The key has no live window at `now`: it was never seen, or its window
      ended strictly before `now` (a request at the very reset instant still
      counts in the old window). */
  predicate OpensWindow(t: Table, key: string, now: nat) {
    key !in t || t[key].resetTime < now
  }

  /** `Math.ceil(ms / 1000)` for a non-negative number of milliseconds. */
  function CeilSeconds(ms: nat): (secs: nat)
    ensures secs * 1000 >= ms
    ensures secs == 0 || (secs - 1) * 1000 < ms
  {
    (ms + 999) / 1000
  }

  /** One request through the middleware: count it in the key's window (a new
      window when none is live), then refuse it when the count exceeds the
      maximum. A refused request is still counted. */
  function Hit(cfg: Config, t: Table, key: string, now: nat): (r: (Table, Outcome))
    ensures r.0.Keys == t.Keys + {key}
    ensures forall k :: k in t && k != key ==> r.0[k] == t[k]
    ensures OpensWindow(t, key, now) ==> r.0[key] == Entry(1, now + cfg.windowMs)
    ensures !OpensWindow(t, key, now) ==> r.0[key] == Entry(t[key].count + 1, t[key].resetTime)
    ensures now <= r.0[key].resetTime
    ensures Bounded(cfg, t, now) ==> Bounded(cfg, r.0, now)
    ensures r.1.limit == cfg.maxRequests && r.1.resetTime == r.0[key].resetTime
    ensures r.1.remaining == if r.0[key].count <= cfg.maxRequests then cfg.maxRequests - r.0[key].count else 0
    ensures r.1.verdict.TooMany? <==> r.0[key].count > cfg.maxRequests
    ensures r.1.verdict.TooMany? ==>
              && r.1.verdict.retryAfter == CeilSeconds(r.0[key].resetTime - now)
              && r.1.verdict.retryAfter * 1000 >= r.0[key].resetTime - now
              && (Bounded(cfg, t, now) ==> r.1.verdict.retryAfter <= CeilSeconds(cfg.windowMs))
  {
    var e := if OpensWindow(t, key, now) then Entry(1, now + cfg.windowMs)
             else Entry(t[key].count + 1, t[key].resetTime);
    var remaining := if cfg.maxRequests - e.count < 0 then 0 else cfg.maxRequests - e.count;
    var verdict := if e.count > cfg.maxRequests then TooMany(CeilSeconds(e.resetTime - now)) else Next;
    (t[key := e], Outcome(cfg.maxRequests, remaining, e.resetTime, verdict))
  }

  /** No window reaches further than one window length past `now`; every
      table the limiter builds, starting empty, has this property at every
      later instant. */
  predicate Bounded(cfg: Config, t: Table, now: nat) {
    forall k :: k in t ==> t[k].resetTime <= now + cfg.windowMs
  }

  /** The sweep timer's pass at `now`: drops exactly the entries whose window
      ended strictly before `now` and keeps the rest unchanged. */
  function Sweep(t: Table, now: nat): (r: Table)
    ensures forall k :: k in r <==> k in t && t[k].resetTime >= now
    ensures forall k :: k in r ==> r[k] == t[k]
  {
    map k | k in t && t[k].resetTime >= now :: t[k]
  }

  /** Sweeping is invisible to callers: a sweep at any instant up to a request
      changes neither that request's outcome nor, up to the same sweep, the
      table it leaves. */
  lemma SweepIsInvisible(cfg: Config, t: Table, key: string, swept: nat, now: nat)
    requires swept <= now
    ensures Hit(cfg, Sweep(t, swept), key, now).1 == Hit(cfg, t, key, now).1
    ensures Hit(cfg, Sweep(t, swept), key, now).0 == Sweep(Hit(cfg, t, key, now).0, swept)
  {
    var a := Hit(cfg, Sweep(t, swept), key, now).0;
    var b := Sweep(Hit(cfg, t, key, now).0, swept);
    assert OpensWindow(Sweep(t, swept), key, now) == OpensWindow(t, key, now);
    assert a.Keys == b.Keys;
    assert forall k :: k in a ==> a[k] == b[k];
  }

  /** Two keys never interfere: a request under one key leaves the outcome of
      a request under any other key as it was. */
  lemma KeysAreIndependent(cfg: Config, t: Table, key: string, other: string, now: nat, later: nat)
    requires key != other
    ensures Hit(cfg, Hit(cfg, t, key, now).0, other, later).1 == Hit(cfg, t, other, later).1
  {
    assert OpensWindow(Hit(cfg, t, key, now).0, other, later) == OpensWindow(t, other, later);
  }

  /** A run of requests under one key, in arrival order: the verdicts and the
      final table. */
  function HitAll(cfg: Config, t: Table, key: string, times: seq<nat>): (r: (seq<Verdict>, Table))
    ensures |r.0| == |times|
    decreases |times|
  {
    if |times| == 0 then ([], t)
    else
      var (t1, out) := Hit(cfg, t, key, times[0]);
      var (rest, t2) := HitAll(cfg, t1, key, times[1..]);
      ([out.verdict] + rest, t2)
  }

  /** Inside a live window holding `count` requests, the i-th further request
      passes exactly when it is at most the maximum. */
  lemma {:induction false} WithinLiveWindow(cfg: Config, t: Table, key: string, times: seq<nat>, count: nat, reset: nat)
    requires key in t && t[key] == Entry(count, reset)
    requires forall i :: 0 <= i < |times| ==> times[i] <= reset
    ensures forall i :: 0 <= i < |times| ==>
              (HitAll(cfg, t, key, times).0[i].Next? <==> count + i + 1 <= cfg.maxRequests)
    decreases |times|
  {
    if |times| > 0 {
      var t1 := Hit(cfg, t, key, times[0]).0;
      assert t1[key] == Entry(count + 1, reset);
      WithinLiveWindow(cfg, t1, key, times[1..], count + 1, reset);
      forall i | 0 <= i < |times|
        ensures HitAll(cfg, t, key, times).0[i].Next? <==> count + i + 1 <= cfg.maxRequests
      {
        if i > 0 {
          assert HitAll(cfg, t, key, times).0[i] == HitAll(cfg, t1, key, times[1..]).0[i - 1];
        }
      }
    }
  }

  /** The limiter's promise: starting from a key with no live window, of the
      requests arriving within one window length of the first, exactly the
      first `maxRequests` pass and every later one is refused. */
  lemma {:induction false} WindowAdmitsExactlyMax(cfg: Config, t: Table, key: string, times: seq<nat>)
    requires |times| > 0 && OpensWindow(t, key, times[0])
    requires forall i :: 0 <= i < |times| ==> times[i] <= times[0] + cfg.windowMs
    ensures forall i :: 0 <= i < |times| ==> (HitAll(cfg, t, key, times).0[i].Next? <==> i < cfg.maxRequests)
  {
    var t1 := Hit(cfg, t, key, times[0]).0;
    assert t1[key] == Entry(1, times[0] + cfg.windowMs);
    WithinLiveWindow(cfg, t1, key, times[1..], 1, times[0] + cfg.windowMs);
    forall i | 0 <= i < |times|
      ensures HitAll(cfg, t, key, times).0[i].Next? <==> i < cfg.maxRequests
    {
      if i > 0 {
        assert HitAll(cfg, t, key, times).0[i] == HitAll(cfg, t1, key, times[1..]).0[i - 1];
      }
    }
  }

  /** The limiter as the server configures it: of the requests from one
      address in the minute after its first, the first hundred pass and the
      rest are answered 429. */
  lemma DefaultAdmitsHundredPerMinute(t: Table, ip: string, times: seq<nat>)
    requires ip != "" && |times| > 0 && OpensWindow(t, ip, times[0])
    requires forall i :: 0 <= i < |times| ==> times[i] <= times[0] + 60000
    ensures forall i :: 0 <= i < |times| ==>
              (HitAll(DefaultConfig, t, KeyOf(Some(ip)), times).0[i].Next? <==> i < 100)
  {
    WindowAdmitsExactlyMax(DefaultConfig, t, ip, times);
  }
}
