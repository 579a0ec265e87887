/** The in-memory sliding-window rate limiter of the publish route: a map
    from client key to the timestamps (in milliseconds) of its recent
    accepted requests. A check prunes the timestamps that are a full window
    old, refuses when ten or more remain, and otherwise records the current
    time. The clock reading `Date.now()` is the parameter `now`. */
module PublishRateLimit {
  import opened Js

  const RateLimit: nat := 10
  const RateWindow: int := 60 * 60 * 1000

  /** `requestLog.get(ip) || []`. */
  function Stored(entries: map<string, seq<int>>, ip: string): seq<int> {
    if ip in entries then entries[ip] else []
  }

  /** `requests.filter(time => now - time < RATE_WINDOW)`. */
  function Recent(requests: seq<int>, now: int): seq<int> {
    Filter(requests, (t: int) => now - t < RateWindow)
  }

  datatype Decision = Decision(allowed: bool, entries: map<string, seq<int>>)

  /** `checkRateLimit` on a given log: the answer and the log afterwards. */
  function Step(entries: map<string, seq<int>>, ip: string, now: int): (d: Decision)
    ensures d.allowed <==> |Recent(Stored(entries, ip), now)| < RateLimit
    ensures !d.allowed ==> d.entries == entries
    ensures d.allowed ==> d.entries == entries[ip := Recent(Stored(entries, ip), now) + [now]]
  {
    var recent := Recent(Stored(entries, ip), now);
    if |recent| >= RateLimit then Decision(false, entries)
    else Decision(true, entries[ip := recent + [now]])
  }

  /** No client has more than `RATE_LIMIT` stored timestamps. */
  ghost predicate Bounded(entries: map<string, seq<int>>) {
    forall ip :: ip in entries ==> |entries[ip]| <= RateLimit
  }

  /** A check keeps every stored list within the limit, touches no other
      client's list, and records `now` for the client when it accepts. */
  lemma StepKeepsBound(entries: map<string, seq<int>>, ip: string, now: int)
    requires Bounded(entries)
    ensures Bounded(Step(entries, ip, now).entries)
    ensures forall k :: k != ip ==> Stored(Step(entries, ip, now).entries, k) == Stored(entries, k)
    ensures Step(entries, ip, now).allowed ==>
      var s := Stored(Step(entries, ip, now).entries, ip);
      s != [] && s[|s| - 1] == now
  {
  }

  class RequestLog {
    var entries: map<string, seq<int>>

    ghost predicate Valid()
      reads this
    {
      Bounded(entries)
    }

    constructor ()
      ensures Valid() && entries == map[]
    {
      entries := map[];
    }

    /** `checkRateLimit(ip)`: prunes, then either refuses and changes
        nothing, or appends `now` to the pruned list of `ip`. */
    method CheckRateLimit(ip: string, now: int) returns (allowed: bool)
      requires Valid()
      modifies this
      ensures Valid()
      ensures allowed == Step(old(entries), ip, now).allowed
      ensures entries == Step(old(entries), ip, now).entries
      ensures !allowed ==> entries == old(entries)
    {
      var requests := if ip in entries then entries[ip] else [];
      var recentRequests := Recent(requests, now);
      if |recentRequests| >= RateLimit {
        return false;
      }
      recentRequests := recentRequests + [now];
      entries := entries[ip := recentRequests];
      return true;
    }
  }

  // ---------------------------------------------------------------------
  // Sequences of checks

  /** The log after checks from `ip` at each of `times`, in order. */
  function Replay(entries: map<string, seq<int>>, ip: string, times: seq<int>): map<string, seq<int>>
    decreases |times|
  {
    if times == [] then entries
    else Replay(Step(entries, ip, times[0]).entries, ip, times[1..])
  }

  /** Every check in the sequence was accepted. */
  predicate AllAccepted(entries: map<string, seq<int>>, ip: string, times: seq<int>)
    decreases |times|
  {
    times == [] ||
    (Step(entries, ip, times[0]).allowed && AllAccepted(Step(entries, ip, times[0]).entries, ip, times[1..]))
  }

  /** The number of timestamps not before `lo`. */
  function CountFrom(s: seq<int>, lo: int): nat {
    if s == [] then 0 else (if s[0] >= lo then 1 else 0) + CountFrom(s[1..], lo)
  }

  lemma {:induction false} CountFromAppend(a: seq<int>, b: seq<int>, lo: int)
    ensures CountFrom(a + b, lo) == CountFrom(a, lo) + CountFrom(b, lo)
    decreases |a|
  {
    if a == [] {
      assert a + b == b;
    } else {
      assert (a + b)[1..] == a[1..] + b;
      CountFromAppend(a[1..], b, lo);
    }
  }

  lemma {:induction false} CountFromAtMostLength(s: seq<int>, lo: int)
    ensures CountFrom(s, lo) <= |s|
    decreases |s|
  {
    if s != [] { CountFromAtMostLength(s[1..], lo); }
  }

  /** Pruning at a time less than a window after `lo` keeps every timestamp
      from `lo` on. */
  lemma {:induction false} RecentKeepsFrom(s: seq<int>, now: int, lo: int)
    requires now - lo < RateWindow
    ensures CountFrom(Recent(s, now), lo) == CountFrom(s, lo)
    decreases |s|
  {
    if s != [] {
      var p := (t: int) => now - t < RateWindow;
      assert Recent(s, now) == (if p(s[0]) then [s[0]] else []) + Recent(s[1..], now);
      CountFromAppend(if p(s[0]) then [s[0]] else [], Recent(s[1..], now), lo);
      RecentKeepsFrom(s[1..], now, lo);
    }
  }

  /** Each accepted check at a time in [lo, hi], with hi less than a window
      after lo, leaves one more timestamp from `lo` on in the client's list. */
  lemma {:induction false} AcceptedChecksAccumulate(entries: map<string, seq<int>>, ip: string,
                                                   times: seq<int>, lo: int, hi: int)
    requires hi - lo < RateWindow
    requires forall i :: 0 <= i < |times| ==> lo <= times[i] <= hi
    requires AllAccepted(entries, ip, times)
    ensures CountFrom(Stored(Replay(entries, ip, times), ip), lo) == CountFrom(Stored(entries, ip), lo) + |times|
    decreases |times|
  {
    if times != [] {
      var t := times[0];
      var next := Step(entries, ip, t).entries;
      var recent := Recent(Stored(entries, ip), t);
      assert Stored(next, ip) == recent + [t];
      CountFromAppend(recent, [t], lo);
      RecentKeepsFrom(Stored(entries, ip), t, lo);
      AcceptedChecksAccumulate(next, ip, times[1..], lo, hi);
    }
  }

  /** Ten accepted requests from one client within a window make the
      eleventh in that window fail, whatever the log held before. */
  lemma EleventhInWindowRejected(entries: map<string, seq<int>>, ip: string, times: seq<int>, now: int)
    requires |times| == RateLimit
    requires forall i :: 0 <= i < |times| ==> times[0] <= times[i] <= now
    requires now - times[0] < RateWindow
    requires AllAccepted(entries, ip, times)
    ensures !Step(Replay(entries, ip, times), ip, now).allowed
  {
    var lo := times[0];
    var s := Stored(Replay(entries, ip, times), ip);
    AcceptedChecksAccumulate(entries, ip, times, lo, now);
    RecentKeepsFrom(s, now, lo);
    CountFromAtMostLength(Recent(s, now), lo);
  }

  lemma {:induction false} RecentOfStale(s: seq<int>, now: int)
    requires forall i :: 0 <= i < |s| ==> now - s[i] >= RateWindow
    ensures Recent(s, now) == []
    decreases |s|
  {
    if s != [] { RecentOfStale(s[1..], now); }
  }

  /** Once every stored timestamp of a client is a full window old, its
      next request is accepted and its list restarts with that request. */
  lemma AcceptedAfterWindow(entries: map<string, seq<int>>, ip: string, now: int)
    requires forall i :: 0 <= i < |Stored(entries, ip)| ==> now - Stored(entries, ip)[i] >= RateWindow
    ensures Step(entries, ip, now).allowed
    ensures Stored(Step(entries, ip, now).entries, ip) == [now]
  {
    RecentOfStale(Stored(entries, ip), now);
  }
}
