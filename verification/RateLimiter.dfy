/** The sliding-window rate limiter: per key, the times of accepted requests, pruned on every request. */
module RateLimiter {

  datatype Policy = Policy(limit: int, window: int)

  datatype Request = Request(key: string, time: int)

  type History = map<string, seq<int>>

  /** The times after the cutoff, in order. */
  function Recent(times: seq<int>, cutoff: int): (r: seq<int>)
    ensures |r| <= |times|
  {
    if times == [] then []
    else
      var n := |times| - 1;
      var rest := Recent(times[..n], cutoff);
      if times[n] > cutoff then rest + [times[n]] else rest
  }

  function TimesOf(h: History, key: string): seq<int> {
    if key in h then h[key] else []
  }

  predicate Allows(h: History, request: Request, p: Policy) {
    |Recent(TimesOf(h, request.key), request.time - p.window)| < p.limit
  }

  /** The history after one request: pruned in any case, and with the request when it is allowed. */
  function After(h: History, request: Request, p: Policy): History {
    var valid := Recent(TimesOf(h, request.key), request.time - p.window);
    h[request.key := if Allows(h, request, p) then valid + [request.time] else valid]
  }

  class RateLimiter {
    var requests: History
    const limit: int
    const window: int

    constructor (limit: int, window: int)
      ensures this.limit == limit && this.window == window && requests == map[]
    {
      this.limit := limit;
      this.window := window;
      requests := map[];
    }

    method Limit(key: string, now: int) returns (allowed: bool)
      modifies this
      ensures allowed == Allows(old(requests), Request(key, now), Policy(limit, window))
      ensures requests == After(old(requests), Request(key, now), Policy(limit, window))
    {
      var cutoff := now - window;
      var times := if key in requests then requests[key] else [];
      var valid: seq<int> := [];
      for i := 0 to |times|
        invariant valid == Recent(times[..i], cutoff)
        invariant requests == old(requests)
      {
        assert times[..i + 1][..i] == times[..i];
        if times[i] > cutoff {
          valid := valid + [times[i]];
        }
      }
      assert times[..|times|] == times;
      requests := requests[key := valid];
      if |requests[key]| >= limit {
        return false;
      }
      requests := requests[key := requests[key] + [now]];
      return true;
    }
  }

  // ------------------------------------------------------------------ runs

  function Run(requests: seq<Request>, p: Policy): History {
    if requests == [] then map[]
    else After(Run(requests[..|requests| - 1], p), requests[|requests| - 1], p)
  }

  /** The times at which the program accepted requests for a key. */
  function Accepted(requests: seq<Request>, p: Policy, key: string): seq<int> {
    if requests == [] then []
    else
      var n := |requests| - 1;
      var r := requests[n];
      var before := Accepted(requests[..n], p, key);
      if r.key == key && Allows(Run(requests[..n], p), r, p) then before + [r.time] else before
  }

  /** The limiter that never forgets: it counts over everything it has accepted for the key. */
  predicate ReferenceAllows(accepted: seq<int>, time: int, p: Policy) {
    |Recent(accepted, time - p.window)| < p.limit
  }

  function Reference(requests: seq<Request>, p: Policy, key: string): seq<int> {
    if requests == [] then []
    else
      var n := |requests| - 1;
      var r := requests[n];
      var before := Reference(requests[..n], p, key);
      if r.key == key && ReferenceAllows(before, r.time, p) then before + [r.time] else before
  }

  /** The clock does not run backwards between two requests for the same key. */
  ghost predicate Ordered(requests: seq<Request>) {
    forall i, j :: 0 <= i < j < |requests| && requests[i].key == requests[j].key ==> requests[i].time <= requests[j].time
  }

  /** The times in the interval that excludes `after` and includes `upTo`. */
  function Within(times: seq<int>, after: int, upTo: int): (r: seq<int>)
    ensures |r| <= |times|
  {
    if times == [] then []
    else
      var n := |times| - 1;
      var rest := Within(times[..n], after, upTo);
      if after < times[n] <= upTo then rest + [times[n]] else rest
  }

  lemma {:induction false} RecentTwice(times: seq<int>, early: int, late: int)
    requires early <= late
    ensures Recent(Recent(times, early), late) == Recent(times, late)
  {
    if times != [] {
      var n := |times| - 1;
      RecentTwice(times[..n], early, late);
      if times[n] > early {
        RecentAppend(Recent(times[..n], early), times[n], late);
      }
    }
  }

  lemma RecentAppend(times: seq<int>, t: int, cutoff: int)
    ensures Recent(times + [t], cutoff) == if t > cutoff then Recent(times, cutoff) + [t] else Recent(times, cutoff)
  {
    assert (times + [t])[..|times|] == times;
  }

  lemma WithinAppend(times: seq<int>, t: int, after: int, upTo: int)
    ensures var rest := Within(times, after, upTo);
            Within(times + [t], after, upTo) == if after < t <= upTo then rest + [t] else rest
  {
    assert (times + [t])[..|times|] == times;
  }

  lemma {:induction false} WithinRecent(times: seq<int>, after: int, cutoff: int, upTo: int)
    requires cutoff <= after
    ensures |Within(times, after, upTo)| <= |Recent(times, cutoff)|
  {
    if times != [] {
      WithinRecent(times[..|times| - 1], after, cutoff, upTo);
    }
  }

  /** One more request. */
  lemma Unfold(requests: seq<Request>, p: Policy, key: string)
    requires requests != []
    ensures var n := |requests| - 1;
            var r, before, full := requests[n], Run(requests[..n], p), Reference(requests[..n], p, key);
            && Run(requests, p) == After(before, r, p)
            && Accepted(requests, p, key)
               == (var accepted := Accepted(requests[..n], p, key);
                   if r.key == key && Allows(before, r, p) then accepted + [r.time] else accepted)
            && Reference(requests, p, key) == if r.key == key && ReferenceAllows(full, r.time, p) then full + [r.time] else full
  {
  }

  lemma OrderedPrefix(requests: seq<Request>, n: nat)
    requires n <= |requests| && Ordered(requests)
    ensures Ordered(requests[..n])
    ensures n < |requests| ==> NotAfter(requests[..n], requests[n].key, requests[n].time)
  {
  }

  ghost predicate NotAfter(requests: seq<Request>, key: string, now: int) {
    forall i :: 0 <= i < |requests| && requests[i].key == key ==> requests[i].time <= now
  }

  /** One step of the pruned history against the whole one; `now` is when they are next looked at. */
  lemma PruneStep(before: History, full: seq<int>, r: Request, p: Policy, now: int)
    requires r.time <= now
    requires Recent(TimesOf(before, r.key), r.time - p.window) == Recent(full, r.time - p.window)
    ensures Allows(before, r, p) <==> ReferenceAllows(full, r.time, p)
    ensures Recent(TimesOf(After(before, r, p), r.key), now - p.window)
            == Recent(if ReferenceAllows(full, r.time, p) then full + [r.time] else full, now - p.window)
  {
    hide Recent;
    var kept := TimesOf(before, r.key);
    RecentTwice(kept, r.time - p.window, now - p.window);
    RecentTwice(full, r.time - p.window, now - p.window);
    RecentAppend(Recent(kept, r.time - p.window), r.time, now - p.window);
    RecentAppend(full, r.time, now - p.window);
  }

  /**
   * What the program keeps for a key is what the unforgetting limiter has accepted, less what
   * some earlier cutoff dropped.
   */
  lemma {:induction false} KeptIsPruned(requests: seq<Request>, p: Policy, key: string, now: int)
    requires Ordered(requests) && NotAfter(requests, key, now)
    ensures Accepted(requests, p, key) == Reference(requests, p, key)
    ensures Recent(TimesOf(Run(requests, p), key), now - p.window) == Recent(Reference(requests, p, key), now - p.window)
  {
    if requests != [] {
      var n := |requests| - 1;
      var r := requests[n];
      Unfold(requests, p, key);
      OrderedPrefix(requests, n);
      if r.key == key {
        KeptIsPruned(requests[..n], p, key, r.time);
        hide *;
        PruneStep(Run(requests[..n], p), Reference(requests[..n], p, key), r, p, now);
      } else {
        KeptIsPruned(requests[..n], p, key, now);
        OtherKey(Run(requests[..n], p), r, p, key);
        hide *;
      }
    }
  }

  lemma OtherKey(h: History, r: Request, p: Policy, key: string)
    requires r.key != key
    ensures TimesOf(After(h, r, p), key) == TimesOf(h, key)
  {
  }

  /** Pruning loses nothing: every request is decided as by a limiter that keeps the whole history. */
  lemma DecidesLikeReference(requests: seq<Request>, p: Policy, n: nat)
    requires n < |requests| && Ordered(requests)
    ensures Allows(Run(requests[..n], p), requests[n], p)
            <==> ReferenceAllows(Reference(requests[..n], p, requests[n].key), requests[n].time, p)
    ensures Accepted(requests[..n], p, requests[n].key) == Reference(requests[..n], p, requests[n].key)
  {
    OrderedPrefix(requests, n);
    KeptIsPruned(requests[..n], p, requests[n].key, requests[n].time);
    hide Run;
    hide Accepted;
    hide Reference;
    hide Recent;
  }

  lemma BoundStep(before: seq<int>, time: int, p: Policy, t: int)
    requires |Within(before, t - p.window, t)| <= Bound(p)
    requires ReferenceAllows(before, time, p)
    ensures |Within(before + [time], t - p.window, t)| <= Bound(p)
  {
    hide Within;
    hide Recent;
    WithinAppend(before, time, t - p.window, t);
    if time <= t {
      WithinRecent(before, t - p.window, time - p.window, t);
    }
  }

  function Bound(p: Policy): nat {
    if p.limit < 0 then 0 else p.limit
  }

  /** The unforgetting limiter meets its bound whatever the clock does. */
  lemma {:induction false} ReferenceBound(requests: seq<Request>, p: Policy, key: string, t: int)
    ensures |Within(Reference(requests, p, key), t - p.window, t)| <= Bound(p)
  {
    if requests != [] {
      var n := |requests| - 1;
      var before, time := Reference(requests[..n], p, key), requests[n].time;
      ReferenceBound(requests[..n], p, key, t);
      hide Within;
      hide ReferenceAllows;
      if ReferenceAllows(before, time, p) {
        BoundStep(before, time, p, t);
      }
    }
  }

  /** At most `limit` requests for a key are accepted in any interval of one window. */
  lemma WindowBound(requests: seq<Request>, p: Policy, key: string, t: int)
    requires Ordered(requests)
    ensures |Within(Accepted(requests, p, key), t - p.window, t)| <= Bound(p)
  {
    var now := LatestTime(requests, key);
    KeptIsPruned(requests, p, key, now);
    ReferenceBound(requests, p, key, t);
    hide Accepted;
    hide Reference;
    hide Within;
  }

  lemma {:induction false} LatestTime(requests: seq<Request>, key: string) returns (now: int)
    ensures NotAfter(requests, key, now)
  {
    if requests == [] {
      now := 0;
    } else {
      var n := |requests| - 1;
      now := LatestTime(requests[..n], key);
      assert forall i :: 0 <= i < n ==> requests[i] == requests[..n][i];
      if now < requests[n].time {
        now := requests[n].time;
      }
    }
  }

  /** A request is turned away only when the window behind it is full of accepted ones. */
  lemma RejectedOnlyWhenFull(requests: seq<Request>, p: Policy, n: nat)
    requires n < |requests| && Ordered(requests)
    ensures var r := requests[n];
            Allows(Run(requests[..n], p), r, p)
            <==> |Within(Accepted(requests[..n], p, r.key), r.time - p.window, r.time)| < p.limit
  {
    var r := requests[n];
    DecidesLikeReference(requests, p, n);
    OrderedPrefix(requests, n);
    AcceptedNotAfter(requests[..n], p, r.key, r.time);
    hide Accepted;
    hide Reference;
    hide Run;
    hide Recent;
    hide Within;
    WithinIsRecent(Accepted(requests[..n], p, r.key), r.time - p.window, r.time);
  }

  lemma {:induction false} AcceptedNotAfter(requests: seq<Request>, p: Policy, key: string, now: int)
    requires NotAfter(requests, key, now)
    ensures forall t :: t in Accepted(requests, p, key) ==> t <= now
  {
    if requests != [] {
      AcceptedNotAfter(requests[..|requests| - 1], p, key, now);
      hide Run;
      hide Allows;
    }
  }

  lemma {:induction false} WithinIsRecent(times: seq<int>, after: int, upTo: int)
    requires forall t :: t in times ==> t <= upTo
    ensures Within(times, after, upTo) == Recent(times, after)
  {
    if times != [] {
      var n := |times| - 1;
      assert times[n] in times;
      assert forall t :: t in times[..n] ==> t in times;
      WithinIsRecent(times[..n], after, upTo);
    }
  }

  /** The requests for one key. */
  function Only(requests: seq<Request>, key: string): seq<Request> {
    if requests == [] then []
    else
      var n := |requests| - 1;
      if requests[n].key == key then Only(requests[..n], key) + [requests[n]] else Only(requests[..n], key)
  }

  /** Keys do not interfere: a key is treated as if there were no others. */
  lemma {:induction false} KeysIndependent(requests: seq<Request>, p: Policy, key: string)
    ensures TimesOf(Run(requests, p), key) == TimesOf(Run(Only(requests, key), p), key)
    ensures Accepted(requests, p, key) == Accepted(Only(requests, key), p, key)
  {
    if requests != [] {
      var n := |requests| - 1;
      var r, only := requests[n], Only(requests[..n], key);
      KeysIndependent(requests[..n], p, key);
      Unfold(requests, p, key);
      if r.key == key {
        Unfold(only + [r], p, key);
        assert (only + [r])[..|only|] == only;
        assert Only(requests, key) == only + [r];
        SameTimes(Run(requests[..n], p), Run(only, p), r, p);
        hide *;
      } else {
        OtherKey(Run(requests[..n], p), r, p, key);
        assert Only(requests, key) == only;
        hide *;
      }
    }
  }

  lemma SameTimes(h: History, g: History, r: Request, p: Policy)
    requires TimesOf(h, r.key) == TimesOf(g, r.key)
    ensures Allows(h, r, p) == Allows(g, r, p) && TimesOf(After(h, r, p), r.key) == TimesOf(After(g, r, p), r.key)
  {
  }

  // ------------------------------------------------------------------ requests overtaken by others

  /**
   * A request for the key ran when a time after `cutoff` was already accepted, and its own
   * cutoff dropped that time.
   */
  ghost predicate Drops(requests: seq<Request>, p: Policy, key: string, cutoff: int) {
    exists j, t :: DropsTime(requests, p, key, cutoff, j, t)
  }

  predicate DropsTime(requests: seq<Request>, p: Policy, key: string, cutoff: int, j: int, t: int) {
    && 0 <= j < |requests| && requests[j].key == key
    && t in Accepted(requests[..j], p, key)
    && cutoff < t <= requests[j].time - p.window
  }

  /**
   * A request is decided on the count over everything accepted before it exactly when no
   * accepted time after its own cutoff was dropped by a request that ran in between. No order
   * of the times is assumed: a request may run after one that read the clock later.
   */
  lemma CountsLikeReferenceExactly(requests: seq<Request>, p: Policy, n: nat)
    requires n < |requests|
    ensures var key, cutoff := requests[n].key, requests[n].time - p.window;
            |Recent(TimesOf(Run(requests[..n], p), key), cutoff)| == |Recent(Accepted(requests[..n], p, key), cutoff)|
            <==> !Drops(requests[..n], p, key, cutoff)
  {
    KeptOrDropped(requests[..n], p, requests[n].key, requests[n].time - p.window);
    hide *;
  }

  /** What is kept after a cutoff is what was accepted after it, or strictly less when something was dropped. */
  lemma {:induction false} KeptOrDropped(requests: seq<Request>, p: Policy, key: string, cutoff: int)
    ensures var kept, full := Recent(TimesOf(Run(requests, p), key), cutoff), Recent(Accepted(requests, p, key), cutoff);
            if Drops(requests, p, key, cutoff) then |kept| < |full| else kept == full
  {
    hide *;
    if requests == [] {
      NothingDropped(p, key, cutoff);
    } else {
      var n := |requests| - 1;
      var r := requests[n];
      KeptOrDropped(requests[..n], p, key, cutoff);
      Unfold(requests, p, key);
      DropsUnfold(requests, p, key, cutoff);
      if r.key == key {
        SameKeyUnfold(Run(requests[..n], p), r, p);
        KeptStep(TimesOf(Run(requests[..n], p), key), Accepted(requests[..n], p, key), r.time,
                 Allows(Run(requests[..n], p), r, p), p, cutoff, Drops(requests[..n], p, key, cutoff));
      } else {
        OtherKey(Run(requests[..n], p), r, p, key);
      }
    }
  }

  lemma NothingDropped(p: Policy, key: string, cutoff: int)
    ensures Recent(TimesOf(Run([], p), key), cutoff) == [] && Recent(Accepted([], p, key), cutoff) == []
    ensures !Drops([], p, key, cutoff)
  {
  }

  lemma SameKeyUnfold(h: History, r: Request, p: Policy)
    ensures var valid := Recent(TimesOf(h, r.key), r.time - p.window);
            TimesOf(After(h, r, p), r.key) == if Allows(h, r, p) then valid + [r.time] else valid
  {
  }

  /** Some time after the cutoff is one the later cutoff drops. */
  predicate Between(times: seq<int>, cutoff: int, upTo: int) {
    exists t :: t in times && cutoff < t <= upTo
  }

  lemma DropsUnfold(requests: seq<Request>, p: Policy, key: string, cutoff: int)
    requires requests != []
    ensures var n := |requests| - 1;
            Drops(requests, p, key, cutoff) <==>
              || Drops(requests[..n], p, key, cutoff)
              || (requests[n].key == key && Between(Accepted(requests[..n], p, key), cutoff, requests[n].time - p.window))
  {
    hide Accepted;
    var n := |requests| - 1;
    assert forall j :: 0 <= j <= n ==> requests[..n][..j] == requests[..j];
    assert forall j, t :: DropsTime(requests[..n], p, key, cutoff, j, t) <==> j < n && DropsTime(requests, p, key, cutoff, j, t);
    if t :| t in Accepted(requests[..n], p, key) && requests[n].key == key && cutoff < t <= requests[n].time - p.window {
      assert DropsTime(requests, p, key, cutoff, n, t);
    }
  }

  lemma KeptStep(times: seq<int>, accepted: seq<int>, time: int, allowed: bool, p: Policy, cutoff: int, dropped: bool)
    requires if dropped then |Recent(times, cutoff)| < |Recent(accepted, cutoff)| else Recent(times, cutoff) == Recent(accepted, cutoff)
    ensures var valid := Recent(times, time - p.window);
            var kept := Recent(if allowed then valid + [time] else valid, cutoff);
            var full := Recent(if allowed then accepted + [time] else accepted, cutoff);
            if dropped || Between(accepted, cutoff, time - p.window) then |kept| < |full| else kept == full
  {
    hide Recent;
    var own := time - p.window;
    RecentAppend(Recent(times, own), time, cutoff);
    RecentAppend(accepted, time, cutoff);
    if own <= cutoff {
      RecentTwice(times, own, cutoff);
    } else {
      RecentTwice(times, cutoff, own);
      RecentStays(times, own, cutoff);
      RecentMembers(accepted, cutoff);
      RecentShorter(Recent(times, cutoff), own);
    }
  }

  lemma {:induction false} RecentMembers(times: seq<int>, cutoff: int)
    ensures forall t :: t in Recent(times, cutoff) <==> t in times && t > cutoff
  {
    if times != [] {
      var n := |times| - 1;
      assert times == times[..n] + [times[n]];
      RecentMembers(times[..n], cutoff);
    }
  }

  lemma {:induction false} RecentShorter(times: seq<int>, cutoff: int)
    ensures if exists t :: t in times && t <= cutoff then |Recent(times, cutoff)| < |times| else Recent(times, cutoff) == times
  {
    if times != [] {
      var n := |times| - 1;
      assert times == times[..n] + [times[n]];
      RecentShorter(times[..n], cutoff);
      if times[n] <= cutoff {
        assert times[n] in times;
      } else if t :| t in times[..n] && t <= cutoff {
        assert t in times;
      } else {
        assert Recent(times[..n], cutoff) == times[..n];
      }
    }
  }

  lemma {:induction false} RecentStays(times: seq<int>, late: int, early: int)
    requires early <= late
    ensures Recent(Recent(times, late), early) == Recent(times, late)
  {
    if times != [] {
      RecentStays(times[..|times| - 1], late, early);
      RecentAppend(Recent(times[..|times| - 1], late), times[|times| - 1], early);
    }
  }
}
