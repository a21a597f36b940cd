/**
 * The protocol cache of the front end: concurrent loads of one protocol share one fetch. Between
 * two awaits the code runs undisturbed, so a load is three event-loop steps: the call, the
 * fetch settling, and the first caller going on after its await.
 */
module SingleFlight {
  import opened Wrappers

  type Protocol = string

  datatype Status = Pending | Resolved(value: Protocol) | Rejected

  /** `done` once the caller that started it has gone on. */
  datatype Fetch = Fetch(id: string, status: Status, done: bool)

  datatype Started = Cached(value: Protocol) | Joined(fetch: nat) | New

  /** What a call of loadProtocol does before its first await; fetches are numbered as they start. */
  function Begin(protocols: map<string, Protocol>, loading: map<string, nat>, id: string): Started {
    if id in protocols then Cached(protocols[id])
    else if id in loading then Joined(loading[id])
    else New
  }

  class FlowRegistry {
    var protocols: map<string, Protocol>
    var loading: map<string, nat>
    var allProtocolsLoaded: bool
    var allProtocolsPromise: Option<nat>

    constructor ()
      ensures protocols == map[] && loading == map[] && !allProtocolsLoaded && allProtocolsPromise == None
    {
      protocols := map[];
      loading := map[];
      allProtocolsLoaded := false;
      allProtocolsPromise := None;
    }

    method LoadProtocol(id: string, next: nat) returns (r: Started)
      modifies this`loading
      ensures r == Begin(protocols, old(loading), id)
      ensures loading == if r == New then old(loading)[id := next] else old(loading)
    {
      if id in protocols {
        return Cached(protocols[id]);
      }
      if id in loading {
        return Joined(loading[id]);
      }
      loading := loading[id := next];
      return New;
    }

    /** The first caller after its await: the value is kept on success, the entry removed in any case. */
    method AfterAwait(id: string, outcome: Status)
      modifies this`protocols, this`loading
      ensures protocols == if outcome.Resolved? then old(protocols)[id := outcome.value] else old(protocols)
      ensures loading == old(loading) - {id}
    {
      if outcome.Resolved? {
        protocols := protocols[id := outcome.value];
      }
      loading := loading - {id};
    }

    method ClearCache()
      modifies this
      ensures protocols == map[] && loading == map[] && !allProtocolsLoaded && allProtocolsPromise == None
    {
      protocols := map[];
      loading := map[];
      allProtocolsLoaded := false;
      allProtocolsPromise := None;
    }

    /** What is kept when loaded, the kept promise, or the new load of the list, which gets number `next`. */
    method LoadAllProtocols(next: nat) returns (r: StartedAll)
      modifies this`allProtocolsPromise
      ensures r == BeginAll(allProtocolsLoaded, old(allProtocolsPromise), protocols, next)
      ensures allProtocolsPromise == PromiseAfter(r, old(allProtocolsPromise))
    {
      if allProtocolsLoaded {
        return Kept(protocols);
      }
      if allProtocolsPromise.Some? {
        return Promised(allProtocolsPromise.value);
      }
      allProtocolsPromise := Some(next);
      return Promised(next);
    }

    /** A load of the list that has all its protocols, whenever it was started. */
    method AfterAll()
      modifies this`allProtocolsLoaded
      ensures allProtocolsLoaded
    {
      allProtocolsLoaded := true;
    }
  }

  /** The answer of loadAllProtocols: the cache as it is, or the load of that number. */
  datatype StartedAll = Kept(protocols: map<string, Protocol>) | Promised(load: nat)

  function BeginAll(loaded: bool, promise: Option<nat>, protocols: map<string, Protocol>, next: nat): StartedAll {
    if loaded then Kept(protocols) else if promise.Some? then Promised(promise.value) else Promised(next)
  }

  function PromiseAfter(r: StartedAll, promise: Option<nat>): Option<nat> {
    match r
    case Kept(_) => promise
    case Promised(load) => Some(load)
  }

  // ------------------------------------------------------------------ event-loop schedules

  /** What a caller holds: the cached value, or the fetch it waits for. */
  datatype Caller = Has(id: string, value: Protocol) | Awaits(id: string, fetch: nat)

  datatype Registry = Registry(
    protocols: map<string, Protocol>, loading: map<string, nat>, fetches: seq<Fetch>, callers: map<nat, Caller>)

  const EMPTY := Registry(map[], map[], [], map[])

  datatype Step =
    | Load(caller: nat, id: string)
    | Settle(fetch: nat, outcome: Status)
    | GoOn(fetch: nat)
    | Clear

  function Next(s: Registry, step: Step): Registry {
    match step
    case Load(caller, id) =>
      if caller in s.callers then s
      else (
        match Begin(s.protocols, s.loading, id)
        case Cached(v) => s.(callers := s.callers[caller := Has(id, v)])
        case Joined(f) => s.(callers := s.callers[caller := Awaits(id, f)])
        case New => s.(loading := s.loading[id := |s.fetches|],
                       fetches := s.fetches + [Fetch(id, Pending, false)],
                       callers := s.callers[caller := Awaits(id, |s.fetches|)])
      )
    case Settle(f, outcome) =>
      if f >= |s.fetches| || !s.fetches[f].status.Pending? || outcome.Pending? then s
      else s.(fetches := s.fetches[f := s.fetches[f].(status := outcome)])
    case GoOn(f) =>
      if f >= |s.fetches| || s.fetches[f].status.Pending? || s.fetches[f].done then s
      else
        var fetch := s.fetches[f];
        Registry(if fetch.status.Resolved? then s.protocols[fetch.id := fetch.status.value] else s.protocols,
                 s.loading - {fetch.id}, s.fetches[f := fetch.(done := true)], s.callers)
    case Clear => s.(protocols := map[], loading := map[])
  }

  function Run(steps: seq<Step>): Registry {
    if steps == [] then EMPTY else Next(Run(steps[..|steps| - 1]), steps[|steps| - 1])
  }

  predicate NeverClears(steps: seq<Step>) {
    forall i :: 0 <= i < |steps| ==> steps[i] != Clear
  }

  /** What a caller has received so far. */
  function Answer(s: Registry, c: Caller): Status {
    match c
    case Has(_, v) => Resolved(v)
    case Awaits(_, f) => if f < |s.fetches| then s.fetches[f].status else Pending
  }

  // ------------------------------------------------------------------ the invariant

  /** A fetch not gone on from is the one registered under its id. */
  ghost predicate OpenIsLoading(fetches: seq<Fetch>, loading: map<string, nat>) {
    && (forall f :: 0 <= f < |fetches| && !fetches[f].done ==> fetches[f].id in loading && loading[fetches[f].id] == f)
    && (forall id :: id in loading ==> loading[id] < |fetches| && fetches[loading[id]].id == id && !fetches[loading[id]].done)
  }

  /** All fetches of an id before its last one have failed and are done with. */
  ghost predicate OnlyLastMatters(fetches: seq<Fetch>) {
    forall f, g :: 0 <= f < g < |fetches| && fetches[f].id == fetches[g].id ==> fetches[f].status.Rejected? && fetches[f].done
  }

  ghost predicate Brought(fetches: seq<Fetch>, id: string, v: Protocol) {
    exists f :: 0 <= f < |fetches| && fetches[f] == Fetch(id, Resolved(v), true)
  }

  /** The cache holds exactly what the fetches done with have brought. */
  ghost predicate CacheIsFetched(fetches: seq<Fetch>, protocols: map<string, Protocol>) {
    && (forall f :: 0 <= f < |fetches| && fetches[f].done ==>
          && !fetches[f].status.Pending?
          && (fetches[f].status.Resolved? ==> fetches[f].id in protocols && protocols[fetches[f].id] == fetches[f].status.value))
    && (forall id :: id in protocols ==> Brought(fetches, id, protocols[id]))
  }

  ghost predicate Served(fetches: seq<Fetch>, c: Caller) {
    match c
    case Has(id, v) => Brought(fetches, id, v)
    case Awaits(id, f) => f < |fetches| && fetches[f].id == id
  }

  ghost predicate CallersServed(fetches: seq<Fetch>, callers: map<nat, Caller>) {
    forall c :: c in callers ==> Served(fetches, callers[c])
  }

  ghost predicate Inv(s: Registry) {
    && OpenIsLoading(s.fetches, s.loading)
    && OnlyLastMatters(s.fetches)
    && CacheIsFetched(s.fetches, s.protocols)
    && CallersServed(s.fetches, s.callers)
  }

  /** The fetches go on: no id changes, and what a fetch brought stays. */
  ghost predicate Extends(before: seq<Fetch>, after: seq<Fetch>) {
    && |before| <= |after|
    && (forall f :: 0 <= f < |before| ==> after[f].id == before[f].id)
    && (forall f :: 0 <= f < |before| && before[f].done ==> after[f] == before[f])
  }

  lemma StillBrought(before: seq<Fetch>, after: seq<Fetch>, id: string, v: Protocol)
    requires Extends(before, after) && Brought(before, id, v)
    ensures Brought(after, id, v)
  {
    var f :| 0 <= f < |before| && before[f] == Fetch(id, Resolved(v), true);
    assert after[f] == Fetch(id, Resolved(v), true);
  }

  lemma StillServed(before: seq<Fetch>, after: seq<Fetch>, callers: map<nat, Caller>)
    requires Extends(before, after) && CallersServed(before, callers)
    ensures CallersServed(after, callers)
  {
    hide Brought;
    forall c | c in callers ensures Served(after, callers[c]) {
      if callers[c].Has? {
        StillBrought(before, after, callers[c].id, callers[c].value);
      }
    }
  }

  lemma StillCached(before: seq<Fetch>, after: seq<Fetch>, protocols: map<string, Protocol>)
    requires Extends(before, after) && CacheIsFetched(before, protocols)
    ensures forall id :: id in protocols ==> Brought(after, id, protocols[id])
  {
    hide Brought;
    forall id | id in protocols ensures Brought(after, id, protocols[id]) {
      StillBrought(before, after, id, protocols[id]);
    }
  }

  lemma OneMoreServed(fetches: seq<Fetch>, callers: map<nat, Caller>, key: nat, c: Caller)
    requires CallersServed(fetches, callers) && Served(fetches, c)
    ensures CallersServed(fetches, callers[key := c])
  {
    hide Served;
  }

  lemma LoadStep(s: Registry, caller: nat, id: string)
    requires Inv(s)
    ensures Inv(Next(s, Load(caller, id)))
  {
    if caller !in s.callers {
      match Begin(s.protocols, s.loading, id)
      case Cached(v) => OneMoreServed(s.fetches, s.callers, caller, Has(id, v));
      case Joined(f) => OneMoreServed(s.fetches, s.callers, caller, Awaits(id, f));
      case New => NewFetchStep(s, caller, id);
    }
    hide OnlyLastMatters;
    hide CallersServed;
    hide Brought;
  }

  lemma NewFetchStep(s: Registry, caller: nat, id: string)
    requires Inv(s) && Begin(s.protocols, s.loading, id) == New
    ensures var fetches := s.fetches + [Fetch(id, Pending, false)];
            && OpenIsLoading(fetches, s.loading[id := |s.fetches|])
            && OnlyLastMatters(fetches)
            && CacheIsFetched(fetches, s.protocols)
            && CallersServed(fetches, s.callers[caller := Awaits(id, |s.fetches|)])
  {
    NewFetchFollowsFailures(s, id);
    hide Begin;
    hide Brought;
    var fetches := s.fetches + [Fetch(id, Pending, false)];
    StillServed(s.fetches, fetches, s.callers);
    OneMoreServed(fetches, s.callers, caller, Awaits(id, |s.fetches|));
    StillCached(s.fetches, fetches, s.protocols);
    hide CallersServed;
    assert OnlyLastMatters(fetches) by { hide OpenIsLoading; hide CacheIsFetched; }
    hide OnlyLastMatters;
  }

  lemma SettleStep(s: Registry, f: nat, outcome: Status)
    requires Inv(s)
    ensures Inv(Next(s, Settle(f, outcome)))
  {
    hide Brought;
    var next := Next(s, Settle(f, outcome));
    assert Extends(s.fetches, next.fetches);
    StillServed(s.fetches, next.fetches, s.callers);
    StillCached(s.fetches, next.fetches, s.protocols);
    hide CallersServed;
  }

  lemma GoOnStep(s: Registry, f: nat)
    requires Inv(s)
    ensures Inv(Next(s, GoOn(f)))
  {
    if f < |s.fetches| && !s.fetches[f].status.Pending? && !s.fetches[f].done {
      var fetches := s.fetches[f := s.fetches[f].(done := true)];
      assert Extends(s.fetches, fetches);
      StillServed(s.fetches, fetches, s.callers);
      DoneLoading(s.fetches, f, s.loading);
      DoneCache(s.fetches, f, s.protocols);
      DoneLast(s.fetches, f);
    }
    hide OpenIsLoading;
    hide OnlyLastMatters;
    hide CacheIsFetched;
    hide CallersServed;
  }

  lemma DoneLoading(fetches: seq<Fetch>, f: nat, loading: map<string, nat>)
    requires f < |fetches| && !fetches[f].done && OpenIsLoading(fetches, loading)
    ensures OpenIsLoading(fetches[f := fetches[f].(done := true)], loading - {fetches[f].id})
  {
  }

  lemma DoneLast(fetches: seq<Fetch>, f: nat)
    requires f < |fetches| && !fetches[f].done && OnlyLastMatters(fetches)
    ensures OnlyLastMatters(fetches[f := fetches[f].(done := true)])
  {
  }

  lemma DoneCache(fetches: seq<Fetch>, f: nat, protocols: map<string, Protocol>)
    requires f < |fetches| && !fetches[f].done && !fetches[f].status.Pending?
    requires OnlyLastMatters(fetches) && CacheIsFetched(fetches, protocols)
    ensures var fetch := fetches[f];
            CacheIsFetched(fetches[f := fetch.(done := true)],
                           if fetch.status.Resolved? then protocols[fetch.id := fetch.status.value] else protocols)
  {
    var fetch := fetches[f];
    var after := fetches[f := fetch.(done := true)];
    assert Extends(fetches, after);
    StillCached(fetches, after, protocols);
    assert after[f] == fetch.(done := true);
    assert fetch.status.Resolved? ==> Brought(after, fetch.id, fetch.status.value);
    assert forall g :: 0 <= g < |fetches| && fetches[g].id == fetch.id && fetches[g].done ==> !fetches[g].status.Resolved?;
    hide Brought;
    hide OnlyLastMatters;
  }

  lemma {:induction false} RunInv(steps: seq<Step>)
    requires NeverClears(steps)
    ensures Inv(Run(steps))
  {
    if steps != [] {
      var n := |steps| - 1;
      assert NeverClears(steps[..n]);
      RunInv(steps[..n]);
      var s := Run(steps[..n]);
      hide Inv;
      hide Next;
      match steps[n]
      case Load(caller, id) => LoadStep(s, caller, id);
      case Settle(f, outcome) => SettleStep(s, f, outcome);
      case GoOn(f) => GoOnStep(s, f);
      case Clear => assert false;
    }
  }

  // ------------------------------------------------------------------ what holds over every schedule

  /** Every fetch of the id so far has failed, and its first caller has gone on. */
  ghost predicate AllFailed(s: Registry, id: string) {
    forall f :: 0 <= f < |s.fetches| && s.fetches[f].id == id ==> s.fetches[f].status.Rejected? && s.fetches[f].done
  }

  lemma NewFetchFollowsFailures(s: Registry, id: string)
    requires Inv(s)
    ensures Begin(s.protocols, s.loading, id) == New <==> AllFailed(s, id)
  {
    if id in s.protocols {
      assert Brought(s.fetches, id, s.protocols[id]);
    }
  }

  /**
   * Without clearCache: at most one fetch of an id is outstanding; no fetch follows a successful
   * one; a call fetches exactly when every earlier fetch of the id has failed and been cleaned up.
   */
  lemma OneFetchAtATime(steps: seq<Step>, id: string)
    requires NeverClears(steps)
    ensures var s := Run(steps);
            && (forall f, g :: 0 <= f < g < |s.fetches| && s.fetches[f].id == id && s.fetches[g].id == id ==>
                  s.fetches[f].status.Rejected? && s.fetches[f].done)
            && (Begin(s.protocols, s.loading, id) == New <==> AllFailed(s, id))
  {
    RunInv(steps);
    NewFetchFollowsFailures(Run(steps), id);
    hide Run;
  }

  /** All callers that receive a value for an id receive the same one: what its one successful fetch brought. */
  lemma AllCallersAgree(steps: seq<Step>, c: nat, d: nat)
    requires NeverClears(steps)
    requires c in Run(steps).callers && d in Run(steps).callers
    requires Run(steps).callers[c].id == Run(steps).callers[d].id
    requires Answer(Run(steps), Run(steps).callers[c]).Resolved? && Answer(Run(steps), Run(steps).callers[d]).Resolved?
    ensures Answer(Run(steps), Run(steps).callers[c]) == Answer(Run(steps), Run(steps).callers[d])
  {
    RunInv(steps);
    var s := Run(steps);
    hide Run;
    var f := Source(s, s.callers[c]);
    var g := Source(s, s.callers[d]);
    assert f == g;
  }

  /** The fetch a caller's value comes from. */
  lemma Source(s: Registry, c: Caller) returns (f: nat)
    requires CallersServed(s.fetches, s.callers) && c in s.callers.Values && Answer(s, c).Resolved?
    ensures f < |s.fetches| && s.fetches[f].id == c.id && s.fetches[f].status == Answer(s, c)
  {
    var key :| key in s.callers && s.callers[key] == c;
    assert Served(s.fetches, c);
    match c
    case Has(id, v) =>
      assert Brought(s.fetches, id, v);
      var g :| 0 <= g < |s.fetches| && s.fetches[g] == Fetch(id, Resolved(v), true);
      f := g;
    case Awaits(_, g) => f := g;
  }

  // ------------------------------------------------------------------ clearing the cache

  /** What follows after a state. */
  function Continue(s: Registry, steps: seq<Step>): Registry {
    if steps == [] then s else Next(Continue(s, steps[..|steps| - 1]), steps[|steps| - 1])
  }

  predicate Outstanding(s: Registry, id: string, f: int) {
    0 <= f < |s.fetches| && s.fetches[f].id == id && s.fetches[f].status.Pending?
  }

  ghost predicate TwoOutstanding(s: Registry, id: string) {
    exists f, g :: f < g && Outstanding(s, id, f) && Outstanding(s, id, g)
  }

  /** Some schedule without a further clear leads to two outstanding fetches of the id. */
  ghost predicate CanBreak(s: Registry, id: string) {
    exists more :: NeverClears(more) && TwoOutstanding(Continue(s, more), id)
  }

  /** The registered fetch of the id has not brought its value yet: it is under way, or has failed. */
  predicate Unfinished(s: Registry, id: string) {
    id in s.loading && s.loading[id] < |s.fetches| && !s.fetches[s.loading[id]].status.Resolved?
  }

  /**
   * After any schedule without clears, a clear breaks single flight for an id exactly when the
   * fetch registered for it is unfinished. When it is under way the next call starts a second
   * one at once; when it has failed, its cleanup later removes the entry of the next fetch.
   */
  lemma ClearBreaksExactly(steps: seq<Step>, id: string)
    requires NeverClears(steps)
    ensures CanBreak(Next(Run(steps), Clear), id) <==> Unfinished(Run(steps), id)
  {
    RunInv(steps);
    var s := Run(steps);
    hide Run;
    if Unfinished(s, id) {
      ClearBreaks(s, id);
    } else {
      hide Next;
      forall more | NeverClears(more) ensures !TwoOutstanding(Continue(Next(s, Clear), more), id) {
        ClearIsHarmless(s, id);
        StaysSafe(Next(s, Clear), more, id);
        SafeMeansOne(Continue(Next(s, Clear), more), id);
      }
    }
  }

  /** No call can start a second fetch: the value is there, or what is outstanding is registered. */
  ghost predicate Safe(s: Registry, id: string) {
    || (id in s.protocols && AtMostOne(s, id))
    || (forall f :: 0 <= f < |s.fetches| && s.fetches[f].id == id && !s.fetches[f].done && !s.fetches[f].status.Resolved? ==>
          id in s.loading && s.loading[id] == f)
  }

  ghost predicate AtMostOne(s: Registry, id: string) {
    forall f, g :: Outstanding(s, id, f) && Outstanding(s, id, g) ==> f == g
  }

  /** A fetch that is done with is not outstanding. */
  ghost predicate DoneIsSettled(s: Registry) {
    forall f :: 0 <= f < |s.fetches| && s.fetches[f].done ==> !s.fetches[f].status.Pending?
  }

  lemma SafeMeansOne(s: Registry, id: string)
    requires Safe(s, id) && DoneIsSettled(s)
    ensures AtMostOne(s, id) && !TwoOutstanding(s, id)
  {
  }

  lemma ClearIsHarmless(s: Registry, id: string)
    requires Inv(s) && !Unfinished(s, id)
    ensures Safe(Next(s, Clear), id) && DoneIsSettled(Next(s, Clear))
  {
  }

  lemma SafeStep(s: Registry, step: Step, id: string)
    requires Safe(s, id) && DoneIsSettled(s) && step != Clear
    ensures Safe(Next(s, step), id) && DoneIsSettled(Next(s, step))
  {
    SafeMeansOne(s, id);
    match step
    case Load(caller, other) => SafeLoad(s, caller, other, id);
    case Settle(f, outcome) => SafeSettle(s, f, outcome, id);
    case GoOn(f) => SafeGoOn(s, f, id);
  }

  lemma SafeLoad(s: Registry, caller: nat, other: string, id: string)
    requires Safe(s, id) && DoneIsSettled(s)
    ensures Safe(Next(s, Load(caller, other)), id) && DoneIsSettled(Next(s, Load(caller, other)))
  {
    var next := Next(s, Load(caller, other));
    if next.fetches != s.fetches {
      assert forall f :: 0 <= f < |s.fetches| ==> next.fetches[f] == s.fetches[f];
      assert id != other && id in s.protocols ==> forall f :: Outstanding(next, id, f) <==> Outstanding(s, id, f);
    } else {
      assert forall f :: Outstanding(next, id, f) <==> Outstanding(s, id, f);
    }
  }

  lemma SafeSettle(s: Registry, f: nat, outcome: Status, id: string)
    requires Safe(s, id) && DoneIsSettled(s)
    ensures Safe(Next(s, Settle(f, outcome)), id) && DoneIsSettled(Next(s, Settle(f, outcome)))
  {
    var next := Next(s, Settle(f, outcome));
    assert forall g :: Outstanding(next, id, g) ==> Outstanding(s, id, g);
  }

  lemma SafeGoOn(s: Registry, f: nat, id: string)
    requires Safe(s, id) && DoneIsSettled(s)
    ensures Safe(Next(s, GoOn(f)), id) && DoneIsSettled(Next(s, GoOn(f)))
  {
    SafeMeansOne(s, id);
    var next := Next(s, GoOn(f));
    assert forall g :: Outstanding(next, id, g) <==> Outstanding(s, id, g);
  }

  lemma {:induction false} StaysSafe(s: Registry, steps: seq<Step>, id: string)
    requires Safe(s, id) && DoneIsSettled(s) && NeverClears(steps)
    ensures Safe(Continue(s, steps), id) && DoneIsSettled(Continue(s, steps))
  {
    hide Safe;
    hide DoneIsSettled;
    hide Next;
    if steps != [] {
      var n := |steps| - 1;
      assert NeverClears(steps[..n]);
      StaysSafe(s, steps[..n], id);
      SafeStep(Continue(s, steps[..n]), steps[n], id);
    }
  }

  lemma {:induction false} UnusedCaller(callers: set<nat>) returns (c: nat)
    ensures forall k :: k in callers ==> k < c
  {
    if callers == {} {
      c := 0;
    } else {
      var k :| k in callers;
      c := UnusedCaller(callers - {k});
      assert forall m :: m in callers ==> m == k || m in callers - {k};
      if c <= k {
        c := k + 1;
      }
    }
  }

  lemma ClearBreaks(s: Registry, id: string)
    requires Inv(s) && Unfinished(s, id)
    ensures CanBreak(Next(s, Clear), id)
  {
    var c := UnusedCaller(s.callers.Keys);
    var f, n, cleared := s.loading[id], |s.fetches|, Next(s, Clear);
    assert c !in s.callers && c + 1 !in s.callers;
    var first := Next(cleared, Load(c, id));
    assert first.fetches == s.fetches + [Fetch(id, Pending, false)] && first.loading == map[id := n];
    OneMore(cleared, [], Load(c, id));
    assert [] + [Load(c, id)] == [Load(c, id)];
    if s.fetches[f].status.Pending? {
      assert Outstanding(first, id, f) && Outstanding(first, id, n);
      assert NeverClears([Load(c, id)]) && TwoOutstanding(Continue(cleared, [Load(c, id)]), id);
    } else {
      var second := Next(first, GoOn(f));
      assert second.fetches[n] == Fetch(id, Pending, false) && second.loading == map[] && second.protocols == map[];
      var third := Next(second, Load(c + 1, id));
      assert third.fetches == second.fetches + [Fetch(id, Pending, false)];
      assert Outstanding(third, id, n) && Outstanding(third, id, n + 1);
      OneMore(cleared, [Load(c, id)], GoOn(f));
      OneMore(cleared, [Load(c, id)] + [GoOn(f)], Load(c + 1, id));
      var more := [Load(c, id)] + [GoOn(f)] + [Load(c + 1, id)];
      assert NeverClears(more) && TwoOutstanding(Continue(cleared, more), id);
    }
  }

  lemma OneMore(s: Registry, steps: seq<Step>, step: Step)
    ensures Continue(s, steps + [step]) == Next(Continue(s, steps), step)
  {
    assert (steps + [step])[..|steps|] == steps;
  }
}
