/**
 * The rate limiter under concurrent requests. Its map has no lock, so the handler of one request
 * is a chain of separate steps, and the steps of several requests interleave.
 */
module RateLimiterRaces {
  import opened L = RateLimiter

  /** Where a request stands: `valid` is what it has pruned, `base` what it has read to append to. */
  datatype Phase = Stamped | Pruned(valid: seq<int>) | Stored | Admitted | Loaded(base: seq<int>)

  datatype Flight = Flight(time: int, phase: Phase)

  /**
   * The part of the program that concerns one key. `clock` is the last time read, which only
   * grows; `served` and `done` are the times of the accepted and of all finished requests.
   */
  datatype Cell = Cell(history: seq<int>, flights: map<nat, Flight>, clock: nat, served: seq<int>, done: seq<int>)

  const START := Cell([], map[], 0, [], [])

  datatype Step =
    | Stamp(id: nat, now: nat)
    | Prune(id: nat)
    | Store(id: nat)
    | Check(id: nat)
    | Load(id: nat)
    | Append(id: nat)

  /** A step that is not the next one of its request does nothing. */
  function Next(c: Cell, step: Step, p: Policy): Cell {
    match step
    case Stamp(id, now) =>
      if id in c.flights || now < c.clock then c
      else c.(flights := c.flights[id := Flight(now, Stamped)], clock := now)
    case _ =>
      if step.id !in c.flights then c else Advance(c, step, c.flights[step.id], p)
  }

  function Advance(c: Cell, step: Step, f: Flight, p: Policy): Cell
    requires !step.Stamp?
  {
    match (step, f.phase)
    case (Prune(id), Stamped) => Move(c, id, f, Pruned(Recent(c.history, f.time - p.window)))
    case (Store(id), Pruned(valid)) => Move(c.(history := valid), id, f, Stored)
    case (Check(id), Stored) =>
      if |c.history| >= p.limit then c.(flights := c.flights - {id}, done := c.done + [f.time])
      else Move(c.(served := c.served + [f.time]), id, f, Admitted)
    case (Load(id), Admitted) => Move(c, id, f, Loaded(c.history))
    case (Append(id), Loaded(base)) =>
      c.(history := base + [f.time], flights := c.flights - {id}, done := c.done + [f.time])
    case _ => c
  }

  function Move(c: Cell, id: nat, f: Flight, phase: Phase): Cell {
    c.(flights := c.flights[id := f.(phase := phase)])
  }

  function Run(c: Cell, steps: seq<Step>, p: Policy): Cell
    decreases |steps|
  {
    if steps == [] then c else Run(Next(c, steps[0], p), steps[1..], p)
  }

  /** In every state of the run at most `most` requests for the key are under way. */
  predicate AtMostInFlight(c: Cell, steps: seq<Step>, p: Policy, most: nat)
    decreases |steps|
  {
    |c.flights| <= most && (steps == [] || AtMostInFlight(Next(c, steps[0], p), steps[1..], p, most))
  }

  /** No request for the key starts while another one is under way. */
  predicate Apart(c: Cell, steps: seq<Step>, p: Policy)
    decreases |steps|
  {
    steps == [] || ((steps[0].Stamp? ==> c.flights == map[]) && Apart(Next(c, steps[0], p), steps[1..], p))
  }

  // ------------------------------------------------------------------ requests that do not overlap

  /** The finished requests of the key, as the uninterrupted model sees them. */
  function Requests(times: seq<int>): seq<Request> {
    seq(|times|, i requires 0 <= i < |times| => Request("", times[i]))
  }

  function Kept(done: seq<int>, p: Policy): seq<int> {
    TimesOf(L.Run(Requests(done), p), "")
  }

  function Granted(done: seq<int>, p: Policy): seq<int> {
    Accepted(Requests(done), p, "")
  }

  ghost predicate Sorted(c: Cell) {
    && (forall i, j :: 0 <= i < j < |c.done| ==> c.done[i] <= c.done[j])
    && (forall i :: 0 <= i < |c.done| ==> c.done[i] <= c.clock)
  }

  /** With no request under way the cell is what the finished requests have made, one by one. */
  ghost predicate Idle(c: Cell, p: Policy) {
    c.flights == map[] && c.history == Kept(c.done, p) && c.served == Granted(c.done, p)
  }

  /** With one request under way it is that, and as far on as the request is. */
  ghost predicate Busy(c: Cell, p: Policy, id: nat) {
    && c.flights.Keys == {id}
    && var f := c.flights[id];
       var valid := Recent(Kept(c.done, p), f.time - p.window);
       && f.time == c.clock
       && (match f.phase
           case Stamped => c.history == Kept(c.done, p) && c.served == Granted(c.done, p)
           case Pruned(v) => c.history == Kept(c.done, p) && v == valid && c.served == Granted(c.done, p)
           case Stored => c.history == valid && c.served == Granted(c.done, p)
           case Admitted => c.history == valid && |valid| < p.limit && c.served == Granted(c.done, p) + [f.time]
           case Loaded(base) => c.history == valid && base == valid && |valid| < p.limit && c.served == Granted(c.done, p) + [f.time])
  }

  ghost predicate Sequential(c: Cell, p: Policy) {
    Sorted(c) && (Idle(c, p) || exists id :: Busy(c, p, id))
  }

  lemma NextSequential(c: Cell, step: Step, p: Policy)
    requires Sequential(c, p) && (step.Stamp? ==> c.flights == map[])
    ensures Sequential(Next(c, step, p), p)
  {
    hide Kept;
    hide Granted;
    hide Recent;
    if Idle(c, p) {
      if step.Stamp? && step.now >= c.clock {
        assert Busy(Next(c, step, p), p, step.id);
      }
    } else {
      var id :| Busy(c, p, id);
      if step.id == id && !step.Stamp? {
        AdvanceSequential(c, step, p, id);
      }
    }
  }

  lemma AdvanceSequential(c: Cell, step: Step, p: Policy, id: nat)
    requires Sorted(c) && Busy(c, p, id) && step.id == id && !step.Stamp?
    ensures Sequential(Next(c, step, p), p)
  {
    hide Kept;
    hide Granted;
    hide Recent;
    var next, f := Next(c, step, p), c.flights[id];
    if next.done == c.done {
      assert Busy(next, p, id);
    } else {
      OneMoreDone(c.done, p, f.time);
      assert c.flights - {id} == map[];
      assert Idle(next, p);
    }
  }

  lemma OneMoreDone(done: seq<int>, p: Policy, time: int)
    ensures var valid := Recent(Kept(done, p), time - p.window);
            && Kept(done + [time], p) == (if |valid| < p.limit then valid + [time] else valid)
            && Granted(done + [time], p) == if |valid| < p.limit then Granted(done, p) + [time] else Granted(done, p)
  {
    hide L.Run;
    hide Accepted;
    hide Reference;
    hide Recent;
    hide After;
    var requests := Requests(done + [time]);
    assert requests[..|done|] == Requests(done);
    Unfold(requests, p, "");
    SameKeyUnfold(L.Run(Requests(done), p), Request("", time), p);
  }

  lemma {:induction false} RunSequential(c: Cell, steps: seq<Step>, p: Policy)
    requires Sequential(c, p) && Apart(c, steps, p)
    ensures Sequential(Run(c, steps, p), p)
    decreases |steps|
  {
    if steps != [] {
      hide Sequential;
      hide Next;
      NextSequential(c, steps[0], p);
      RunSequential(Next(c, steps[0], p), steps[1..], p);
    }
  }

  lemma StartSequential(p: Policy)
    ensures Sequential(START, p)
  {
    assert Requests([]) == [];
    assert Idle(START, p);
  }

  lemma SortedOrdered(c: Cell)
    requires Sorted(c)
    ensures Ordered(Requests(c.done)) && NotAfter(Requests(c.done), "", c.clock)
  {
  }

  /**
   * When the requests of a key do not overlap, no interval of one window holds more than
   * `limit` accepted ones, however the steps of other keys fall.
   */
  lemma BoundWithoutOverlap(steps: seq<Step>, p: Policy, t: int)
    requires Apart(START, steps, p)
    ensures |Within(Run(START, steps, p).served, t - p.window, t)| <= Bound(p)
  {
    hide *;
    StartSequential(p);
    RunSequential(START, steps, p);
    SequentialBound(Run(START, steps, p), p, t);
  }

  lemma SequentialBound(c: Cell, p: Policy, t: int)
    requires Sequential(c, p)
    ensures |Within(c.served, t - p.window, t)| <= Bound(p)
  {
    hide Within;
    hide Recent;
    hide Kept;
    hide Granted;
    DoneBound(c, p, t);
    if !Idle(c, p) {
      var id :| Busy(c, p, id);
      var time := c.flights[id].time;
      DoneReference(c, p, time);
      if c.served != Granted(c.done, p) {
        BoundStep(Granted(c.done, p), time, p, t);
      }
    }
  }

  lemma DoneBound(c: Cell, p: Policy, t: int)
    requires Sorted(c)
    ensures |Within(Granted(c.done, p), t - p.window, t)| <= Bound(p)
  {
    SortedOrdered(c);
    WindowBound(Requests(c.done), p, "", t);
    hide Within;
    hide Accepted;
  }

  /** What a request that comes next would keep is what the unforgetting limiter would count. */
  lemma DoneReference(c: Cell, p: Policy, time: int)
    requires Sorted(c) && c.clock <= time
    ensures Recent(Kept(c.done, p), time - p.window) == Recent(Granted(c.done, p), time - p.window)
  {
    SortedOrdered(c);
    KeptIsPruned(Requests(c.done), p, "", time);
    hide L.Run;
    hide Accepted;
    hide Reference;
    hide Recent;
  }

  /** A request that overlaps no other is decided as by a limiter that keeps everything it accepted. */
  lemma DecidedLikeReference(steps: seq<Step>, p: Policy, id: nat)
    requires Apart(START, steps, p)
    requires var c := Run(START, steps, p); id in c.flights && c.flights[id].phase == Stored
    ensures var c := Run(START, steps, p);
            |Next(c, Check(id), p).served| > |c.served| <==> ReferenceAllows(c.served, c.flights[id].time, p)
  {
    hide *;
    StartSequential(p);
    RunSequential(START, steps, p);
    SequentialDecision(Run(START, steps, p), p, id);
  }

  lemma SequentialDecision(c: Cell, p: Policy, id: nat)
    requires Sequential(c, p) && id in c.flights && c.flights[id].phase == Stored
    ensures |Next(c, Check(id), p).served| > |c.served| <==> ReferenceAllows(c.served, c.flights[id].time, p)
  {
    hide Kept;
    hide Granted;
    hide Recent;
    hide Sorted;
    var busy :| Busy(c, p, busy);
    DoneReference(c, p, c.flights[id].time);
  }

  // ------------------------------------------------------------------ requests that overlap

  /** The rest of a request that has read the clock. */
  function Rest(id: nat): seq<Step> {
    [Prune(id), Store(id), Check(id), Load(id), Append(id)]
  }

  lemma {:induction false} RunConcat(c: Cell, a: seq<Step>, b: seq<Step>, p: Policy)
    ensures Run(c, a + b, p) == Run(Run(c, a, p), b, p)
    decreases |a|
  {
    hide Next;
    if a == [] {
      assert a + b == b;
    } else {
      assert (a + b)[1..] == a[1..] + b;
      RunConcat(Next(c, a[0], p), a[1..], b, p);
    }
  }

  lemma {:induction false} InFlightConcat(c: Cell, a: seq<Step>, b: seq<Step>, p: Policy, most: nat)
    requires AtMostInFlight(c, a, p, most) && AtMostInFlight(Run(c, a, p), b, p, most)
    ensures AtMostInFlight(c, a + b, p, most)
    decreases |a|
  {
    hide Next;
    if a == [] {
      assert a + b == b;
    } else {
      assert (a + b)[1..] == a[1..] + b;
      InFlightConcat(Next(c, a[0], p), a[1..], b, p, most);
    }
  }

  /**
   * A request whose remaining steps nothing interrupts does what the one-piece model says, also
   * while other requests that have read the clock, earlier or later, are waiting.
   */
  lemma UndisturbedRequest(c: Cell, id: nat, p: Policy)
    requires id in c.flights && c.flights[id].phase == Stamped
    ensures var after, r := Run(c, Rest(id), p), Request("", c.flights[id].time);
            && after.history == TimesOf(After(map["" := c.history], r, p), "")
            && after.served == (if Allows(map["" := c.history], r, p) then c.served + [r.time] else c.served)
            && after.flights == c.flights - {id}
  {
    hide Recent;
    var f, s := c.flights[id], Rest(id);
    var valid := Recent(c.history, f.time - p.window);
    var c1 := Move(c, id, f, Pruned(valid));
    var c2 := Move(c1.(history := valid), id, c1.flights[id], Stored);
    var c3 := Next(c2, s[2], p);
    var c4 := Next(c3, s[3], p);
    var c5 := Next(c4, s[4], p);
    assert Next(c, s[0], p) == c1 && Next(c1, s[1], p) == c2;
    assert c5.flights == c.flights - {id};
    hide Next;
    assert Run(c5, s[1..][1..][1..][1..][1..], p) == c5;
    assert Run(c4, s[1..][1..][1..][1..], p) == c5;
    assert Run(c3, s[1..][1..][1..], p) == c5;
    assert Run(c2, s[1..][1..], p) == c5;
    assert Run(c1, s[1..], p) == c5;
  }

  /** One request that has pruned an empty history lets the next one prune it too, and is accepted. */
  function Relay(id: nat): seq<Step> {
    [Store(id), Stamp(id + 1, 0), Prune(id + 1), Check(id), Load(id), Append(id)]
  }

  /** Request `id`, alone under way, has pruned to nothing. */
  predicate Poised(c: Cell, id: nat) {
    c.flights == map[id := Flight(0, Pruned([]))] && c.clock == 0
  }

  lemma RelayStep(c: Cell, id: nat, p: Policy)
    requires Poised(c, id) && p.limit > 0
    ensures var after := Run(c, Relay(id), p);
            Poised(after, id + 1) && after.served == c.served + [0]
    ensures AtMostInFlight(c, Relay(id), p, 2)
  {
    var c1, c2, c3 := HandOver(c, id, p);
    var c4, c5, c6 := Finish(c3, id, p);
    assert |c.flights| <= 2;
    hide Next;
    SixSteps(c, c1, c2, c3, c4, c5, c6, Relay(id), p);
  }

  /** Request `id` stores its empty history and the next one prunes it. */
  lemma HandOver(c: Cell, id: nat, p: Policy) returns (c1: Cell, c2: Cell, c3: Cell)
    requires Poised(c, id)
    ensures c1 == Next(c, Store(id), p) && c2 == Next(c1, Stamp(id + 1, 0), p) && c3 == Next(c2, Prune(id + 1), p)
    ensures |c1.flights| <= 2 && |c2.flights| <= 2 && |c3.flights| <= 2
    ensures c3 == c.(history := [], flights := map[id := Flight(0, Stored), id + 1 := Flight(0, Pruned([]))])
  {
    c1 := c.(history := [], flights := map[id := Flight(0, Stored)]);
    c2 := c1.(flights := map[id := Flight(0, Stored), id + 1 := Flight(0, Stamped)]);
    c3 := c1.(flights := map[id := Flight(0, Stored), id + 1 := Flight(0, Pruned([]))]);
    assert |c2.flights| <= 2 && |c3.flights| <= 2 by {
      assert c2.flights.Keys == {id, id + 1} && c3.flights.Keys == {id, id + 1};
    }
  }

  /** Request `id` is accepted and appends to the empty history. */
  lemma Finish(c: Cell, id: nat, p: Policy) returns (c1: Cell, c2: Cell, c3: Cell)
    requires c.flights == map[id := Flight(0, Stored), id + 1 := Flight(0, Pruned([]))]
    requires c.history == [] && p.limit > 0 && c.clock == 0
    ensures c1 == Next(c, Check(id), p) && c2 == Next(c1, Load(id), p) && c3 == Next(c2, Append(id), p)
    ensures |c1.flights| <= 2 && |c2.flights| <= 2 && |c3.flights| <= 2
    ensures Poised(c3, id + 1) && c3.served == c.served + [0]
  {
    var f := Flight(0, Pruned([]));
    c1 := Move(c.(served := c.served + [0]), id, c.flights[id], Admitted);
    assert c1.flights == map[id := Flight(0, Admitted), id + 1 := f];
    c2 := Move(c1, id, c1.flights[id], Loaded([]));
    assert c2.flights == map[id := Flight(0, Loaded([])), id + 1 := f];
    c3 := c2.(history := [0], flights := map[id + 1 := f], done := c.done + [0]);
    assert c2.flights - {id} == c3.flights;
    AtMostTwo(c1.flights, id);
    AtMostTwo(c2.flights, id);
    AtMostTwo(c3.flights, id);
  }

  lemma AtMostTwo(flights: map<nat, Flight>, id: nat)
    requires flights.Keys <= {id, id + 1}
    ensures |flights| <= 2
  {
    assert |flights| == |flights.Keys|;
    var rest := {id, id + 1} - flights.Keys;
    assert flights.Keys + rest == {id, id + 1} && |flights.Keys + rest| == |flights.Keys| + |rest|;
  }

  lemma SixSteps(c: Cell, c1: Cell, c2: Cell, c3: Cell, c4: Cell, c5: Cell, c6: Cell, s: seq<Step>, p: Policy)
    requires |s| == 6 && Next(c, s[0], p) == c1 && Next(c1, s[1], p) == c2 && Next(c2, s[2], p) == c3
    requires Next(c3, s[3], p) == c4 && Next(c4, s[4], p) == c5 && Next(c5, s[5], p) == c6
    ensures Run(c, s, p) == c6
    ensures forall most :: |c.flights| <= most && |c1.flights| <= most && |c2.flights| <= most && |c3.flights| <= most
                           && |c4.flights| <= most && |c5.flights| <= most && |c6.flights| <= most
                           ==> AtMostInFlight(c, s, p, most)
  {
    hide Next;
    assert Run(c6, s[1..][1..][1..][1..][1..][1..], p) == c6;
    assert Run(c5, s[1..][1..][1..][1..][1..], p) == c6;
    assert Run(c4, s[1..][1..][1..][1..], p) == c6;
    assert Run(c3, s[1..][1..][1..], p) == c6;
    assert Run(c2, s[1..][1..], p) == c6;
    assert Run(c1, s[1..], p) == c6;
    forall most: nat | |c.flights| <= most && |c1.flights| <= most && |c2.flights| <= most && |c3.flights| <= most
                  && |c4.flights| <= most && |c5.flights| <= most && |c6.flights| <= most
      ensures AtMostInFlight(c, s, p, most)
    {
      assert AtMostInFlight(c6, s[1..][1..][1..][1..][1..][1..], p, most);
      assert AtMostInFlight(c5, s[1..][1..][1..][1..][1..], p, most);
      assert AtMostInFlight(c4, s[1..][1..][1..][1..], p, most);
      assert AtMostInFlight(c3, s[1..][1..][1..], p, most);
      assert AtMostInFlight(c2, s[1..][1..], p, most);
      assert AtMostInFlight(c1, s[1..], p, most);
    }
  }

  function Zeros(n: nat): (z: seq<int>)
    ensures |z| == n && forall t :: t in z ==> t == 0
  {
    if n == 0 then [] else [0] + Zeros(n - 1)
  }

  lemma {:induction false} Relays(c: Cell, id: nat, p: Policy, n: nat) returns (steps: seq<Step>)
    requires Poised(c, id) && p.limit > 0
    ensures AtMostInFlight(c, steps, p, 2)
    ensures Run(c, steps, p).served == c.served + Zeros(n)
    decreases n
  {
    if n == 0 {
      steps := [];
      assert |c.flights| == 1;
    } else {
      RelayStep(c, id, p);
      var after := Run(c, Relay(id), p);
      var rest := Relays(after, id + 1, p, n - 1);
      hide Next;
      hide Poised;
      steps := Relay(id) + rest;
      hide Relay;
      RunConcat(c, Relay(id), rest, p);
      InFlightConcat(c, Relay(id), rest, p, 2);
      assert after.served + Zeros(n - 1) == c.served + Zeros(n);
    }
  }

  lemma {:induction false} WithinAll(times: seq<int>, after: int, upTo: int)
    requires forall t :: t in times ==> after < t <= upTo
    ensures Within(times, after, upTo) == times
  {
    if times != [] {
      var n := |times| - 1;
      assert times[n] in times && forall t :: t in times[..n] ==> t in times;
      WithinAll(times[..n], after, upTo);
      assert times == times[..n] + [times[n]];
    }
  }

  /**
   * With overlapping requests there is no bound at all: for every positive limit and window,
   * any number of requests can be accepted at the same instant, although never more than two
   * are under way. Each stores the empty history it pruned over what the one before appended.
   */
  lemma OverlapExceedsAnyBound(p: Policy, n: nat) returns (steps: seq<Step>)
    requires p.limit > 0 && p.window > 0
    ensures AtMostInFlight(START, steps, p, 2)
    ensures |Within(Run(START, steps, p).served, 0 - p.window, 0)| == n
  {
    hide *;
    var c := Run(START, First(), p);
    FirstSteps(p);
    var rest := Relays(c, 0, p, n);
    steps := First() + rest;
    RunConcat(START, First(), rest, p);
    InFlightConcat(START, First(), rest, p, 2);
    assert [] + Zeros(n) == Zeros(n);
    WithinAll(Zeros(n), 0 - p.window, 0);
  }

  /** The run holds more accepted requests in some window than the limiter promises. */
  ghost predicate Exceeds(steps: seq<Step>, p: Policy, t: int) {
    |Within(Run(START, steps, p).served, t - p.window, t)| > Bound(p)
  }

  /** The bound holds of every interleaving exactly for the limiters that let nothing through or have no window. */
  lemma BoundFailsExactly(p: Policy)
    ensures (exists steps, t :: Exceeds(steps, p, t)) <==> p.limit > 0 && p.window > 0
  {
    if p.limit > 0 && p.window > 0 {
      var steps := OverlapExceedsAnyBound(p, p.limit + 1);
      assert Exceeds(steps, p, 0);
    } else {
      forall steps, t ensures !Exceeds(steps, p, t) {
        if p.limit <= 0 {
          NothingServed(START, steps, p);
          assert Within([], t - p.window, t) == [];
        } else {
          EmptyInterval(Run(START, steps, p).served, t - p.window, t);
        }
      }
    }
  }

  lemma {:induction false} NothingServed(c: Cell, steps: seq<Step>, p: Policy)
    requires p.limit <= 0
    ensures Run(c, steps, p).served == c.served
    decreases |steps|
  {
    if steps != [] {
      NothingServed(Next(c, steps[0], p), steps[1..], p);
    }
  }

  lemma {:induction false} EmptyInterval(times: seq<int>, after: int, upTo: int)
    requires upTo <= after
    ensures Within(times, after, upTo) == []
  {
    if times != [] {
      EmptyInterval(times[..|times| - 1], after, upTo);
    }
  }

  function First(): seq<Step> {
    [Stamp(0, 0), Prune(0)]
  }

  lemma FirstSteps(p: Policy)
    ensures var c := Run(START, First(), p); Poised(c, 0) && c.served == []
    ensures AtMostInFlight(START, First(), p, 2)
  {
    var s := First();
    var c1 := Cell([], map[0 := Flight(0, Stamped)], 0, [], []);
    var c2 := Cell([], map[0 := Flight(0, Pruned([]))], 0, [], []);
    assert Next(START, s[0], p) == c1 && Next(c1, s[1], p) == c2;
    hide Next;
    assert Run(c2, s[1..][1..], p) == c2 && AtMostInFlight(c2, s[1..][1..], p, 2);
    assert Run(c1, s[1..], p) == c2 && AtMostInFlight(c1, s[1..], p, 2);
  }

  // ------------------------------------------------------------------ keys

  datatype Event = Event(key: string, step: Step)

  function CellOf(cells: map<string, Cell>, key: string): Cell {
    if key in cells then cells[key] else START
  }

  function RunAll(cells: map<string, Cell>, events: seq<Event>, p: Policy): map<string, Cell>
    decreases |events|
  {
    if events == [] then cells
    else
      var e := events[0];
      RunAll(cells[e.key := Next(CellOf(cells, e.key), e.step, p)], events[1..], p)
  }

  function StepsOf(events: seq<Event>, key: string): seq<Step> {
    if events == [] then []
    else if events[0].key == key then [events[0].step] + StepsOf(events[1..], key)
    else StepsOf(events[1..], key)
  }

  /** However the requests of several keys interleave, each key fares as if it were alone. */
  lemma {:induction false} KeysDoNotInterfere(cells: map<string, Cell>, events: seq<Event>, p: Policy, key: string)
    ensures CellOf(RunAll(cells, events, p), key) == Run(CellOf(cells, key), StepsOf(events, key), p)
    decreases |events|
  {
    hide Next;
    if events != [] {
      var e := events[0];
      KeysDoNotInterfere(cells[e.key := Next(CellOf(cells, e.key), e.step, p)], events[1..], p, key);
      if e.key == key {
        assert ([e.step] + StepsOf(events[1..], key))[1..] == StepsOf(events[1..], key);
      }
    }
  }
}
