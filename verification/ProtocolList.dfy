/**
 * Loading the list of all protocols: one load asks for the list, loads each protocol through the
 * shared cache, and marks the cache as complete at the end.
 */
module ProtocolList {
  import opened Wrappers
  import opened SingleFlight

  /** A load of the list: asking for it, waiting for its protocols, done with them, or failed. */
  datatype ListLoad =
    | Asking
    | Waiting(ids: seq<string>, callers: seq<nat>)
    | Done(ids: seq<string>)
    | Failed

  /** `listing` are the ids of the load that last marked the cache complete. */
  datatype Page = Page(registry: Registry, loaded: bool, promise: Option<nat>, loads: seq<ListLoad>, listing: seq<string>)

  const NEW_PAGE := Page(EMPTY, false, None, [], [])

  datatype PageStep =
    | LoadAll
    | ListArrives(load: nat, ids: seq<string>, callers: seq<nat>)
    | Finish(load: nat)
    | Fail(load: nat)
    | Inner(step: Step)
    | ClearAll

  /** loadProtocol for each id of the list, in one turn of the event loop. */
  function LoadEach(r: Registry, ids: seq<string>, callers: seq<nat>): Registry
    requires |ids| == |callers|
    decreases |ids|
  {
    if ids == [] then r else LoadEach(SingleFlight.Next(r, Load(callers[0], ids[0])), ids[1..], callers[1..])
  }

  predicate NewCallers(r: Registry, callers: seq<nat>) {
    && (forall i :: 0 <= i < |callers| ==> callers[i] !in r.callers)
    && (forall i, j :: 0 <= i < j < |callers| ==> callers[i] != callers[j])
  }

  /** The caller's loadProtocol has returned a protocol: its fetch is done with, so the value was kept. */
  predicate Arrived(r: Registry, caller: nat) {
    caller in r.callers &&
      match r.callers[caller]
      case Has(_, _) => true
      case Awaits(_, f) => f < |r.fetches| && r.fetches[f].done && r.fetches[f].status.Resolved?
  }

  predicate Refused(r: Registry, caller: nat) {
    caller in r.callers && Answer(r, r.callers[caller]).Rejected?
  }

  predicate CanFinish(s: Page, load: nat) {
    load < |s.loads| && s.loads[load].Waiting? && forall i :: 0 <= i < |s.loads[load].callers| ==> Arrived(s.registry, s.loads[load].callers[i])
  }

  predicate CanFail(s: Page, load: nat) {
    load < |s.loads| &&
      match s.loads[load]
      case Asking => true
      case Waiting(_, callers) => exists i :: 0 <= i < |callers| && Refused(s.registry, callers[i])
      case _ => false
  }

  /** A load that was started before a clear goes on after it. */
  function NextPage(s: Page, step: PageStep): Page {
    match step
    case LoadAll =>
      var r := BeginAll(s.loaded, s.promise, s.registry.protocols, |s.loads|);
      s.(promise := PromiseAfter(r, s.promise), loads := if r == Promised(|s.loads|) then s.loads + [Asking] else s.loads)
    case ListArrives(load, ids, callers) =>
      if load < |s.loads| && s.loads[load].Asking? && |ids| == |callers| && NewCallers(s.registry, callers)
      then s.(registry := LoadEach(s.registry, ids, callers), loads := s.loads[load := Waiting(ids, callers)])
      else s
    case Finish(load) =>
      if CanFinish(s, load) then s.(loaded := true, loads := s.loads[load := Done(s.loads[load].ids)], listing := s.loads[load].ids) else s
    case Fail(load) => if CanFail(s, load) then s.(loads := s.loads[load := Failed]) else s
    case Inner(inner) => if inner.Clear? then s else s.(registry := SingleFlight.Next(s.registry, inner))
    case ClearAll => s.(registry := SingleFlight.Next(s.registry, Clear), loaded := false, promise := None)
  }

  function RunPage(steps: seq<PageStep>): Page {
    if steps == [] then NEW_PAGE else NextPage(RunPage(steps[..|steps| - 1]), steps[|steps| - 1])
  }

  predicate WithoutClear(steps: seq<PageStep>) {
    forall i :: 0 <= i < |steps| ==> steps[i] != ClearAll
  }

  /** What the callers of loadAllProtocols get once it is marked complete is complete. */
  predicate Complete(s: Page) {
    forall i :: 0 <= i < |s.listing| ==> s.listing[i] in s.registry.protocols
  }

  // ------------------------------------------------------------------ the registry under clears

  /** What a registered fetch is, and that a fetch done with is settled, in every schedule. */
  ghost predicate WellKept(r: Registry) {
    && (forall id :: id in r.loading ==> r.loading[id] < |r.fetches| && r.fetches[r.loading[id]].id == id && !r.fetches[r.loading[id]].done)
    && DoneIsSettled(r)
  }

  /** The caller waits for the id, and once its protocol has arrived the cache holds the id. */
  predicate Follows(r: Registry, caller: nat, id: string) {
    caller in r.callers &&
      match r.callers[caller]
      case Has(own, _) => own == id && id in r.protocols
      case Awaits(own, f) =>
        && own == id && f < |r.fetches| && r.fetches[f].id == id
        && (r.fetches[f].done && r.fetches[f].status.Resolved? ==> id in r.protocols)
  }

  lemma WellKeptStep(r: Registry, step: Step)
    requires WellKept(r)
    ensures WellKept(SingleFlight.Next(r, step))
  {
  }

  lemma FollowsStep(r: Registry, step: Step, caller: nat, id: string)
    requires WellKept(r) && Follows(r, caller, id) && step != Clear
    ensures Follows(SingleFlight.Next(r, step), caller, id)
  {
  }

  lemma LoadFollows(r: Registry, caller: nat, id: string)
    requires WellKept(r) && caller !in r.callers
    ensures Follows(SingleFlight.Next(r, Load(caller, id)), caller, id)
    ensures SingleFlight.Next(r, Load(caller, id)).callers.Keys == r.callers.Keys + {caller}
  {
  }

  lemma {:induction false} LoadEachKeeps(r: Registry, ids: seq<string>, callers: seq<nat>, caller: nat, id: string)
    requires |ids| == |callers| && WellKept(r)
    ensures WellKept(LoadEach(r, ids, callers)) && LoadEach(r, ids, callers).protocols == r.protocols
    ensures Follows(r, caller, id) ==> Follows(LoadEach(r, ids, callers), caller, id)
    decreases |ids|
  {
    if ids != [] {
      hide WellKept;
      hide Follows;
      var step := Load(callers[0], ids[0]);
      WellKeptStep(r, step);
      if Follows(r, caller, id) {
        FollowsStep(r, step, caller, id);
      }
      LoadEachKeeps(SingleFlight.Next(r, step), ids[1..], callers[1..], caller, id);
    }
  }

  lemma {:induction false} LoadEachFollows(r: Registry, ids: seq<string>, callers: seq<nat>, i: nat)
    requires |ids| == |callers| && WellKept(r) && NewCallers(r, callers) && i < |ids|
    ensures Follows(LoadEach(r, ids, callers), callers[i], ids[i])
    decreases |ids|
  {
    hide Follows;
    var next := SingleFlight.Next(r, Load(callers[0], ids[0]));
    WellKeptStep(r, Load(callers[0], ids[0]));
    LoadFollows(r, callers[0], ids[0]);
    hide WellKept;
    hide SingleFlight.Next;
    if i == 0 {
      LoadEachKeeps(next, ids[1..], callers[1..], callers[0], ids[0]);
    } else {
      assert NewCallers(next, callers[1..]);
      LoadEachFollows(next, ids[1..], callers[1..], i - 1);
    }
  }

  // ------------------------------------------------------------------ a load nothing was cleared under

  predicate AllFollow(r: Registry, ids: seq<string>, callers: seq<nat>) {
    |ids| == |callers| && forall i :: 0 <= i < |ids| ==> Follows(r, callers[i], ids[i])
  }

  /** The kept promise is that of a load since whose start the cache was not cleared. */
  ghost predicate PageInv(s: Page) {
    && WellKept(s.registry)
    && (s.promise.Some? ==>
          && s.promise.value < |s.loads|
          && match s.loads[s.promise.value]
             case Waiting(ids, callers) => AllFollow(s.registry, ids, callers)
             case _ => true)
  }

  lemma PageStepInv(s: Page, step: PageStep)
    requires PageInv(s)
    ensures PageInv(NextPage(s, step))
  {
    match step
    case ListArrives(load, ids, callers) =>
      if load < |s.loads| && s.loads[load].Asking? && |ids| == |callers| && NewCallers(s.registry, callers) {
        ArrivedInv(s, load, ids, callers);
      }
    case Inner(inner) =>
      if !inner.Clear? {
        InnerInv(s, inner);
      }
    case LoadAll =>
    case Finish(_) =>
    case Fail(_) =>
    case ClearAll => WellKeptStep(s.registry, Clear);
  }

  lemma InnerInv(s: Page, inner: Step)
    requires PageInv(s) && !inner.Clear?
    ensures PageInv(s.(registry := SingleFlight.Next(s.registry, inner)))
  {
    WellKeptStep(s.registry, inner);
    var next := SingleFlight.Next(s.registry, inner);
    if s.promise.Some? && s.loads[s.promise.value].Waiting? {
      var Waiting(ids, callers) := s.loads[s.promise.value];
      forall i | 0 <= i < |ids| ensures Follows(next, callers[i], ids[i]) {
        assert Follows(s.registry, callers[i], ids[i]);
        FollowsStep(s.registry, inner, callers[i], ids[i]);
      }
    }
    hide WellKept;
    hide Follows;
    hide SingleFlight.Next;
  }

  lemma ArrivedInv(s: Page, load: nat, ids: seq<string>, callers: seq<nat>)
    requires PageInv(s) && load < |s.loads| && s.loads[load].Asking? && |ids| == |callers| && NewCallers(s.registry, callers)
    ensures PageInv(NextPage(s, ListArrives(load, ids, callers)))
  {
    hide WellKept;
    hide Follows;
    hide NewCallers;
    var next := LoadEach(s.registry, ids, callers);
    LoadEachKeeps(s.registry, ids, callers, 0, "");
    forall i | 0 <= i < |ids| ensures Follows(next, callers[i], ids[i]) {
      LoadEachFollows(s.registry, ids, callers, i);
    }
    if s.promise.Some? && s.loads[s.promise.value].Waiting? {
      var Waiting(own, others) := s.loads[s.promise.value];
      forall i | 0 <= i < |own| ensures Follows(next, others[i], own[i]) {
        assert Follows(s.registry, others[i], own[i]);
        LoadEachKeeps(s.registry, ids, callers, others[i], own[i]);
      }
    }
    hide LoadEach;
  }

  lemma {:induction false} RunPageInv(steps: seq<PageStep>)
    ensures PageInv(RunPage(steps))
  {
    if steps != [] {
      RunPageInv(steps[..|steps| - 1]);
      hide PageInv;
      hide NextPage;
      PageStepInv(RunPage(steps[..|steps| - 1]), steps[|steps| - 1]);
    }
  }

  /**
   * In every schedule: when a load finishes and its promise is still the kept one, that is when
   * the cache was not cleared since it started, the cache holds every protocol of its list.
   */
  lemma CurrentListIsComplete(steps: seq<PageStep>, load: nat)
    requires var s := RunPage(steps); CanFinish(s, load) && s.promise == Some(load)
    ensures var after := NextPage(RunPage(steps), Finish(load)); after.loaded && Complete(after)
  {
    RunPageInv(steps);
    var s := RunPage(steps);
    hide RunPage;
    hide WellKept;
    var Waiting(ids, callers) := s.loads[load];
    forall i | 0 <= i < |ids| ensures ids[i] in s.registry.protocols {
      assert Follows(s.registry, callers[i], ids[i]) && Arrived(s.registry, callers[i]);
    }
  }

  // ------------------------------------------------------------------ a load the cache was cleared under

  /** The ids whose protocol was kept since the last clear. */
  function KeptSince(steps: seq<PageStep>): set<string> {
    if steps == [] then {}
    else
      var before, step := RunPage(steps[..|steps| - 1]), steps[|steps| - 1];
      var kept := KeptSince(steps[..|steps| - 1]);
      if step == ClearAll then {}
      else if step.Inner? && step.step.GoOn? && Brings(before.registry, step.step.fetch)
      then kept + {before.registry.fetches[step.step.fetch].id}
      else kept
  }

  predicate Brings(r: Registry, f: nat) {
    f < |r.fetches| && r.fetches[f].status.Resolved? && !r.fetches[f].done
  }

  /** What one step does to the set of cached ids. */
  function KeptBy(s: Page, step: PageStep): set<string> {
    if step == ClearAll then {}
    else if step.Inner? && step.step.GoOn? && Brings(s.registry, step.step.fetch)
    then s.registry.protocols.Keys + {s.registry.fetches[step.step.fetch].id}
    else s.registry.protocols.Keys
  }

  lemma CacheStep(s: Page, step: PageStep)
    requires WellKept(s.registry)
    ensures NextPage(s, step).registry.protocols.Keys == KeptBy(s, step)
  {
    hide LoadEach;
    hide CanFinish;
    hide CanFail;
    hide WellKept;
    hide NewCallers;
    match step
    case ListArrives(load, ids, callers) =>
      if |ids| == |callers| {
        LoadEachKeeps(s.registry, ids, callers, 0, "");
      }
    case _ =>
  }

  lemma {:induction false} CacheIsKeptSince(steps: seq<PageStep>)
    ensures RunPage(steps).registry.protocols.Keys == KeptSince(steps)
  {
    if steps != [] {
      var front, step := steps[..|steps| - 1], steps[|steps| - 1];
      CacheIsKeptSince(front);
      RunPageInv(front);
      assert WellKept(RunPage(front).registry);
      hide NextPage;
      hide WellKept;
      hide Brings;
      CacheStep(RunPage(front), step);
    }
  }

  /** The n-th step of the schedule kept the protocol, and the cache was not cleared after it. */
  predicate KeptAt(steps: seq<PageStep>, n: nat, id: string) {
    && n < |steps| && steps[n].Inner? && steps[n].step.GoOn?
    && Brings(RunPage(steps[..n]).registry, steps[n].step.fetch)
    && RunPage(steps[..n]).registry.fetches[steps[n].step.fetch].id == id
    && ClearAll !in steps[n..]
  }

  ghost predicate KeptAfterClear(steps: seq<PageStep>, id: string) {
    exists n :: KeptAt(steps, n, id)
  }

  lemma KeptAtLonger(steps: seq<PageStep>, step: PageStep, n: nat, id: string)
    requires n < |steps|
    ensures KeptAt(steps + [step], n, id) <==> KeptAt(steps, n, id) && step != ClearAll
  {
    assert (steps + [step])[..n] == steps[..n] && (steps + [step])[n..] == steps[n..] + [step];
    hide RunPage;
    hide Brings;
  }

  lemma {:induction false} KeptSinceIsAfterClear(steps: seq<PageStep>, id: string)
    ensures id in KeptSince(steps) <==> KeptAfterClear(steps, id)
  {
    if steps != [] {
      var last := |steps| - 1;
      var front, step := steps[..last], steps[last];
      assert steps == front + [step] && steps[last..] == [step];
      KeptSinceIsAfterClear(front, id);
      hide RunPage;
      hide Brings;
      assert id in KeptSince(steps) <==> (id in KeptSince(front) && step != ClearAll) || KeptAt(steps, last, id);
      hide KeptSince;
      forall n | 0 <= n < last ensures KeptAt(steps, n, id) <==> KeptAt(front, n, id) && step != ClearAll {
        KeptAtLonger(front, step, n, id);
      }
    }
  }

  /**
   * A load that finishes marks the cache as complete in any case; the mark is right exactly
   * when for every protocol of its list some step of the schedule kept it and no clear followed.
   */
  lemma FinishedListExactly(steps: seq<PageStep>, load: nat)
    requires CanFinish(RunPage(steps), load)
    ensures var s := RunPage(steps);
            var after := NextPage(s, Finish(load));
            && after.loaded
            && (Complete(after) <==> forall i :: 0 <= i < |s.loads[load].ids| ==> KeptAfterClear(steps, s.loads[load].ids[i]))
  {
    var s := RunPage(steps);
    CacheIsKeptSince(steps);
    hide KeptSince;
    hide RunPage;
    hide CanFail;
    hide KeptAfterClear;
    forall i | 0 <= i < |s.loads[load].ids|
      ensures s.loads[load].ids[i] in s.registry.protocols <==> KeptAfterClear(steps, s.loads[load].ids[i])
    {
      KeptSinceIsAfterClear(steps, s.loads[load].ids[i]);
    }
  }

  /**
   * Such a schedule: the cache is cleared after the first of two protocols was kept and before
   * the second arrives. The load ends all the same, and from then on the list of all protocols
   * is answered with the second one alone.
   */
  function LateSteps(): seq<PageStep> {
    [LoadAll] + [ListArrives(0, ["oidc", "saml"], [0, 1])] + [Inner(Settle(0, Resolved("a")))] + [Inner(GoOn(0))] + [ClearAll]
    + [Inner(Settle(1, Resolved("b")))] + [Inner(GoOn(1))] + [Finish(0)]
  }

  lemma OnePageStep(steps: seq<PageStep>, step: PageStep)
    ensures RunPage(steps + [step]) == NextPage(RunPage(steps), step)
  {
    assert (steps + [step])[..|steps|] == steps;
  }

  lemma LateListIsPartial(next: nat)
    ensures var s := RunPage(LateSteps());
            && s.loaded && "oidc" in s.listing
            && BeginAll(s.loaded, s.promise, s.registry.protocols, next) == Kept(map["saml" := "b"])
  {
    var s1, s2, s3, s4 := LateStart();
    var s5, s6, s7, s8 := LateEnd(s4);
    hide NextPage;
    hide LateSteps;
    var first := [LoadAll];
    var second := first + [ListArrives(0, ["oidc", "saml"], [0, 1])];
    var third := second + [Inner(Settle(0, Resolved("a")))];
    var fourth := third + [Inner(GoOn(0))];
    var fifth := fourth + [ClearAll];
    var sixth := fifth + [Inner(Settle(1, Resolved("b")))];
    var seventh := sixth + [Inner(GoOn(1))];
    OnePageStep([], LoadAll);
    assert [] + [LoadAll] == first;
    OnePageStep(first, ListArrives(0, ["oidc", "saml"], [0, 1]));
    OnePageStep(second, Inner(Settle(0, Resolved("a"))));
    OnePageStep(third, Inner(GoOn(0)));
    OnePageStep(fourth, ClearAll);
    OnePageStep(fifth, Inner(Settle(1, Resolved("b"))));
    OnePageStep(sixth, Inner(GoOn(1)));
    OnePageStep(seventh, Finish(0));
    assert RunPage([]) == NEW_PAGE;
    hide RunPage;
    assert LateSteps() == seventh + [Finish(0)] by { LateStepsAre(); }
  }

  lemma LateStepsAre()
    ensures LateSteps() == [LoadAll] + [ListArrives(0, ["oidc", "saml"], [0, 1])] + [Inner(Settle(0, Resolved("a")))] + [Inner(GoOn(0))]
                           + [ClearAll] + [Inner(Settle(1, Resolved("b")))] + [Inner(GoOn(1))] + [Finish(0)]
  {
  }

  const LATE_CALLERS := map[0 as nat := Awaits("oidc", 0), 1 := Awaits("saml", 1)]

  lemma LateStart() returns (s1: Page, s2: Page, s3: Page, s4: Page)
    ensures s1 == NextPage(NEW_PAGE, LoadAll) && s2 == NextPage(s1, ListArrives(0, ["oidc", "saml"], [0, 1]))
    ensures s3 == NextPage(s2, Inner(Settle(0, Resolved("a")))) && s4 == NextPage(s3, Inner(GoOn(0)))
    ensures s4 == Page(Registry(map["oidc" := "a"], map["saml" := 1], [Fetch("oidc", Resolved("a"), true), Fetch("saml", Pending, false)], LATE_CALLERS),
                       false, Some(0), [Waiting(["oidc", "saml"], [0, 1])], [])
  {
    s1 := Page(EMPTY, false, Some(0), [Asking], []);
    var oidc, saml := Fetch("oidc", Pending, false), Fetch("saml", Pending, false);
    TwoLoads();
    hide LoadEach;
    s2 := Page(Registry(map[], map["oidc" := 0, "saml" := 1], [oidc, saml], LATE_CALLERS), false, Some(0), [Waiting(["oidc", "saml"], [0, 1])], []);
    assert NewCallers(EMPTY, [0, 1]);
    var settled := Fetch("oidc", Resolved("a"), false);
    s3 := s2.(registry := s2.registry.(fetches := [settled, saml]));
    assert [oidc, saml][0 := settled] == [settled, saml];
    s4 := s3.(registry := Registry(map["oidc" := "a"], map["saml" := 1], [settled.(done := true), saml], LATE_CALLERS));
    assert s3.registry.loading - {"oidc"} == map["saml" := 1];
    assert [settled, saml][0 := settled.(done := true)] == [settled.(done := true), saml];
  }

  lemma TwoLoads()
    ensures LoadEach(EMPTY, ["oidc", "saml"], [0, 1])
            == Registry(map[], map["oidc" := 0, "saml" := 1], [Fetch("oidc", Pending, false), Fetch("saml", Pending, false)], LATE_CALLERS)
  {
    var ids, callers := ["oidc", "saml"], [0 as nat, 1];
    var r := Registry(map[], map["oidc" := 0], [Fetch("oidc", Pending, false)], map[0 := Awaits("oidc", 0)]);
    var t := Registry(map[], map["oidc" := 0, "saml" := 1], [Fetch("oidc", Pending, false), Fetch("saml", Pending, false)], LATE_CALLERS);
    assert SingleFlight.Next(EMPTY, Load(0, "oidc")) == r;
    assert SingleFlight.Next(r, Load(1, "saml")) == t;
    hide SingleFlight.Next;
    assert LoadEach(t, ids[1..][1..], callers[1..][1..]) == t;
    assert LoadEach(r, ids[1..], callers[1..]) == t;
  }

  lemma LateEnd(s4: Page) returns (s5: Page, s6: Page, s7: Page, s8: Page)
    requires s4 == Page(Registry(map["oidc" := "a"], map["saml" := 1], [Fetch("oidc", Resolved("a"), true), Fetch("saml", Pending, false)], LATE_CALLERS),
                        false, Some(0), [Waiting(["oidc", "saml"], [0, 1])], [])
    ensures s5 == NextPage(s4, ClearAll) && s6 == NextPage(s5, Inner(Settle(1, Resolved("b"))))
    ensures s7 == NextPage(s6, Inner(GoOn(1))) && s8 == NextPage(s7, Finish(0))
    ensures s8.loaded && s8.listing == ["oidc", "saml"] && s8.registry.protocols == map["saml" := "b"]
  {
    var oidc, saml := Fetch("oidc", Resolved("a"), true), Fetch("saml", Resolved("b"), false);
    s5 := s4.(registry := s4.registry.(protocols := map[], loading := map[]), promise := None);
    s6 := s5.(registry := s5.registry.(fetches := [oidc, saml]));
    assert s5.registry.fetches[1 := saml] == [oidc, saml];
    s7 := s6.(registry := Registry(map["saml" := "b"], map[], [oidc, saml.(done := true)], LATE_CALLERS));
    assert [oidc, saml][1 := saml.(done := true)] == [oidc, saml.(done := true)];
    assert Arrived(s7.registry, 0) && Arrived(s7.registry, 1);
    s8 := NextPage(s7, Finish(0));
  }

  // ------------------------------------------------------------------ schedules without a clear

  ghost predicate OneLoad(s: Page) {
    && |s.loads| <= 1
    && s.promise == (if s.loads == [] then None else Some(0))
    && (s.loaded <==> s.loads != [] && s.loads[0].Done?)
    && (s.loaded ==> s.listing == s.loads[0].ids && Complete(s))
    && (s.loads == [] ==> s.listing == [])
  }

  /**
   * A load fails while it asks for the list, or once the fetch of one of its protocols was
   * rejected, of the last one as of the first; then it cannot finish any more. Nothing else makes it fail.
   */
  lemma LoadFailsExactly(s: Page, load: nat)
    requires load < |s.loads|
    ensures var rejected := s.loads[load].Waiting?
                            && exists i :: 0 <= i < |s.loads[load].callers| && Refused(s.registry, s.loads[load].callers[i]);
            var next := NextPage(s, Fail(load));
            && next == (if s.loads[load] == Asking || rejected then s.(loads := s.loads[load := Failed]) else s)
            && (rejected ==> NextPage(s, Finish(load)) == s)
            && next.loads[load].Failed? == (s.loads[load] in {Asking, Failed} || rejected)
  {
    if s.loads[load].Waiting? {
      var callers := s.loads[load].callers;
      forall i | 0 <= i < |callers| && Refused(s.registry, callers[i]) ensures !Arrived(s.registry, callers[i]) {
      }
    }
  }

  /**
   * Without a clear the list is loaded at most once; when it is marked complete it is; and when
   * the load has failed it is never tried again, so the cache is never marked complete.
   */
  lemma {:induction false} ListFailureIsFinal(steps: seq<PageStep>)
    requires WithoutClear(steps)
    ensures var s := RunPage(steps);
            && |s.loads| <= 1 && (s.loaded ==> Complete(s))
            && (s.loads == [Failed] ==> !s.loaded && BeginAll(s.loaded, s.promise, s.registry.protocols, |s.loads|) == Promised(0))
    ensures OneLoad(RunPage(steps))
  {
    if steps != [] {
      var front, step := steps[..|steps| - 1], steps[|steps| - 1];
      assert WithoutClear(front);
      ListFailureIsFinal(front);
      RunPageInv(front);
      if step.Finish? && CanFinish(RunPage(front), step.load) {
        CurrentListIsComplete(front, step.load);
      }
      OneLoadStep(RunPage(front), step);
      hide OneLoad;
      hide NextPage;
    }
  }

  lemma OneLoadStep(s: Page, step: PageStep)
    requires OneLoad(s) && PageInv(s) && step != ClearAll
    requires step.Finish? && CanFinish(s, step.load) ==> Complete(NextPage(s, step))
    ensures OneLoad(NextPage(s, step))
  {
    match step
    case ListArrives(load, ids, callers) =>
      if |ids| == |callers| {
        LoadEachKeeps(s.registry, ids, callers, 0, "");
      }
      hide LoadEach;
      hide WellKept;
    case Inner(inner) => hide WellKept;
    case _ =>
      hide CanFinish;
      hide WellKept;
  }
}
