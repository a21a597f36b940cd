/**
 * Overlapping logins of one user. `CreateSession` runs without a lock: it saves the session, reads
 * the list of the NameID and stores the list with the new id appended, and other logins may run
 * in between.
 */
module SamlRaces {

  /** The list a login has read, and how many logins had stored theirs by then. */
  datatype Seen = Seen(list: seq<string>, stores: nat)

  /** `finished` are the logins that have stored their list. */
  datatype Logins = Logins(sessions: set<string>, list: seq<string>, seen: map<string, Seen>, finished: set<string>, stores: nat)

  const NO_LOGINS := Logins({}, [], map[], {}, 0)

  /** Each session id belongs to one login. */
  datatype Step = Save(id: string) | ReadList(id: string) | StoreList(id: string)

  function Next(s: Logins, step: Step): Logins {
    match step
    case Save(id) => s.(sessions := s.sessions + {id})
    case ReadList(id) =>
      if id in s.sessions && id !in s.seen && id !in s.finished then s.(seen := s.seen[id := Seen(s.list, s.stores)]) else s
    case StoreList(id) =>
      if id in s.seen
      then Logins(s.sessions, s.seen[id].list + [id], s.seen - {id}, s.finished + {id}, s.stores + 1)
      else s
  }

  function Run(steps: seq<Step>): Logins {
    if steps == [] then NO_LOGINS else Next(Run(steps[..|steps| - 1]), steps[|steps| - 1])
  }

  /** No other login stored its list since this one read it. */
  predicate StoresInTime(s: Logins, step: Step) {
    step.StoreList? && step.id in s.seen ==> s.seen[step.id].stores == s.stores
  }

  /** Between the read and the store of a login no other login stores. */
  ghost predicate WithoutOverlap(steps: seq<Step>) {
    forall n :: 0 <= n < |steps| ==> StoresInTime(Run(steps[..n]), steps[n])
  }

  /** Every session whose login is over is listed under its NameID. */
  predicate AllListed(s: Logins) {
    forall id :: id in s.finished ==> id in s.list
  }

  function Ids(list: seq<string>): set<string> {
    set id | id in list
  }

  ghost predicate Inv(s: Logins) {
    && s.finished <= s.sessions && |s.finished| == s.stores && Ids(s.list) <= s.finished
    && forall id :: id in s.seen ==>
         && id in s.sessions && id !in s.finished && Ids(s.seen[id].list) <= s.finished
         && |Ids(s.seen[id].list)| <= s.seen[id].stores <= s.stores
         && (s.seen[id].stores == s.stores ==> s.seen[id].list == s.list)
  }

  lemma {:induction false} SubsetSize(a: set<string>, b: set<string>)
    requires a <= b
    ensures |a| <= |b| && (|a| == |b| ==> a == b)
    decreases |a|
  {
    if a == {} {
      assert |b| == 0 ==> b == {};
    } else {
      var x :| x in a;
      SubsetSize(a - {x}, b - {x});
      if |a| == |b| {
        assert a == (a - {x}) + {x} && b == (b - {x}) + {x};
      }
    }
  }

  lemma InvStep(s: Logins, step: Step)
    requires Inv(s)
    ensures Inv(Next(s, step))
  {
    match step
    case Save(_) =>
    case ReadList(_) => SubsetSize(Ids(s.list), s.finished);
    case StoreList(id) =>
      if id in s.seen {
        var list := s.seen[id].list;
        assert Ids(list + [id]) == Ids(list) + {id};
      }
  }

  lemma {:induction false} RunInv(steps: seq<Step>)
    ensures Inv(Run(steps))
  {
    if steps != [] {
      RunInv(steps[..|steps| - 1]);
      hide Inv;
      hide Next;
      InvStep(Run(steps[..|steps| - 1]), steps[|steps| - 1]);
    }
  }

  /** A store keeps everything listed exactly when everything was and no other store came between. */
  lemma StoreKeepsExactly(s: Logins, step: Step)
    requires Inv(s)
    ensures AllListed(Next(s, step)) <==> AllListed(s) && StoresInTime(s, step)
  {
    if step.StoreList? && step.id in s.seen {
      var seen := s.seen[step.id];
      if AllListed(Next(s, step)) {
        assert s.finished <= Ids(seen.list);
        SubsetSize(s.finished, Ids(seen.list));
      }
    }
  }

  lemma OverlapStep(steps: seq<Step>)
    requires steps != []
    ensures WithoutOverlap(steps) <==>
            WithoutOverlap(steps[..|steps| - 1]) && StoresInTime(Run(steps[..|steps| - 1]), steps[|steps| - 1])
  {
    var front := steps[..|steps| - 1];
    hide Run;
    hide StoresInTime;
    assert forall n :: 0 <= n < |front| ==> front[..n] == steps[..n] && front[n] == steps[n];
  }

  /**
   * After any interleaving of logins under one NameID, every session whose login is over is
   * listed exactly when no login stored its list between the read and the store of another.
   */
  lemma {:induction false} ListingsKeptExactly(steps: seq<Step>)
    ensures AllListed(Run(steps)) <==> WithoutOverlap(steps)
  {
    if steps != [] {
      var front, last := steps[..|steps| - 1], steps[|steps| - 1];
      ListingsKeptExactly(front);
      RunInv(front);
      OverlapStep(steps);
      StoreKeepsExactly(Run(front), last);
      hide Inv;
      hide Next;
      hide AllListed;
      hide WithoutOverlap;
      hide StoresInTime;
    }
  }

  /** Two logins at once: both sessions are live, and a logout of the NameID finds only the second. */
  lemma OverlappingLogins(a: string, b: string)
    requires a != b
    ensures var s := Run([Save(a)] + [Save(b)] + [ReadList(a)] + [ReadList(b)] + [StoreList(a)] + [StoreList(b)]);
            s.sessions == {a, b} && s.finished == {a, b} && s.list == [b]
  {
    OneStep([], Save(a));
    assert [] + [Save(a)] == [Save(a)];
    OneStep([Save(a)], Save(b));
    OneStep([Save(a)] + [Save(b)], ReadList(a));
    OneStep([Save(a)] + [Save(b)] + [ReadList(a)], ReadList(b));
    OneStep([Save(a)] + [Save(b)] + [ReadList(a)] + [ReadList(b)], StoreList(a));
    OneStep([Save(a)] + [Save(b)] + [ReadList(a)] + [ReadList(b)] + [StoreList(a)], StoreList(b));
    assert Run([]) == NO_LOGINS;
    hide Run;
  }

  lemma OneStep(steps: seq<Step>, step: Step)
    ensures Run(steps + [step]) == Next(Run(steps), step)
  {
    assert (steps + [step])[..|steps|] == steps;
  }
}
