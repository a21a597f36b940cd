/**
 * SAML sessions and logout operations: each is stored under its own id and listed under its
 * NameID, and the lists are edited in place.
 */
module SamlIndex {
  import opened Wrappers

  // ------------------------------------------------------------------ the index

  /** `owner` gives the NameID of every live id, `lists` the ids listed under every NameID. */
  datatype Index = Index(owner: map<string, string>, lists: map<string, seq<string>>)

  const EMPTY := Index(map[], map[])

  function Listed(x: Index, nameId: string): seq<string> {
    if nameId in x.lists then x.lists[nameId] else []
  }

  function RemoveFirst(ids: seq<string>, id: string): seq<string> {
    if ids == [] then []
    else if ids[0] == id then ids[1..]
    else [ids[0]] + RemoveFirst(ids[1..], id)
  }

  function Inserted(x: Index, id: string, nameId: string): Index {
    Index(x.owner[id := nameId], x.lists[nameId := Listed(x, nameId) + [id]])
  }

  /** Sessions keep an emptied list, logout operations drop it. */
  function Removed(x: Index, id: string, dropEmpty: bool): Index {
    if id !in x.owner then x
    else
      var n := x.owner[id];
      if n !in x.lists then Index(x.owner - {id}, x.lists)
      else
        var ids := RemoveFirst(x.lists[n], id);
        Index(x.owner - {id}, if dropEmpty && ids == [] then x.lists - {n} else x.lists[n := ids])
  }

  function RemovedAll(x: Index, ids: seq<string>): Index {
    if ids == [] then x else Removed(RemovedAll(x, ids[..|ids| - 1]), ids[|ids| - 1], false)
  }

  ghost predicate Distinct(ids: seq<string>) {
    forall i, j :: 0 <= i < j < |ids| ==> ids[i] != ids[j]
  }

  /** Each live id is listed exactly once, under its own NameID and nowhere else; every listed id is live. */
  ghost predicate Agree(x: Index) {
    && (forall id :: id in x.owner ==> id in Listed(x, x.owner[id]))
    && (forall n :: n in x.lists ==> Distinct(x.lists[n]))
    && (forall n, id :: n in x.lists && id in x.lists[n] ==> id in x.owner && x.owner[id] == n)
  }

  // ------------------------------------------------------------------ sessions

  datatype Session = Session(id: string, nameId: string, sessionIndex: string, assertionId: string)

  class Plugin {
    var sessions: map<string, Session>
    var nameIDToSessions: map<string, seq<string>>

    ghost predicate Valid()
      reads this
    {
      forall id :: id in sessions ==> sessions[id].id == id
    }

    ghost function State(): Index
      reads this
    {
      Index(map id | id in sessions :: sessions[id].nameId, nameIDToSessions)
    }

    constructor ()
      ensures Valid() && State() == EMPTY
    {
      sessions := map[];
      nameIDToSessions := map[];
    }

    method Shutdown()
      modifies this
      ensures Valid() && State() == EMPTY
    {
      sessions := map[];
      nameIDToSessions := map[];
    }

    method CreateSession(session: Session)
      requires Valid()
      modifies this
      ensures Valid() && sessions == old(sessions)[session.id := session]
      ensures State() == Inserted(old(State()), session.id, session.nameId)
    {
      sessions := sessions[session.id := session];
      var listed := if session.nameId in nameIDToSessions then nameIDToSessions[session.nameId] else [];
      nameIDToSessions := nameIDToSessions[session.nameId := listed + [session.id]];
    }

    method DeleteSession(id: string)
      requires Valid()
      modifies this
      ensures Valid() && sessions == old(sessions) - {id}
      ensures State() == Removed(old(State()), id, false)
    {
      if id in sessions {
        var n := sessions[id].nameId;
        if n in nameIDToSessions {
          var ids := WithoutFirst(nameIDToSessions[n], id);
          nameIDToSessions := nameIDToSessions[n := ids];
        }
        sessions := sessions - {id};
      }
    }

    method GetSessionsByNameID(nameId: string) returns (found: seq<Session>)
      requires Valid()
      ensures |found| == |LiveIds(State(), nameId)|
      ensures forall i :: 0 <= i < |found| ==> found[i].id in sessions && found[i] == sessions[LiveIds(State(), nameId)[i]]
    {
      found := [];
      var ids := if nameId in nameIDToSessions then nameIDToSessions[nameId] else [];
      for k := 0 to |ids|
        invariant |found| == |Live(State().owner, ids[..k])|
        invariant forall i :: 0 <= i < |found| ==>
                    found[i].id in sessions && found[i] == sessions[Live(State().owner, ids[..k])[i]]
      {
        assert ids[..k + 1][..k] == ids[..k];
        if ids[k] in sessions {
          found := found + [sessions[ids[k]]];
        }
      }
      assert ids[..|ids|] == ids;
    }

    /** Logs out every session of the NameID; returns how many there were. */
    method DeleteSessionsOf(nameId: string) returns (cleared: nat)
      requires Valid()
      modifies this
      ensures Valid() && State() == RemovedAll(old(State()), LiveIds(old(State()), nameId))
      ensures cleared == |LiveIds(old(State()), nameId)|
    {
      var found := GetSessionsByNameID(nameId);
      ghost var ids := LiveIds(State(), nameId);
      for k := 0 to |found|
        invariant Valid() && State() == RemovedAll(old(State()), ids[..k])
      {
        assert ids[..k + 1][..k] == ids[..k];
        assert found[k].id == ids[k];
        DeleteSession(found[k].id);
      }
      assert ids[..|found|] == ids;
      return |found|;
    }

    method HandleDemoLogout(sessionId: string, nameId: string) returns (cleared: nat)
      requires Valid()
      modifies this
      ensures Valid()
      ensures sessionId != "" ==>
                State() == Removed(old(State()), sessionId, false) && cleared == if sessionId in old(sessions) then 1 else 0
      ensures sessionId == "" && nameId != "" ==>
                State() == RemovedAll(old(State()), LiveIds(old(State()), nameId)) && cleared == |LiveIds(old(State()), nameId)|
      ensures sessionId == "" && nameId == "" && Agree(old(State())) ==>
                && State() == Index(map[], map n | n in old(nameIDToSessions) :: [])
                && cleared == |old(sessions).Keys|
    {
      cleared := 0;
      if sessionId != "" {
        if sessionId in sessions {
          DeleteSession(sessionId);
          cleared := 1;
        }
      } else if nameId != "" {
        cleared := DeleteSessionsOf(nameId);
      } else {
        cleared := DeleteEverySession();
      }
    }

    method DeleteEverySession() returns (cleared: nat)
      requires Valid()
      modifies this
      ensures Valid()
      ensures Agree(old(State())) ==>
                && State() == Index(map[], map n | n in old(nameIDToSessions) :: [])
                && cleared == |old(sessions).Keys|
    {
      cleared := 0;
      var rest := sessions.Keys;
      while rest != {}
        invariant Valid() && rest == sessions.Keys
        invariant Agree(old(State())) ==> Agree(State()) && nameIDToSessions.Keys == old(nameIDToSessions.Keys)
        invariant cleared + |rest| == |old(sessions).Keys|
        decreases |rest|
      {
        var id :| id in rest;
        if Agree(old(State())) {
          RemovedAgrees(State(), id, false);
        }
        DeleteSession(id);
        rest := rest - {id};
        cleared := cleared + 1;
      }
      if Agree(old(State())) {
        NothingListed(State());
        assert State().owner == map[];
      }
    }
  }

  method WithoutFirst(ids: seq<string>, id: string) returns (r: seq<string>)
    ensures r == RemoveFirst(ids, id)
  {
    for i := 0 to |ids|
      invariant id !in ids[..i]
    {
      if ids[i] == id {
        RemoveFirstAt(ids, id, i);
        return ids[..i] + ids[i + 1..];
      }
    }
    RemoveFirstAbsent(ids, id);
    return ids;
  }

  /** The ids that are live, in order. */
  function Live(owner: map<string, string>, ids: seq<string>): (live: seq<string>)
    ensures forall i :: 0 <= i < |live| ==> live[i] in owner
  {
    if ids == [] then []
    else
      var n := |ids| - 1;
      if ids[n] in owner then Live(owner, ids[..n]) + [ids[n]] else Live(owner, ids[..n])
  }

  function LiveIds(x: Index, nameId: string): seq<string> {
    Live(x.owner, Listed(x, nameId))
  }

  lemma {:induction false} RemoveFirstAt(ids: seq<string>, id: string, i: nat)
    requires i < |ids| && ids[i] == id && id !in ids[..i]
    ensures RemoveFirst(ids, id) == ids[..i] + ids[i + 1..]
  {
    if i > 0 {
      assert ids[0] == ids[..i][0];
      assert ids[1..][..i - 1] == ids[..i][1..];
      RemoveFirstAt(ids[1..], id, i - 1);
      assert ids[..i] + ids[i + 1..] == [ids[0]] + (ids[1..][..i - 1] + ids[1..][i..]);
    }
  }

  lemma {:induction false} RemoveFirstAbsent(ids: seq<string>, id: string)
    requires id !in ids
    ensures RemoveFirst(ids, id) == ids
  {
    if ids != [] {
      RemoveFirstAbsent(ids[1..], id);
    }
  }

  // ------------------------------------------------------------------ logout operations

  datatype LogoutResponse = LogoutResponse(issuer: string, inResponseTo: string, success: bool, statusCode: string, statusMessage: string)

  /** Which providers are still asked, which agreed and which failed, and the verdict. */
  datatype Progress = Progress(pending: set<string>, completed: set<string>, failed: map<string, string>, complete: bool, success: bool)

  function Marked(p: Progress, entity: string, success: bool, message: string): Progress {
    var pending := p.pending - {entity};
    var completed := if success then p.completed + {entity} else p.completed;
    var failed := if success then p.failed else p.failed[entity := message];
    if pending == {} then Progress(pending, completed, failed, true, failed == map[])
    else Progress(pending, completed, failed, p.complete, p.success)
  }

  class SloState {
    const requestId: string
    const nameId: string
    var pending: set<string>
    var completed: set<string>
    var failed: map<string, string>
    var complete: bool
    var success: bool

    function Value(): Progress
      reads this
    {
      Progress(pending, completed, failed, complete, success)
    }

    constructor (requestId: string, nameId: string)
      ensures this.requestId == requestId && this.nameId == nameId && Value() == Progress({}, {}, map[], false, false)
    {
      this.requestId := requestId;
      this.nameId := nameId;
      pending := {};
      completed := {};
      failed := map[];
      complete := false;
      success := false;
    }

    method AddPendingSP(entity: string)
      modifies this
      ensures Value() == old(Value()).(pending := old(pending) + {entity})
    {
      pending := pending + {entity};
    }

    method MarkSPComplete(entity: string, ok: bool, message: string)
      modifies this
      ensures Value() == Marked(old(Value()), entity, ok, message)
    {
      pending := pending - {entity};
      if ok {
        completed := completed + {entity};
      } else {
        failed := failed[entity := message];
      }
      if |pending| == 0 {
        complete := true;
        success := |failed| == 0;
      }
    }
  }

  class SLOManager {
    var states: map<string, SloState>
    var byNameID: map<string, seq<string>>

    ghost predicate Valid()
      reads this
    {
      forall id :: id in states ==> states[id].requestId == id
    }

    ghost function State(): Index
      reads this
    {
      Index(map id | id in states :: states[id].nameId, byNameID)
    }

    constructor ()
      ensures Valid() && State() == EMPTY
    {
      states := map[];
      byNameID := map[];
    }

    method StartSLO(state: SloState)
      requires Valid()
      modifies this
      ensures Valid() && states == old(states)[state.requestId := state]
      ensures State() == Inserted(old(State()), state.requestId, state.nameId)
    {
      states := states[state.requestId := state];
      var listed := if state.nameId in byNameID then byNameID[state.nameId] else [];
      byNameID := byNameID[state.nameId := listed + [state.requestId]];
    }

    method GetStatesByNameID(nameId: string) returns (found: seq<SloState>)
      requires Valid()
      ensures |found| == |LiveIds(State(), nameId)|
      ensures forall i :: 0 <= i < |found| ==> found[i] == states[LiveIds(State(), nameId)[i]]
    {
      found := [];
      var ids := if nameId in byNameID then byNameID[nameId] else [];
      for k := 0 to |ids|
        invariant |found| == |Live(State().owner, ids[..k])|
        invariant forall i :: 0 <= i < |found| ==> found[i] == states[Live(State().owner, ids[..k])[i]]
      {
        assert ids[..k + 1][..k] == ids[..k];
        if ids[k] in states {
          found := found + [states[ids[k]]];
        }
      }
      assert ids[..|ids|] == ids;
    }

    method CompleteSLO(requestId: string) returns (state: SloState?)
      requires Valid()
      modifies this
      ensures Valid() && states == old(states) - {requestId}
      ensures state == if requestId in old(states) then old(states)[requestId] else null
      ensures State() == Removed(old(State()), requestId, true)
    {
      if requestId !in states {
        return null;
      }
      state := states[requestId];
      states := states - {requestId};
      if state.nameId in byNameID {
        var ids := WithoutFirst(byNameID[state.nameId], requestId);
        byNameID := byNameID[state.nameId := ids];
        if |ids| == 0 {
          byNameID := byNameID - {state.nameId};
        }
      }
    }

    /** A LogoutResponse: the operation it answers makes progress and is forgotten once it is complete. */
    method HandleLogoutResponse(r: LogoutResponse) returns (progress: Option<Progress>)
      requires Valid()
      modifies this, if r.inResponseTo in states then {states[r.inResponseTo]} else {}
      ensures Valid()
      ensures r.inResponseTo !in old(states) ==> progress == None && State() == old(State())
      ensures r.inResponseTo in old(states) ==>
                && progress == Some(Marked(old(states[r.inResponseTo].Value()), r.issuer, r.success, Reason(r)))
                && State() == if progress.value.complete then Removed(old(State()), r.inResponseTo, true) else old(State())
    {
      if r.inResponseTo !in states {
        return None;
      }
      var state := states[r.inResponseTo];
      state.MarkSPComplete(r.issuer, r.success, Reason(r));
      if state.complete {
        var _ := CompleteSLO(r.inResponseTo);
      }
      return Some(state.Value());
    }
  }

  function Reason(r: LogoutResponse): string {
    if r.success then "" else if r.statusMessage == "" then r.statusCode else r.statusMessage
  }

  /**
   * A LogoutRequest: the operation is tracked, and recorded as a success once every session of
   * the NameID is deleted. It stays tracked until a LogoutResponse names it.
   */
  method HandleLogoutRequest(plugin: Plugin, manager: SLOManager, requestId: string, nameId: string) returns (state: SloState)
    requires plugin.Valid() && manager.Valid()
    modifies plugin, manager
    ensures plugin.Valid() && manager.Valid()
    ensures plugin.State() == RemovedAll(old(plugin.State()), LiveIds(old(plugin.State()), nameId))
    ensures manager.State() == Inserted(old(manager.State()), requestId, nameId)
    ensures fresh(state) && state.complete && state.success
  {
    state := new SloState(requestId, nameId);
    manager.StartSLO(state);
    var _ := plugin.DeleteSessionsOf(nameId);
    state.complete := true;
    state.success := true;
  }

  // ------------------------------------------------------------------ the index agrees

  /** Inserting keeps the index in agreement exactly when the id is not already in use. */
  lemma InsertedAgreesExactly(x: Index, id: string, nameId: string)
    requires Agree(x)
    ensures Agree(Inserted(x, id, nameId)) <==> id !in x.owner
  {
    var y := Inserted(x, id, nameId);
    assert id in y.lists[nameId] by {
      assert y.lists[nameId][|Listed(x, nameId)|] == id;
    }
    if id in x.owner {
      var n := x.owner[id];
      assert id in x.lists[n];
      if n == nameId {
        var i :| 0 <= i < |x.lists[n]| && x.lists[n][i] == id;
        assert y.lists[n][i] == id && y.lists[n][|x.lists[n]|] == id;
        assert !Distinct(y.lists[n]);
      } else {
        assert id in y.lists[n] && y.owner[id] != n;
      }
    } else {
      forall k | k in y.owner ensures k in Listed(y, y.owner[k]) {
        if k != id {
          assert k in Listed(x, x.owner[k]);
        }
      }
    }
  }

  lemma {:induction false} RemoveFirstDistinct(ids: seq<string>, id: string)
    requires Distinct(ids)
    ensures Distinct(RemoveFirst(ids, id))
    ensures forall k :: k in RemoveFirst(ids, id) <==> k in ids && k != id
  {
    if ids != [] {
      assert ids == [ids[0]] + ids[1..];
      RemoveFirstDistinct(ids[1..], id);
      if ids[0] == id {
        assert id !in ids[1..];
      } else {
        PrependDistinct(ids[0], RemoveFirst(ids[1..], id));
      }
    }
  }

  lemma PrependDistinct(id: string, ids: seq<string>)
    requires Distinct(ids) && id !in ids
    ensures Distinct([id] + ids)
  {
  }

  lemma RemovedAgrees(x: Index, id: string, dropEmpty: bool)
    requires Agree(x)
    ensures Agree(Removed(x, id, dropEmpty))
  {
    if id in x.owner {
      var n := x.owner[id];
      RemoveFirstDistinct(x.lists[n], id);
      var y := Removed(x, id, dropEmpty);
      forall k | k in y.owner ensures k in Listed(y, y.owner[k]) {
        assert k in Listed(x, x.owner[k]);
      }
    }
  }

  lemma EmptyOrNot(ids: seq<string>)
    ensures ids == [] || exists id :: id in ids
  {
    if ids != [] {
      assert ids[0] in ids;
    }
  }

  lemma NothingListed(x: Index)
    requires Agree(x) && x.owner == map[]
    ensures x.lists == map n | n in x.lists :: []
  {
    assert forall id :: id !in x.owner;
    forall n | n in x.lists ensures x.lists[n] == [] {
      EmptyOrNot(x.lists[n]);
      assert forall id :: id in x.lists[n] ==> id in x.owner;
    }
  }

  // ------------------------------------------------------------------ logout

  /** No session of the NameID is left, and every other one is as it was. */
  function LoggedOut(x: Index, nameId: string): Index {
    Index(map id | id in x.owner && x.owner[id] != nameId :: x.owner[id],
          if nameId in x.lists then x.lists[nameId := []] else x.lists)
  }

  lemma {:induction false} AllLive(owner: map<string, string>, ids: seq<string>)
    requires forall id :: id in ids ==> id in owner
    ensures Live(owner, ids) == ids
  {
    if ids != [] {
      var n := |ids| - 1;
      assert ids[n] in ids;
      assert forall id :: id in ids[..n] ==> id in ids;
      AllLive(owner, ids[..n]);
    }
  }

  function Members(ids: seq<string>): set<string> {
    set id | id in ids
  }

  /** Removing the listed ids one by one, each from the front of the list. */
  lemma {:induction false} RemovedPrefix(x: Index, nameId: string, k: nat)
    requires Agree(x) && nameId in x.lists && k <= |x.lists[nameId]|
    ensures var ids := x.lists[nameId];
            RemovedAll(x, ids[..k]) == Index(x.owner - Members(ids[..k]), x.lists[nameId := ids[k..]])
  {
    var ids := x.lists[nameId];
    if k == 0 {
      assert x.lists[nameId := ids[0..]] == x.lists;
    } else {
      RemovedPrefix(x, nameId, k - 1);
      assert ids[..k][..k - 1] == ids[..k - 1];
      FrontIsFresh(ids, k - 1);
      RemoveFront(x, Members(ids[..k - 1]), nameId, ids, k - 1);
    }
  }

  lemma FrontIsFresh(ids: seq<string>, k: nat)
    requires Distinct(ids) && k < |ids|
    ensures ids[k] !in Members(ids[..k]) && Members(ids[..k + 1]) == Members(ids[..k]) + {ids[k]}
    ensures RemoveFirst(ids[k..], ids[k]) == ids[k + 1..]
  {
    assert ids[..k + 1] == ids[..k] + [ids[k]];
    assert ids[k..] == [ids[k]] + ids[k + 1..];
  }

  lemma RemoveFront(x: Index, gone: set<string>, nameId: string, ids: seq<string>, k: nat)
    requires k < |ids| && ids[k] in x.owner && x.owner[ids[k]] == nameId && ids[k] !in gone
    requires RemoveFirst(ids[k..], ids[k]) == ids[k + 1..]
    ensures Removed(Index(x.owner - gone, x.lists[nameId := ids[k..]]), ids[k], false)
            == Index(x.owner - (gone + {ids[k]}), x.lists[nameId := ids[k + 1..]])
  {
    assert x.lists[nameId := ids[k..]][nameId := ids[k + 1..]] == x.lists[nameId := ids[k + 1..]];
    assert x.owner - gone - {ids[k]} == x.owner - (gone + {ids[k]});
    hide RemoveFirst;
  }

  /** A LogoutRequest for a NameID removes exactly the sessions of that NameID. */
  lemma LogoutRemovesExactly(x: Index, nameId: string)
    requires Agree(x)
    ensures RemovedAll(x, LiveIds(x, nameId)) == LoggedOut(x, nameId)
    ensures forall id :: id in LiveIds(x, nameId) <==> id in x.owner && x.owner[id] == nameId
  {
    OwnedAreListed(x, nameId);
    AllLive(x.owner, Listed(x, nameId));
    if nameId in x.lists {
      RemovedList(x, nameId);
    } else {
      assert x.owner - Members([]) == x.owner;
    }
    hide Agree;
    hide Members;
    hide RemovedAll;
  }

  lemma RemovedList(x: Index, nameId: string)
    requires Agree(x) && nameId in x.lists
    ensures RemovedAll(x, x.lists[nameId]) == Index(x.owner - Members(x.lists[nameId]), x.lists[nameId := []])
  {
    var ids := x.lists[nameId];
    RemovedPrefix(x, nameId, |ids|);
    assert ids[..|ids|] == ids && ids[|ids|..] == [];
    hide *;
  }

  lemma OwnedAreListed(x: Index, nameId: string)
    requires Agree(x)
    ensures forall id :: id in Listed(x, nameId) <==> id in x.owner && x.owner[id] == nameId
    ensures x.owner - Members(Listed(x, nameId)) == LoggedOut(x, nameId).owner
  {
    forall id | id in x.owner && x.owner[id] == nameId ensures id in Listed(x, nameId) {
    }
  }

  lemma LoggedOutAgrees(x: Index, nameId: string)
    requires Agree(x)
    ensures Agree(LoggedOut(x, nameId))
  {
    forall id | id in x.owner && x.owner[id] != nameId ensures id in Listed(LoggedOut(x, nameId), x.owner[id]) {
      assert id in Listed(x, x.owner[id]);
    }
  }

  // ------------------------------------------------------------------ runs

  datatype Step =
    | Create(id: string, nameId: string)
    | Delete(id: string)
    | Logout(nameId: string)
    | Reset

  function Next(x: Index, step: Step, dropEmpty: bool): Index {
    match step
    case Create(id, nameId) => Inserted(x, id, nameId)
    case Delete(id) => Removed(x, id, dropEmpty)
    case Logout(nameId) => RemovedAll(x, LiveIds(x, nameId))
    case Reset => EMPTY
  }

  function Run(steps: seq<Step>, dropEmpty: bool): Index {
    if steps == [] then EMPTY else Next(Run(steps[..|steps| - 1], dropEmpty), steps[|steps| - 1], dropEmpty)
  }

  /** No step creates under an id that is live. */
  ghost predicate FreshIds(steps: seq<Step>, dropEmpty: bool) {
    forall n :: 0 <= n < |steps| && steps[n].Create? ==> steps[n].id !in Run(steps[..n], dropEmpty).owner
  }

  /** Over every run with fresh ids the index agrees with the table, for sessions and for logout operations. */
  lemma {:induction false} IndexStaysInAgreement(steps: seq<Step>, dropEmpty: bool)
    requires FreshIds(steps, dropEmpty)
    ensures Agree(Run(steps, dropEmpty))
  {
    if steps != [] {
      var n := |steps| - 1;
      assert forall i :: 0 <= i < n ==> steps[..n][..i] == steps[..i];
      IndexStaysInAgreement(steps[..n], dropEmpty);
      var x := Run(steps[..n], dropEmpty);
      hide Agree;
      hide Inserted;
      hide Removed;
      hide RemovedAll;
      match steps[n]
      case Create(id, nameId) => InsertedAgreesExactly(x, id, nameId);
      case Delete(id) => RemovedAgrees(x, id, dropEmpty);
      case Logout(nameId) =>
        LogoutRemovesExactly(x, nameId);
        LoggedOutAgrees(x, nameId);
      case Reset => assert Agree(EMPTY) by { NothingAgrees(); }
    }
  }

  lemma NothingAgrees()
    ensures Agree(EMPTY)
  {
  }

  /** A request id that is sent twice stays listed after its operation has been completed. */
  lemma RepeatedRequestStaysListed(requestId: string, nameId: string)
    ensures var x := Removed(Inserted(Inserted(EMPTY, requestId, nameId), requestId, nameId), requestId, true);
            requestId !in x.owner && x.lists == map[nameId := [requestId]]
  {
    var twice := Inserted(Inserted(EMPTY, requestId, nameId), requestId, nameId);
    assert twice.lists[nameId] == [requestId, requestId];
    assert [requestId, requestId][1..] == [requestId];
  }

  // ------------------------------------------------------------------ progress of a logout

  function Answered(p: Progress, responses: seq<LogoutResponse>): Progress {
    if responses == [] then p
    else
      var n := |responses| - 1;
      Marked(Answered(p, responses[..n]), responses[n].issuer, responses[n].success, Reason(responses[n]))
  }

  /**
   * A logout that asked `asked` is complete exactly when some response came and every asked
   * provider has answered; it is then a success exactly when no response was a failure.
   */
  lemma {:induction false} LogoutCompleteExactly(asked: set<string>, responses: seq<LogoutResponse>)
    ensures var p := Answered(Progress(asked, {}, map[], false, false), responses);
            && p.pending == asked - (set i | 0 <= i < |responses| :: responses[i].issuer)
            && (p.complete <==> responses != [] && p.pending == {})
            && (p.failed == map[] <==> forall i :: 0 <= i < |responses| ==> responses[i].success)
            && (p.complete ==> (p.success <==> forall i :: 0 <= i < |responses| ==> responses[i].success))
  {
    if responses != [] {
      var n := |responses| - 1;
      LogoutCompleteExactly(asked, responses[..n]);
      var p := Answered(Progress(asked, {}, map[], false, false), responses[..n]);
      assert forall i :: 0 <= i < n ==> responses[..n][i] == responses[i];
      assert (set i | 0 <= i < n + 1 :: responses[i].issuer) == (set i | 0 <= i < n :: responses[..n][i].issuer) + {responses[n].issuer};
      if !responses[n].success {
        assert responses[n].issuer in p.failed[responses[n].issuer := Reason(responses[n])];
      }
    }
  }
}
