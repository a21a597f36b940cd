/** The order of the listings of sessions and logout operations, and what a logout records. */
module SamlOrder {
  import opened Wrappers
  import opened SamlIndex

  // ------------------------------------------------------------------ listings

  /** The i-th of the ids was created by step `at[i]`, under the NameID. */
  ghost predicate CreatedAt(ids: seq<string>, steps: seq<Step>, nameId: string, at: seq<nat>) {
    && |at| == |ids| && (forall i, j :: 0 <= i < j < |at| ==> at[i] < at[j])
    && forall i :: 0 <= i < |at| ==> at[i] < |steps| && steps[at[i]] == Create(ids[i], nameId)
  }

  /** The ids stand in the order of their creation. */
  ghost predicate InOrder(ids: seq<string>, steps: seq<Step>, nameId: string) {
    exists at :: CreatedAt(ids, steps, nameId, at)
  }

  lemma CutOut(ids: seq<string>, steps: seq<Step>, nameId: string, at: seq<nat>, i: nat)
    requires CreatedAt(ids, steps, nameId, at) && i < |ids|
    ensures InOrder(ids[..i] + ids[i + 1..], steps, nameId)
  {
    var rest, left := ids[..i] + ids[i + 1..], at[..i] + at[i + 1..];
    forall k | 0 <= k < |left|
      ensures left[k] == at[if k < i then k else k + 1] && rest[k] == ids[if k < i then k else k + 1]
    {
    }
    assert CreatedAt(rest, steps, nameId, left);
  }

  lemma RemoveFirstInOrder(ids: seq<string>, id: string, steps: seq<Step>, nameId: string)
    requires InOrder(ids, steps, nameId)
    ensures InOrder(RemoveFirst(ids, id), steps, nameId)
  {
    if id in ids {
      var i := FirstIndex(ids, id);
      RemoveFirstAt(ids, id, i);
      var at :| CreatedAt(ids, steps, nameId, at);
      CutOut(ids, steps, nameId, at, i);
    } else {
      RemoveFirstAbsent(ids, id);
    }
  }

  lemma {:induction false} FirstIndex(ids: seq<string>, id: string) returns (i: nat)
    requires id in ids
    ensures i < |ids| && ids[i] == id && id !in ids[..i]
  {
    i := 0;
    if ids[0] != id {
      assert ids == [ids[0]] + ids[1..];
      var j := FirstIndex(ids[1..], id);
      i := j + 1;
      assert ids[..i] == [ids[0]] + ids[1..][..j];
    }
  }

  ghost predicate AllInOrder(x: Index, steps: seq<Step>) {
    forall nameId :: InOrder(Listed(x, nameId), steps, nameId)
  }

  lemma EmptyInOrder(steps: seq<Step>, nameId: string)
    ensures InOrder([], steps, nameId)
  {
    assert CreatedAt([], steps, nameId, []);
  }

  lemma RemovedInOrder(x: Index, id: string, dropEmpty: bool, steps: seq<Step>)
    requires AllInOrder(x, steps)
    ensures AllInOrder(Removed(x, id, dropEmpty), steps)
  {
    hide InOrder;
    forall nameId ensures InOrder(Listed(Removed(x, id, dropEmpty), nameId), steps, nameId) {
      assert InOrder(Listed(x, nameId), steps, nameId);
      EmptyInOrder(steps, nameId);
      RemoveFirstInOrder(Listed(x, nameId), id, steps, nameId);
    }
  }

  lemma {:induction false} RemovedAllInOrder(x: Index, ids: seq<string>, steps: seq<Step>)
    requires AllInOrder(x, steps)
    ensures AllInOrder(RemovedAll(x, ids), steps)
  {
    hide AllInOrder;
    hide Removed;
    if ids != [] {
      var n := |ids| - 1;
      RemovedAllInOrder(x, ids[..n], steps);
      RemovedInOrder(RemovedAll(x, ids[..n]), ids[n], false, steps);
    }
  }

  lemma MoreSteps(ids: seq<string>, steps: seq<Step>, nameId: string)
    requires steps != [] && InOrder(ids, steps[..|steps| - 1], nameId)
    ensures InOrder(ids, steps, nameId)
    ensures forall id :: steps[|steps| - 1] == Create(id, nameId) ==> InOrder(ids + [id], steps, nameId)
  {
    var n := |steps| - 1;
    var at :| CreatedAt(ids, steps[..n], nameId, at);
    assert CreatedAt(ids, steps, nameId, at);
    forall id | steps[n] == Create(id, nameId) ensures InOrder(ids + [id], steps, nameId) {
      assert CreatedAt(ids + [id], steps, nameId, at + [n]);
    }
  }

  /** In every run, ids used again or not, the ids listed under a NameID stand in the order they were created under it. */
  lemma {:induction false} ListedInOrder(steps: seq<Step>, dropEmpty: bool)
    ensures AllInOrder(Run(steps, dropEmpty), steps)
  {
    if steps == [] {
      NothingInOrder(steps);
    } else {
      var n := |steps| - 1;
      var x := Run(steps[..n], dropEmpty);
      ListedInOrder(steps[..n], dropEmpty);
      OldInOrder(x, steps);
      hide AllInOrder;
      match steps[n]
      case Create(id, nameId) => InsertedInOrder(x, id, nameId, steps);
      case Delete(id) => RemovedInOrder(x, id, dropEmpty, steps);
      case Logout(nameId) => RemovedAllInOrder(x, LiveIds(x, nameId), steps);
      case Reset => NothingInOrder(steps);
      hide Run;
      hide Removed;
      hide Inserted;
      hide RemovedAll;
    }
  }

  lemma NothingInOrder(steps: seq<Step>)
    ensures AllInOrder(EMPTY, steps)
  {
    hide InOrder;
    forall nameId ensures InOrder([], steps, nameId) {
      EmptyInOrder(steps, nameId);
    }
  }

  lemma InsertedInOrder(x: Index, id: string, nameId: string, steps: seq<Step>)
    requires steps != [] && steps[|steps| - 1] == Create(id, nameId)
    requires AllInOrder(x, steps[..|steps| - 1]) && AllInOrder(x, steps)
    ensures AllInOrder(Inserted(x, id, nameId), steps)
  {
    hide InOrder;
    assert InOrder(Listed(x, nameId), steps[..|steps| - 1], nameId);
    MoreSteps(Listed(x, nameId), steps, nameId);
    forall other ensures InOrder(Listed(Inserted(x, id, nameId), other), steps, other) {
      assert InOrder(Listed(x, other), steps, other);
      assert other != nameId ==> Listed(Inserted(x, id, nameId), other) == Listed(x, other);
    }
  }

  lemma OldInOrder(x: Index, steps: seq<Step>)
    requires steps != [] && AllInOrder(x, steps[..|steps| - 1])
    ensures AllInOrder(x, steps)
  {
    hide InOrder;
    forall nameId ensures InOrder(Listed(x, nameId), steps, nameId) {
      MoreSteps(Listed(x, nameId), steps, nameId);
    }
  }

  predicate NoneEmpty(x: Index) {
    forall nameId :: nameId in x.lists ==> x.lists[nameId] != []
  }

  /** Logout operations, which are never ended by NameID, leave no empty list behind. */
  lemma {:induction false} NoEmptyLists(steps: seq<Step>)
    requires forall n :: 0 <= n < |steps| ==> !steps[n].Logout?
    ensures NoneEmpty(Run(steps, true))
  {
    if steps != [] {
      var n := |steps| - 1;
      assert forall k :: 0 <= k < n ==> steps[..n][k] == steps[k];
      NoEmptyLists(steps[..n]);
      assert !steps[n].Logout?;
    }
  }

  /** A session's NameID keeps its list, empty or not, until the plugin is shut down. */
  lemma {:induction false} ListsAreKept(steps: seq<Step>, n: nat, nameId: string)
    requires n <= |steps| && nameId in Run(steps[..n], false).lists
    requires forall k :: n <= k < |steps| ==> !steps[k].Reset?
    ensures nameId in Run(steps, false).lists
    decreases |steps|
  {
    if n < |steps| {
      var front := steps[..|steps| - 1];
      assert front[..n] == steps[..n];
      ListsAreKept(front, n, nameId);
      RemovedAllKeepsLists(Run(front, false), if steps[|front|].Logout? then LiveIds(Run(front, false), steps[|front|].nameId) else []);
    } else {
      assert steps[..n] == steps;
    }
  }

  lemma {:induction false} RemovedAllKeepsLists(x: Index, ids: seq<string>)
    ensures RemovedAll(x, ids).lists.Keys == x.lists.Keys
  {
    if ids != [] {
      RemovedAllKeepsLists(x, ids[..|ids| - 1]);
    }
  }

  // ------------------------------------------------------------------ answers

  /** No later response of the same provider is a failure. */
  ghost predicate IsLastFailure(responses: seq<LogoutResponse>, i: nat)
    requires i < |responses|
  {
    !responses[i].success
    && forall j :: i < j < |responses| ==> responses[j].issuer != responses[i].issuer || responses[j].success
  }

  /** The provider has answered this way. */
  predicate HasAnswered(responses: seq<LogoutResponse>, issuer: string, success: bool) {
    exists i :: 0 <= i < |responses| && responses[i].issuer == issuer && responses[i].success == success
  }

  lemma HasAnsweredStep(responses: seq<LogoutResponse>, issuer: string, success: bool)
    requires responses != []
    ensures var n := |responses| - 1;
            HasAnswered(responses, issuer, success) <==>
              HasAnswered(responses[..n], issuer, success) || (responses[n].issuer == issuer && responses[n].success == success)
  {
    var n := |responses| - 1;
    assert forall i :: 0 <= i < n ==> responses[..n][i] == responses[i];
  }

  /** A logout records who agreed and who did not, */
  lemma {:induction false} AnswersAreRecorded(asked: set<string>, responses: seq<LogoutResponse>, issuer: string)
    ensures var p := Answered(Progress(asked, {}, map[], false, false), responses);
            && (issuer in p.completed <==> HasAnswered(responses, issuer, true))
            && (issuer in p.failed <==> HasAnswered(responses, issuer, false))
  {
    if responses != [] {
      AnswersAreRecorded(asked, responses[..|responses| - 1], issuer);
      HasAnsweredStep(responses, issuer, true);
      HasAnsweredStep(responses, issuer, false);
      hide HasAnswered;
    }
  }

  /** with the message of the last refusal, or its code if that has none. */
  lemma {:induction false} LastRefusalIsRecorded(asked: set<string>, responses: seq<LogoutResponse>, i: nat)
    requires i < |responses| && IsLastFailure(responses, i)
    ensures var p, r := Answered(Progress(asked, {}, map[], false, false), responses), responses[i];
            r.issuer in p.failed && p.failed[r.issuer] == if r.statusMessage == "" then r.statusCode else r.statusMessage
  {
    var n := |responses| - 1;
    if i < n {
      assert responses[..n][i] == responses[i];
      assert forall j :: i < j < n ==> responses[..n][j] == responses[j];
      LastRefusalIsRecorded(asked, responses[..n], i);
      assert responses[n].issuer != responses[i].issuer || responses[n].success;
    }
  }
}
