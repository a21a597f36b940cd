/** Bulk requests (section 3.7 of RFC 7644): a sequence of operations with a bound on failures. */
module ScimBulk {
  import opened Wrappers
  import opened Json
  import opened ScimPatch
  import opened ScimResource
  import opened ScimStore

  /** `data` as each kind of operation decodes it; `None` where decoding fails. */
  datatype BulkOperation = BulkOperation(
    verb: string, bulkId: string, path: string, resource: Option<Object>, patch: Option<PatchRequest>)

  /** `version` is the entity tag of the written resource, "" when the result has none. */
  datatype BulkResult = BulkResult(verb: string, bulkId: string, status: string, version: string)

  /** The tables and the result, or no result when the operation panics. */
  datatype Executed = Executed(db: Db, result: Option<BulkResult>)

  const MAX_OPERATIONS := 1000

  /** The parts of the world a bulk request depends on: fresh ids, row order, value filters. */
  datatype World = World(uuid: nat -> string, order: RowOrder, leaf: LeafTest)

  // ------------------------------------------------------------------ one operation

  function ToUpper(s: string): string {
    seq(|s|, i requires 0 <= i < |s| => if 'a' <= s[i] <= 'z' then s[i] - 'a' + 'A' else s[i])
  }

  /** The first two segments of the path, without a leading slash. */
  function Target(path: string): (string, string) {
    var parts := Split(if "/" <= path then path[1..] else path, '/');
    (parts[0], if |parts| > 1 then parts[1] else "")
  }

  function Tag(doc: Object): string {
    match Get(doc, "meta")
    case JObject(fields) => TextOf(Get(fields, "version"))
    case _ => ""
  }

  function Execute(db: Db, op: BulkOperation, uuid: string, order: RowOrder, leaf: LeafTest): Executed {
    var (kind, id) := Target(op.path);
    var verb := ToUpper(op.verb);
    if verb == "POST" then BulkCreate(db, kind, op, uuid)
    else if verb == "PUT" then BulkReplace(db, kind, id, op)
    else if verb == "PATCH" then BulkPatch(db, kind, id, op, order, leaf)
    else if verb == "DELETE" then BulkDelete(db, kind, id, op)
    else Executed(db, Some(BulkResult(op.verb, op.bulkId, "400", "")))
  }

  function Answer(verb: string, op: BulkOperation, status: string): Option<BulkResult> {
    Some(BulkResult(verb, op.bulkId, status, ""))
  }

  function BulkCreate(db: Db, kind: string, op: BulkOperation, uuid: string): Executed {
    if kind !in {"Users", "Groups"} || op.resource.None? then Executed(db, Answer("POST", op, "400"))
    else
      var r := if kind == "Users" then CreateUser(db, op.resource.value, uuid) else CreateGroup(db, op.resource.value, uuid);
      match r.result
      case Err(_) => Executed(db, Answer("POST", op, "409"))
      case Ok(doc) => Executed(r.db, Some(BulkResult("POST", op.bulkId, "201", Tag(doc))))
  }

  function BulkReplace(db: Db, kind: string, id: string, op: BulkOperation): Executed {
    if kind !in {"Users", "Groups"} || op.resource.None? then Executed(db, Answer("PUT", op, "400"))
    else
      var r := if kind == "Users" then UpdateUser(db, id, op.resource.value, 0) else UpdateGroup(db, id, op.resource.value, 0);
      match r.result
      case Err(NotFound) => Executed(db, Answer("PUT", op, "404"))
      case Err(_) => Executed(db, Answer("PUT", op, "500"))
      case Ok(doc) => Executed(r.db, Some(BulkResult("PUT", op.bulkId, "200", Tag(doc))))
  }

  function KindOf(kind: string): Kind {
    if kind == "Users" then UserKind else GroupKind
  }

  function BulkPatch(db: Db, kind: string, id: string, op: BulkOperation, order: RowOrder, leaf: LeafTest): Executed {
    if op.patch.None? || kind !in {"Users", "Groups"} then Executed(db, Answer("PATCH", op, "400"))
    else
      var read := if kind == "Users" then GetUser(db, id) else GetGroup(db, id, order);
      match read
      case Err(_) => Executed(db, Answer("PATCH", op, "404"))
      case Ok(doc) =>
        match ApplyPatch(KindOf(kind), doc, op.patch.value, leaf)
        case Err(SliceOutOfRange) => Executed(db, None)
        case Err(_) => Executed(db, Answer("PATCH", op, "400"))
        case Ok(patched) =>
          var r := if kind == "Users" then UpdateUser(db, id, patched, 0) else UpdateGroup(db, id, patched, 0);
          match r.result
          case Err(_) => Executed(db, Answer("PATCH", op, "500"))
          case Ok(stored) => Executed(r.db, Some(BulkResult("PATCH", op.bulkId, "200", Tag(stored))))
  }

  function BulkDelete(db: Db, kind: string, id: string, op: BulkOperation): Executed {
    if kind !in {"Users", "Groups"} then Executed(db, Answer("DELETE", op, "400"))
    else
      var (after, found) := if kind == "Users" then DeleteUser(db, id) else DeleteGroup(db, id);
      Executed(after, Answer("DELETE", op, if found then "204" else "404"))
  }

  // ------------------------------------------------------------------ the whole request

  predicate IsFailure(r: BulkResult) {
    r.status != "" && r.status[0] in {'4', '5'}
  }

  /** The tables after the first operations, one by one, each on what the one before left. */
  function After(db: Db, ops: seq<BulkOperation>, w: World): Db {
    if ops == [] then db
    else
      var n := |ops| - 1;
      Execute(After(db, ops[..n], w), ops[n], w.uuid(n), w.order, w.leaf).db
  }

  /** What the n-th operation answers when all before it were run. */
  function ResultOf(db: Db, ops: seq<BulkOperation>, w: World, n: nat): Option<BulkResult>
    requires n < |ops|
  {
    Execute(After(db, ops[..n], w), ops[n], w.uuid(n), w.order, w.leaf).result
  }

  function Failures(results: seq<BulkResult>): nat {
    if results == [] then 0
    else Failures(results[..|results| - 1]) + if IsFailure(results[|results| - 1]) then 1 else 0
  }

  /** The results answer the first operations, in order. */
  ghost predicate Answers(db: Db, ops: seq<BulkOperation>, w: World, results: seq<BulkResult>) {
    |results| <= |ops| && forall i :: 0 <= i < |results| ==> ResultOf(db, ops, w, i) == Some(results[i])
  }

  /** Before each of the results fewer than `bound` had failed. */
  ghost predicate BelowBound(results: seq<BulkResult>, bound: int) {
    forall i :: 0 <= i < |results| ==> Failures(results[..i]) < bound
  }

  /** `Panicked` names how many operations had been completed. */
  datatype BulkResponse = TooMany | Panicked(completed: nat) | Responded(results: seq<BulkResult>)

  class BulkHandler {
    const storage: Storage
    const leaf: LeafTest

    constructor (storage: Storage, leaf: LeafTest)
      ensures this.storage == storage && this.leaf == leaf
    {
      this.storage := storage;
      this.leaf := leaf;
    }

    /**
     * Results answer a prefix of the operations, and the tables are those after that prefix.
     * With a positive bound the request stops right after the failing operation that reaches
     * it; otherwise, and while the bound is not reached, all operations are run.
     */
    method Handle(ops: seq<BulkOperation>, failOnErrors: int, uuid: nat -> string) returns (r: BulkResponse)
      modifies storage
      ensures var before, w := old(storage.State()), World(uuid, storage.order, leaf);
              match r
              case TooMany => |ops| > MAX_OPERATIONS && storage.State() == before
              case Panicked(n) => n < |ops| && ResultOf(before, ops, w, n).None? && storage.State() == After(before, ops[..n], w)
              case Responded(results) =>
                && |ops| <= MAX_OPERATIONS
                && Answers(before, ops, w, results)
                && storage.State() == After(before, ops[..|results|], w)
                && (failOnErrors > 0 ==> BelowBound(results, failOnErrors))
                && (|results| < |ops| ==> failOnErrors > 0 && Failures(results) == failOnErrors && IsFailure(results[|results| - 1]))
    {
      hide Execute;
      hide After;
      hide ResultOf;
      hide Failures;
      hide IsFailure;
      hide Answers;
      hide BelowBound;
      if |ops| > MAX_OPERATIONS {
        return TooMany;
      }
      ghost var before, w := storage.State(), World(uuid, storage.order, leaf);
      var results: seq<BulkResult> := [];
      var errorCount := 0;
      NothingYet(before, ops, w, failOnErrors);
      for n := 0 to |ops|
        invariant |results| == n && errorCount == Failures(results)
        invariant storage.State() == After(before, ops[..n], w)
        invariant Answers(before, ops, w, results)
        invariant failOnErrors > 0 ==> errorCount < failOnErrors && BelowBound(results, failOnErrors)
      {
        var result := ExecuteOperation(ops[n], uuid(n));
        OneMore(before, ops, w, n);
        if result.None? {
          return Panicked(n);
        }
        AppendAnswer(before, ops, w, results, result.value, failOnErrors);
        results := results + [result.value];
        if IsFailure(result.value) {
          errorCount := errorCount + 1;
          if failOnErrors > 0 && errorCount >= failOnErrors {
            return Responded(results);
          }
        }
      }
      assert ops[..|ops|] == ops;
      return Responded(results);
    }

    method ExecuteOperation(op: BulkOperation, uuid: string) returns (result: Option<BulkResult>)
      modifies storage
      ensures Executed(storage.State(), result) == Execute(old(storage.State()), op, uuid, storage.order, leaf)
    {
      var (kind, id) := Target(op.path);
      var verb := ToUpper(op.verb);
      if verb == "POST" {
        result := Create(kind, op, uuid);
      } else if verb == "PUT" {
        result := Replace(kind, id, op);
      } else if verb == "PATCH" {
        result := Patch(kind, id, op);
      } else if verb == "DELETE" {
        result := Remove(kind, id, op);
      } else {
        result := Some(BulkResult(op.verb, op.bulkId, "400", ""));
      }
    }

    method Create(kind: string, op: BulkOperation, uuid: string) returns (result: Option<BulkResult>)
      modifies storage
      ensures Executed(storage.State(), result) == BulkCreate(old(storage.State()), kind, op, uuid)
    {
      hide CreateUser;
      hide CreateGroup;
      FailedWrites(storage.State(), "", op.resource, uuid);
      if kind !in {"Users", "Groups"} || op.resource.None? {
        return Answer("POST", op, "400");
      }
      var r;
      if kind == "Users" {
        r := storage.Create(op.resource.value, uuid);
      } else {
        r := storage.CreateGroupRow(op.resource.value, uuid);
      }
      if r.Err? {
        return Answer("POST", op, "409");
      }
      return Some(BulkResult("POST", op.bulkId, "201", Tag(r.value)));
    }

    method Replace(kind: string, id: string, op: BulkOperation) returns (result: Option<BulkResult>)
      modifies storage
      ensures Executed(storage.State(), result) == BulkReplace(old(storage.State()), kind, id, op)
    {
      hide UpdateUser;
      hide UpdateGroup;
      FailedWrites(storage.State(), id, op.resource, "");
      if kind !in {"Users", "Groups"} || op.resource.None? {
        return Answer("PUT", op, "400");
      }
      var r;
      if kind == "Users" {
        r := storage.Update(id, op.resource.value, 0);
      } else {
        r := storage.UpdateGroupRow(id, op.resource.value, 0);
      }
      if r == Err(NotFound) {
        return Answer("PUT", op, "404");
      }
      if r.Err? {
        return Answer("PUT", op, "500");
      }
      return Some(BulkResult("PUT", op.bulkId, "200", Tag(r.value)));
    }

    method Patch(kind: string, id: string, op: BulkOperation) returns (result: Option<BulkResult>)
      modifies storage
      ensures Executed(storage.State(), result) == BulkPatch(old(storage.State()), kind, id, op, storage.order, leaf)
    {
      hide UpdateUser;
      hide UpdateGroup;
      hide GetUser;
      hide GetGroup;
      hide ApplyAll;
      if op.patch.None? || kind !in {"Users", "Groups"} {
        return Answer("PATCH", op, "400");
      }
      var read;
      if kind == "Users" {
        read := storage.Read(id);
      } else {
        read := storage.ReadGroup(id);
      }
      if read.Err? {
        return Answer("PATCH", op, "404");
      }
      var request := op.patch.value;
      if request.schemas != [] && request.schemas[0] != PATCH_SCHEMA {
        return Answer("PATCH", op, "400");
      }
      var executor := new PatchExecutor(KindOf(kind), read.value, leaf);
      var applied := executor.Execute(request.operations);
      if applied == Err(SliceOutOfRange) {
        return None;
      }
      if applied.Err? {
        return Answer("PATCH", op, "400");
      }
      var patched := executor.resource;
      assert ApplyPatch(KindOf(kind), read.value, request, leaf) == Ok(patched);
      FailedWrites(storage.State(), id, Some(patched), "");
      var r;
      if kind == "Users" {
        r := storage.Update(id, patched, 0);
      } else {
        r := storage.UpdateGroupRow(id, patched, 0);
      }
      if r.Err? {
        return Answer("PATCH", op, "500");
      }
      return Some(BulkResult("PATCH", op.bulkId, "200", Tag(r.value)));
    }

    method Remove(kind: string, id: string, op: BulkOperation) returns (result: Option<BulkResult>)
      modifies storage
      ensures Executed(storage.State(), result) == BulkDelete(old(storage.State()), kind, id, op)
    {
      if kind !in {"Users", "Groups"} {
        return Answer("DELETE", op, "400");
      }
      var found;
      if kind == "Users" {
        found := storage.Delete(id);
      } else {
        found := storage.DeleteGroupRow(id);
      }
      return Answer("DELETE", op, if found then "204" else "404");
    }
  }

  // ------------------------------------------------------------------ laws

  /** A storage write that fails changes no table. */
  lemma FailedWrites(db: Db, id: string, resource: Option<Object>, uuid: string)
    ensures resource.Some? ==>
      && (CreateUser(db, resource.value, uuid).result.Err? ==> CreateUser(db, resource.value, uuid).db == db)
      && (CreateGroup(db, resource.value, uuid).result.Err? ==> CreateGroup(db, resource.value, uuid).db == db)
      && (UpdateUser(db, id, resource.value, 0).result.Err? ==> UpdateUser(db, id, resource.value, 0).db == db)
      && (UpdateGroup(db, id, resource.value, 0).result.Err? ==> UpdateGroup(db, id, resource.value, 0).db == db)
  {
    hide Stamp;
    hide StampGroup;
    hide InsertMembers;
    hide ReplaceGroupRow;
    hide NameTaken;
    hide Text;
  }

  /** The tables after one more operation; an operation that panics leaves them as they were. */
  lemma OneMore(db: Db, ops: seq<BulkOperation>, w: World, n: nat)
    requires n < |ops|
    ensures var e := Execute(After(db, ops[..n], w), ops[n], w.uuid(n), w.order, w.leaf);
            && ResultOf(db, ops, w, n) == e.result
            && After(db, ops[..n + 1], w) == e.db
            && (e.result.None? ==> e.db == After(db, ops[..n], w))
  {
    hide Execute;
    assert ops[..n + 1][..n] == ops[..n];
    FailureChangesNothing(After(db, ops[..n], w), ops[n], w.uuid(n), w.order, w.leaf);
  }

  lemma NothingYet(db: Db, ops: seq<BulkOperation>, w: World, bound: int)
    ensures After(db, ops[..0], w) == db && Answers(db, ops, w, []) && BelowBound([], bound) && Failures([]) == 0
  {
  }

  lemma AppendAnswer(db: Db, ops: seq<BulkOperation>, w: World, results: seq<BulkResult>, r: BulkResult, bound: int)
    requires Answers(db, ops, w, results) && |results| < |ops|
    requires ResultOf(db, ops, w, |results|) == Some(r)
    ensures Answers(db, ops, w, results + [r])
    ensures Failures(results + [r]) == Failures(results) + if IsFailure(r) then 1 else 0
    ensures BelowBound(results, bound) && Failures(results) < bound ==> BelowBound(results + [r], bound)
    ensures (results + [r])[|results + [r]| - 1] == r
  {
    hide ResultOf;
    hide IsFailure;
    var more := results + [r];
    assert more[..|results|] == results;
    assert forall i :: 0 <= i < |results| ==> more[..i] == results[..i];
  }

  /** A failing operation contributes no change: a PATCH that fails midway writes nothing. */
  lemma FailureChangesNothing(db: Db, op: BulkOperation, uuid: string, order: RowOrder, leaf: LeafTest)
    ensures var e := Execute(db, op, uuid, order, leaf);
            e.result.None? || IsFailure(e.result.value) ==> e.db == db
  {
    hide CreateUser;
    hide CreateGroup;
    hide UpdateUser;
    hide UpdateGroup;
    hide ApplyPatch;
    hide GetUser;
    hide GetGroup;
    hide Target;
  }

  lemma ExecuteConsistent(db: Db, op: BulkOperation, uuid: string, order: RowOrder, leaf: LeafTest)
    requires Consistent(db)
    ensures Consistent(Execute(db, op, uuid, order, leaf).db)
  {
    var (kind, id) := Target(op.path);
    hide Consistent;
    hide CreateUser;
    hide CreateGroup;
    hide UpdateUser;
    hide UpdateGroup;
    hide ApplyPatch;
    hide GetUser;
    hide GetGroup;
    hide Target;
    if op.resource.Some? {
      StorageStaysConsistent(db, id, op.resource.value, uuid, 0, "");
    }
    DeletionsConsistent(db, id);
    PatchConsistent(db, kind, id, op, order, leaf);
  }

  lemma PatchConsistent(db: Db, kind: string, id: string, op: BulkOperation, order: RowOrder, leaf: LeafTest)
    requires Consistent(db)
    ensures Consistent(BulkPatch(db, kind, id, op, order, leaf).db)
  {
    hide Consistent;
    hide UpdateUser;
    hide UpdateGroup;
    hide ApplyPatch;
    hide GetUser;
    hide GetGroup;
    if op.patch.Some? {
      var read := if kind == "Users" then GetUser(db, id) else GetGroup(db, id, order);
      if read.Ok? && ApplyPatch(KindOf(kind), read.value, op.patch.value, leaf).Ok? {
        var patched := ApplyPatch(KindOf(kind), read.value, op.patch.value, leaf).value;
        UpdateUserConsistent(db, id, patched, 0);
        UpdateGroupConsistent(db, id, patched, 0);
      }
    }
  }

  /** Any number of bulk operations keeps the tables consistent. */
  lemma {:induction false} BulkStaysConsistent(db: Db, ops: seq<BulkOperation>, w: World)
    requires Consistent(db)
    ensures Consistent(After(db, ops, w))
  {
    hide Consistent;
    hide Execute;
    if ops != [] {
      var n := |ops| - 1;
      BulkStaysConsistent(db, ops[..n], w);
      ExecuteConsistent(After(db, ops[..n], w), ops[n], w.uuid(n), w.order, w.leaf);
    }
  }

  /** The operations that do not fail are all that matters: failing ones can be left out one at a time. */
  lemma SkipFailure(db: Db, ops: seq<BulkOperation>, w: World)
    requires ops != []
    ensures var r := ResultOf(db, ops, w, |ops| - 1);
            r.None? || IsFailure(r.value) ==> After(db, ops, w) == After(db, ops[..|ops| - 1], w)
  {
    var n := |ops| - 1;
    FailureChangesNothing(After(db, ops[..n], w), ops[n], w.uuid(n), w.order, w.leaf);
  }
}
