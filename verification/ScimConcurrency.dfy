/**
 * Interleavings of user requests. PUT, POST and DELETE are one storage call each; a PATCH
 * reads the user, applies its operations to the copy and writes it back in a later step.
 */
module ScimConcurrency {
  import opened Wrappers
  import opened Json
  import opened ETag
  import opened ScimPatch
  import opened ScimPatchLaws
  import opened ScimResource
  import opened ScimStore
  import Decimal

  // ------------------------------------------------------------------ single requests

  /** The version an update expects: the entity tag's, or 0 without an If-Match header. */
  function ExpectedByHeader(ifMatch: string): int {
    if ifMatch == "" then 0 else ParseETag(ifMatch).0
  }

  /** The `meta` of a patched resource: a missing one makes the handler panic. */
  datatype DecodedMeta = NoMeta | MetaTag(version: string)

  function DecodeMeta(doc: Object): DecodedMeta {
    match Get(doc, "meta")
    case JObject(fields) => MetaTag(TextOf(Get(fields, "version")))
    case _ => NoMeta
  }

  /** What a PATCH does once it has read `snapshot`. The bulk form writes without checking the version. */
  function FinishPatch(db: Db, id: string, snapshot: Object, request: PatchRequest, bulk: bool, leaf: LeafTest): (Db, nat) {
    match ApplyPatch(UserKind, snapshot, request, leaf)
    case Err(e) => (db, if e == SliceOutOfRange then 500 else 400)
    case Ok(doc) =>
      match DecodeMeta(doc)
      case NoMeta => if bulk then WritePatched(db, id, doc, 0) else (db, 500)
      case MetaTag(tag) => WritePatched(db, id, doc, if bulk then 0 else ParseETag(tag).0)
  }

  function WritePatched(db: Db, id: string, doc: Object, expected: int): (Db, nat) {
    var r := UpdateUser(db, id, doc, expected);
    (r.db, if r.result.Ok? then 200 else 500)
  }

  /** The PATCH handler when no other request runs between its read and its write. */
  function PatchUser(db: Db, id: string, request: PatchRequest, bulk: bool, leaf: LeafTest): (Db, nat) {
    match GetUser(db, id)
    case Err(_) => (db, 404)
    case Ok(doc) => FinishPatch(db, id, doc, request, bulk, leaf)
  }

  // ------------------------------------------------------------------ the system

  datatype Request =
    | Post(doc: Object, uuid: string)
    | Put(id: string, doc: Object, ifMatch: string)
    | Delete(id: string)
    | Patch(id: string, request: PatchRequest, bulk: bool)

  /** A PATCH between its read and its write. */
  datatype Pending = Pending(id: string, snapshot: Object, readVersion: int, request: PatchRequest, bulk: bool)

  datatype Step =
    | Atomic(request: Request)
    | Read(key: nat, id: string, patch: PatchRequest, bulk: bool)
    | Commit(key: nat)

  /** `used` collects every id that was ever a user. */
  datatype System = System(db: Db, pending: map<nat, Pending>, used: set<string>)

  function PostedId(r: Request): string
    requires r.Post?
  {
    if Text(r.doc, "id") == "" then r.uuid else Text(r.doc, "id")
  }

  /** One request run without interruption. */
  function Perform(db: Db, r: Request, leaf: LeafTest): Db {
    match r
    case Post(doc, uuid) => CreateUser(db, doc, uuid).db
    case Put(id, doc, ifMatch) => UpdateUser(db, id, doc, ExpectedByHeader(ifMatch)).db
    case Delete(id) => DeleteUser(db, id).0
    case Patch(id, request, bulk) => PatchUser(db, id, request, bulk, leaf).0
  }

  function Next(s: System, step: Step, leaf: LeafTest): System {
    match step
    case Atomic(r) =>
      System(Perform(s.db, r, leaf), s.pending, if r.Post? then s.used + {PostedId(r)} else s.used)
    case Read(key, id, patch, bulk) =>
      if key in s.pending || id !in s.db.users then s
      else s.(pending := s.pending[key := Pending(id, GetUser(s.db, id).value, s.db.users[id].version, patch, bulk)])
    case Commit(key) =>
      if key !in s.pending then s
      else
        var p := s.pending[key];
        System(FinishPatch(s.db, p.id, p.snapshot, p.request, p.bulk, leaf).0, s.pending - {key}, s.used)
  }

  function Run(s: System, steps: seq<Step>, leaf: LeafTest): System {
    if steps == [] then s else Next(Run(s, steps[..|steps| - 1], leaf), steps[|steps| - 1], leaf)
  }

  /** A new user does not take the id of a deleted one. */
  predicate NoReuse(s: System, step: Step) {
    step.Atomic? && step.request.Post? ==>
      PostedId(step.request) !in s.used || PostedId(step.request) in s.db.users
  }

  /** A PATCH request that leaves `meta` alone on every resource. */
  predicate Spares(request: PatchRequest) {
    forall i :: 0 <= i < |request.operations| ==> SparesMeta(request.operations[i])
  }

  /** Nothing has written the user since the PATCH read it. */
  predicate Unmoved(db: Db, p: Pending) {
    p.id in db.users && db.users[p.id].version == p.readVersion
  }

  /**
   * A commit writes nothing, or is that of a single PATCH that leaves `meta` alone, or finds the
   * version it read: only a bulk PATCH and one that names `meta` may come too late.
   */
  predicate SoundCommit(s: System, step: Step, leaf: LeafTest) {
    step.Commit? && step.key in s.pending ==>
      var p := s.pending[step.key];
      || (!p.bulk && Spares(p.request))
      || Unmoved(s.db, p)
      || FinishPatch(s.db, p.id, p.snapshot, p.request, p.bulk, leaf).1 != 200
  }

  /** The assumptions on a run: ids are not reused, and every commit is sound. */
  ghost predicate Proper(s: System, steps: seq<Step>, leaf: LeafTest) {
    forall n :: 0 <= n < |steps| ==>
      && NoReuse(Run(s, steps[..n], leaf), steps[n])
      && SoundCommit(Run(s, steps[..n], leaf), steps[n], leaf)
  }

  // ------------------------------------------------------------------ the invariant

  /** As long as the version is the one read, the document is the one read; versions only grow. */
  predicate Tracks(db: Db, p: Pending) {
    && p.readVersion >= 1
    && Get(p.snapshot, "meta") == MetaValue("User", p.readVersion)
    && IsResource(UserKind, p.snapshot)
    && (p.id in db.users ==>
          && p.readVersion <= db.users[p.id].version
          && (p.readVersion == db.users[p.id].version ==> p.snapshot == db.users[p.id].data))
  }

  ghost predicate Inv(s: System) {
    && Consistent(s.db)
    && (forall id :: id in s.db.users ==> id in s.used && Decimal.IsInt64(s.db.users[id].version))
    && (forall key :: key in s.pending ==> s.pending[key].id in s.used && Tracks(s.db, s.pending[key]))
  }

  /** Every write of a user either leaves its row alone or counts its version up by exactly one. */
  predicate RowSteps(before: Db, after: Db) {
    forall id :: id in before.users && id in after.users ==>
      after.users[id] == before.users[id] || after.users[id].version == before.users[id].version + 1
  }

  /** New rows appear only under ids of their own. */
  predicate OnlyNew(before: Db, after: Db, created: set<string>) {
    forall id :: id in after.users ==> id in before.users || id in created
  }

  lemma UpdateRowSteps(db: Db, id: string, doc: Object, expected: int)
    ensures var after := UpdateUser(db, id, doc, expected).db;
            RowSteps(db, after) && OnlyNew(db, after, {})
  {
  }

  lemma FinishRowSteps(db: Db, id: string, snapshot: Object, request: PatchRequest, bulk: bool, leaf: LeafTest)
    ensures var after := FinishPatch(db, id, snapshot, request, bulk, leaf).0;
            RowSteps(db, after) && OnlyNew(db, after, {})
    ensures Consistent(db) ==> Consistent(FinishPatch(db, id, snapshot, request, bulk, leaf).0)
  {
    hide Consistent;
    hide UpdateUser;
    hide RowSteps;
    hide OnlyNew;
    RefrainSteps(db);
    if ApplyPatch(UserKind, snapshot, request, leaf).Ok? {
      var doc := ApplyPatch(UserKind, snapshot, request, leaf).value;
      var expected := if DecodeMeta(doc).MetaTag? && !bulk then ParseETag(DecodeMeta(doc).version).0 else 0;
      UpdateRowSteps(db, id, doc, expected);
      if Consistent(db) {
        UpdateUserConsistent(db, id, doc, expected);
      }
    }
  }

  lemma RefrainSteps(db: Db)
    ensures RowSteps(db, db) && OnlyNew(db, db, {})
  {
  }

  lemma PerformSteps(db: Db, r: Request, leaf: LeafTest)
    requires Consistent(db)
    ensures var after := Perform(db, r, leaf);
            && Consistent(after)
            && RowSteps(db, after)
            && OnlyNew(db, after, if r.Post? then {PostedId(r)} else {})
  {
    hide Consistent;
    match r
    case Post(doc, uuid) => CreateUserConsistent(db, doc, uuid);
    case Put(id, doc, ifMatch) =>
      UpdateUserConsistent(db, id, doc, ExpectedByHeader(ifMatch));
      UpdateRowSteps(db, id, doc, ExpectedByHeader(ifMatch));
    case Delete(id) => DeletionsConsistent(db, id);
    case Patch(id, request, bulk) =>
      if id in db.users {
        hide FinishPatch;
        FinishRowSteps(db, id, GetUser(db, id).value, request, bulk, leaf);
      }
  }

  /** A pending PATCH stays tracked under any step that moves rows as above and reuses no id. */
  lemma TracksKept(before: Db, after: Db, p: Pending, created: set<string>)
    requires Tracks(before, p) && RowSteps(before, after) && OnlyNew(before, after, created) && p.id !in created - before.users.Keys
    ensures Tracks(after, p)
  {
  }

  /** Versions stay within the 64 bits of the program's integers. */
  ghost predicate VersionsFit(db: Db) {
    forall id :: id in db.users ==> Decimal.IsInt64(db.users[id].version)
  }

  lemma InvStep(s: System, step: Step, leaf: LeafTest)
    requires Inv(s) && NoReuse(s, step) && VersionsFit(Next(s, step, leaf).db)
    ensures Inv(Next(s, step, leaf))
    ensures RowSteps(s.db, Next(s, step, leaf).db)
  {
    hide Inv;
    match step
    case Atomic(r) => InvAtomic(s, r, leaf);
    case Read(key, id, patch, bulk) => InvRead(s, key, id, patch, bulk, leaf);
    case Commit(key) => InvCommit(s, key, leaf);
  }

  /** The invariant after a write that leaves the pending requests `pending` open. */
  lemma InvWrite(s: System, after: Db, pending: map<nat, Pending>, created: set<string>)
    requires Inv(s) && Consistent(after) && RowSteps(s.db, after) && OnlyNew(s.db, after, created) && VersionsFit(after)
    requires forall key :: key in pending ==> key in s.pending && pending[key] == s.pending[key]
    requires forall id :: id in created ==> id !in s.used || id in s.db.users
    ensures Inv(System(after, pending, s.used + created))
  {
    hide Consistent;
    UsedGrows(s.db, after, created, s.used);
    forall key | key in pending ensures Tracks(after, pending[key]) {
      TracksKept(s.db, after, s.pending[key], created);
    }
    hide RowSteps;
    hide Tracks;
  }

  lemma InvAtomic(s: System, r: Request, leaf: LeafTest)
    requires Inv(s) && NoReuse(s, Atomic(r)) && VersionsFit(Perform(s.db, r, leaf))
    ensures Inv(Next(s, Atomic(r), leaf)) && RowSteps(s.db, Perform(s.db, r, leaf))
  {
    assert Consistent(s.db);
    hide Consistent;
    PerformSteps(s.db, r, leaf);
    hide Perform;
    hide Inv;
    var created := if r.Post? then {PostedId(r)} else {};
    InvWrite(s, Perform(s.db, r, leaf), s.pending, created);
    assert s.used + {} == s.used;
  }

  lemma InvRead(s: System, key: nat, id: string, patch: PatchRequest, bulk: bool, leaf: LeafTest)
    requires Inv(s)
    ensures var next := Next(s, Read(key, id, patch, bulk), leaf); Inv(next) && RowSteps(s.db, next.db)
  {
    hide Tracks;
    hide Consistent;
    hide RowSteps;
    hide GetUser;
    RefrainSteps(s.db);
    if key !in s.pending && id in s.db.users {
      ReadTracks(s.db, id, patch, bulk);
    }
  }

  lemma InvCommit(s: System, key: nat, leaf: LeafTest)
    requires Inv(s) && VersionsFit(Next(s, Commit(key), leaf).db)
    ensures var next := Next(s, Commit(key), leaf); Inv(next) && RowSteps(s.db, next.db)
  {
    assert Consistent(s.db);
    hide Consistent;
    RefrainSteps(s.db);
    if key in s.pending {
      var p := s.pending[key];
      FinishRowSteps(s.db, p.id, p.snapshot, p.request, p.bulk, leaf);
      hide FinishPatch;
      hide Inv;
      InvWrite(s, Next(s, Commit(key), leaf).db, s.pending - {key}, {});
      assert s.used + {} == s.used;
    }
  }

  lemma UsedGrows(before: Db, after: Db, created: set<string>, used: set<string>)
    requires OnlyNew(before, after, created) && before.users.Keys <= used
    ensures after.users.Keys <= used + created
  {
  }

  lemma ReadTracks(db: Db, id: string, patch: PatchRequest, bulk: bool)
    requires Consistent(db) && id in db.users
    ensures Tracks(db, Pending(id, GetUser(db, id).value, db.users[id].version, patch, bulk))
  {
    ReadTagIsVersion(db, id);
  }

  // ------------------------------------------------------------------ no lost update

  /**
   * A PATCH that leaves `meta` alone writes either nothing at all or exactly what it would
   * have written had it run without interruption: when it commits, its operations are
   * applied to the version immediately before.
   */
  lemma NoLostUpdate(db: Db, p: Pending, leaf: LeafTest)
    requires Consistent(db) && Tracks(db, p) && !p.bulk && Spares(p.request) && Decimal.IsInt64(p.readVersion)
    ensures var (after, status) := FinishPatch(db, p.id, p.snapshot, p.request, false, leaf);
            && (status == 200 ==> (after, status) == PatchUser(db, p.id, p.request, false, leaf))
            && (status != 200 ==> after == db)
            && (status == 200 ==> p.id in db.users && p.readVersion == db.users[p.id].version
                                  && p.id in after.users && after.users[p.id].version == p.readVersion + 1)
  {
    if ApplyPatch(UserKind, p.snapshot, p.request, leaf).Ok? {
      FinishSparing(db, p, leaf);
      if p.id in db.users && p.readVersion == db.users[p.id].version {
        ReadTagIsVersion(db, p.id);
      }
      hide FinishPatch;
      hide Stamp;
      hide NameTaken;
    }
    hide Consistent;
    hide Spares;
    hide ApplyPatch;
  }

  /** A request that spares `meta` writes its result expecting the version it read. */
  lemma FinishSparing(db: Db, p: Pending, leaf: LeafTest)
    requires Get(p.snapshot, "meta") == MetaValue("User", p.readVersion) && Spares(p.request) && Decimal.IsInt64(p.readVersion)
    ensures var patched := ApplyPatch(UserKind, p.snapshot, p.request, leaf);
            patched.Ok? ==>
              && FinishPatch(db, p.id, p.snapshot, p.request, p.bulk, leaf)
                 == WritePatched(db, p.id, patched.value, if p.bulk then 0 else p.readVersion)
              && FinishPatch(db, p.id, p.snapshot, p.request, false, leaf) == WritePatched(db, p.id, patched.value, p.readVersion)
  {
    TagSettled(UserKind, "User", p.readVersion);
    if ApplyPatch(UserKind, p.snapshot, p.request, leaf).Ok? {
      RequestSparesMeta(UserKind, p.snapshot, p.request.operations, leaf);
      var doc := ApplyPatch(UserKind, p.snapshot, p.request, leaf).value;
      hide ApplyPatch;
      assert Get(doc, "meta") == MetaValue("User", p.readVersion);
      assert DecodeMeta(doc) == MetaTag(GenerateETag(p.readVersion));
      ParseInvertsGenerate(p.readVersion);
      hide ParseETag;
      hide GenerateETag;
    }
    hide WritePatched;
    hide Spares;
  }

  /** The requests of a run that took effect, in the order of their writes. */
  function Log(s: System, steps: seq<Step>, leaf: LeafTest): seq<Request> {
    if steps == [] then []
    else
      var before := Run(s, steps[..|steps| - 1], leaf);
      Log(s, steps[..|steps| - 1], leaf) + Effect(before, steps[|steps| - 1], leaf)
  }

  function Effect(s: System, step: Step, leaf: LeafTest): seq<Request> {
    match step
    case Atomic(r) => [r]
    case Read(_, _, _, _) => []
    case Commit(key) =>
      if key in s.pending && FinishPatch(s.db, s.pending[key].id, s.pending[key].snapshot, s.pending[key].request, s.pending[key].bulk, leaf).1 == 200
      then [Patch(s.pending[key].id, s.pending[key].request, s.pending[key].bulk)]
      else []
  }

  /** Requests run one after the other, each without interruption. */
  function PerformAll(db: Db, requests: seq<Request>, leaf: LeafTest): Db {
    if requests == [] then db
    else Perform(PerformAll(db, requests[..|requests| - 1], leaf), requests[|requests| - 1], leaf)
  }

  /** A step has the effect of running its logged request without interruption. */
  lemma StepIsSerial(s: System, step: Step, leaf: LeafTest)
    requires GoodState(s) && SoundCommit(s, step, leaf)
    ensures Next(s, step, leaf).db == PerformAll(s.db, Effect(s, step, leaf), leaf)
  {
    hide Consistent;
    hide Spares;
    hide FinishPatch;
    hide Tracks;
    hide Unmoved;
    match step
    case Atomic(r) =>
      assert PerformAll(s.db, [r][..0], leaf) == s.db;
    case Read(_, _, _, _) =>
    case Commit(key) =>
      if key in s.pending {
        var p := s.pending[key];
        CommitIsSerial(s.db, p, leaf);
        assert PerformAll(s.db, [Patch(p.id, p.request, p.bulk)][..0], leaf) == s.db;
      }
  }

  /** The write of a sound commit is that of the PATCH run without interruption. */
  lemma CommitIsSerial(db: Db, p: Pending, leaf: LeafTest)
    requires Consistent(db) && Tracks(db, p) && Decimal.IsInt64(p.readVersion)
    ensures var (after, status) := FinishPatch(db, p.id, p.snapshot, p.request, p.bulk, leaf);
            && (status != 200 ==> after == db)
            && (status == 200 && ((!p.bulk && Spares(p.request)) || Unmoved(db, p)) ==>
                  (after, status) == PatchUser(db, p.id, p.request, p.bulk, leaf))
  {
    if Unmoved(db, p) {
      ReadTagIsVersion(db, p.id);
    } else if !p.bulk && Spares(p.request) {
      NoLostUpdate(db, p, leaf);
    }
    FailedFinish(db, p.id, p.snapshot, p.request, p.bulk, leaf);
    hide FinishPatch;
    hide Consistent;
    hide Spares;
  }

  lemma FailedFinish(db: Db, id: string, snapshot: Object, request: PatchRequest, bulk: bool, leaf: LeafTest)
    ensures var (after, status) := FinishPatch(db, id, snapshot, request, bulk, leaf); status != 200 ==> after == db
  {
    hide ApplyPatch;
    hide ParseETag;
  }

  lemma {:induction false} PerformAllConcat(db: Db, a: seq<Request>, b: seq<Request>, leaf: LeafTest)
    ensures PerformAll(db, a + b, leaf) == PerformAll(PerformAll(db, a, leaf), b, leaf)
  {
    hide Perform;
    if b == [] {
      assert a + b == a;
    } else {
      var front := b[..|b| - 1];
      PerformAllConcat(db, a, front, leaf);
      assert (a + b)[..|a + b| - 1] == a + front;
    }
  }

  ghost predicate AllFit(s: System, steps: seq<Step>, leaf: LeafTest) {
    forall n :: 0 <= n <= |steps| ==> VersionsFit(Run(s, steps[..n], leaf).db)
  }

  ghost predicate ReadsFit(s: System) {
    forall key :: key in s.pending ==> Decimal.IsInt64(s.pending[key].readVersion)
  }

  /** What every run without reused ids keeps true. */
  ghost predicate GoodState(s: System) {
    Inv(s) && ReadsFit(s)
  }

  lemma GoodStep(s: System, step: Step, leaf: LeafTest)
    requires GoodState(s) && NoReuse(s, step) && VersionsFit(Next(s, step, leaf).db)
    ensures GoodState(Next(s, step, leaf))
  {
    hide Inv;
    hide Next;
    hide NoReuse;
    hide VersionsFit;
    InvStep(s, step, leaf);
    NextPending(s, step, leaf);
    if step.Read? && step.id in s.db.users {
      VersionOfInv(s, step.id);
    }
  }

  /** A step adds at most the PATCH it reads for. */
  lemma NextPending(s: System, step: Step, leaf: LeafTest)
    ensures var next := Next(s, step, leaf);
            forall key :: key in next.pending ==>
              || (key in s.pending && next.pending[key] == s.pending[key])
              || (step.Read? && step.id in s.db.users && next.pending[key].bulk == step.bulk
                  && next.pending[key].request == step.patch && next.pending[key].readVersion == s.db.users[step.id].version)
  {
    hide FinishPatch;
    hide Perform;
    hide GetUser;
  }

  lemma VersionOfInv(s: System, id: string)
    requires Inv(s) && id in s.db.users
    ensures Decimal.IsInt64(s.db.users[id].version)
  {
  }

  /**
   * Serializability: in every interleaving without reused ids in which every commit is sound,
   * the tables end up as if the requests that took effect had run one at a time, in the order
   * of their writes, each PATCH reading and writing at once.
   */
  lemma {:induction false} Serializable(s: System, steps: seq<Step>, leaf: LeafTest)
    requires GoodState(s) && Proper(s, steps, leaf) && AllFit(s, steps, leaf)
    ensures GoodState(Run(s, steps, leaf))
    ensures Run(s, steps, leaf).db == PerformAll(s.db, Log(s, steps, leaf), leaf)
  {
    if steps != [] {
      var front, last := steps[..|steps| - 1], steps[|steps| - 1];
      ProperPrefix(s, steps, leaf);
      Serializable(s, front, leaf);
      var before := Run(s, front, leaf);
      assert steps[..|steps|] == steps;
      hide GoodState;
      LastStep(s, steps, leaf);
      hide Next;
      hide Effect;
      hide Perform;
      PerformAllConcat(s.db, Log(s, front, leaf), Effect(before, last, leaf), leaf);
    }
  }

  lemma LastStep(s: System, steps: seq<Step>, leaf: LeafTest)
    requires steps != [] && Proper(s, steps, leaf) && AllFit(s, steps, leaf)
    requires GoodState(Run(s, steps[..|steps| - 1], leaf))
    ensures var before, last := Run(s, steps[..|steps| - 1], leaf), steps[|steps| - 1];
            GoodState(Next(before, last, leaf)) && Next(before, last, leaf).db == PerformAll(before.db, Effect(before, last, leaf), leaf)
  {
    var before, last := Run(s, steps[..|steps| - 1], leaf), steps[|steps| - 1];
    assert VersionsFit(Run(s, steps[..|steps|], leaf).db);
    assert steps[..|steps|] == steps;
    StepIsSerial(before, last, leaf);
    GoodStep(before, last, leaf);
  }

  lemma ProperPrefix(s: System, steps: seq<Step>, leaf: LeafTest)
    requires steps != [] && Proper(s, steps, leaf) && AllFit(s, steps, leaf)
    ensures Proper(s, steps[..|steps| - 1], leaf) && AllFit(s, steps[..|steps| - 1], leaf)
  {
    hide Run;
    hide NoReuse;
    hide VersionsFit;
    hide SoundCommit;
    var front := steps[..|steps| - 1];
    forall n | 0 <= n <= |front| ensures VersionsFit(Run(s, front[..n], leaf).db) {
      assert front[..n] == steps[..n];
    }
    forall n | 0 <= n < |front|
      ensures NoReuse(Run(s, front[..n], leaf), front[n]) && SoundCommit(Run(s, front[..n], leaf), front[n], leaf)
    {
      assert front[..n] == steps[..n];
    }
  }

  // ------------------------------------------------------------------ with bulk requests in between

  const START := System(EMPTY_DB, map[], {})

  /** Ids are not reused and versions fit; the PATCH requests of the run, bulk ones included, are arbitrary. */
  ghost predicate Plausible(steps: seq<Step>, leaf: LeafTest) {
    AllFit(START, steps, leaf) && forall n :: 0 <= n < |steps| ==> NoReuse(Run(START, steps[..n], leaf), steps[n])
  }

  lemma {:induction false} RunKeepsInv(steps: seq<Step>, leaf: LeafTest)
    requires Plausible(steps, leaf)
    ensures GoodState(Run(START, steps, leaf))
  {
    if steps != [] {
      var n := |steps| - 1;
      var front := steps[..n];
      PlausiblePrefix(steps, leaf);
      RunKeepsInv(front, leaf);
      var before := Run(START, front, leaf);
      assert steps[..n + 1] == steps;
      assert VersionsFit(Run(START, steps[..n + 1], leaf).db);
      GoodStep(before, steps[n], leaf);
    }
  }

  lemma PlausiblePrefix(steps: seq<Step>, leaf: LeafTest)
    requires steps != [] && Plausible(steps, leaf)
    ensures Plausible(steps[..|steps| - 1], leaf)
  {
    hide Run;
    hide NoReuse;
    hide VersionsFit;
    var front := steps[..|steps| - 1];
    forall n | 0 <= n <= |front| ensures VersionsFit(Run(START, front[..n], leaf).db) {
      assert front[..n] == steps[..n];
    }
    forall n | 0 <= n < |front| ensures NoReuse(Run(START, front[..n], leaf), front[n]) {
      assert front[..n] == steps[..n];
    }
  }

  /**
   * No lost update: in every interleaving of POST, PUT, DELETE, single and bulk PATCH without
   * reused ids, the write of a single PATCH that leaves `meta` alone either changes nothing or
   * is exactly its operations applied to the version immediately before it, as the next
   * version; and no step moves any version by more than one.
   */
  lemma EveryCommitIsSerial(steps: seq<Step>, key: nat, leaf: LeafTest)
    requires Plausible(steps, leaf) && key in Run(START, steps, leaf).pending
    requires var p := Run(START, steps, leaf).pending[key]; !p.bulk && Spares(p.request)
    requires VersionsFit(Next(Run(START, steps, leaf), Commit(key), leaf).db)
    ensures var s := Run(START, steps, leaf);
            var p, after := s.pending[key], Next(s, Commit(key), leaf).db;
            && RowSteps(s.db, after)
            && (after != s.db ==>
                  && after == PatchUser(s.db, p.id, p.request, false, leaf).0
                  && p.id in s.db.users && p.id in after.users
                  && s.db.users[p.id].version == p.readVersion
                  && after.users[p.id].version == p.readVersion + 1)
  {
    RunKeepsInv(steps, leaf);
    var s := Run(START, steps, leaf);
    hide Run;
    hide Plausible;
    InvCommit(s, key, leaf);
    NoLostUpdate(s.db, s.pending[key], leaf);
    hide FinishPatch;
    hide PatchUser;
    hide RowSteps;
    hide Consistent;
    hide Tracks;
    hide Spares;
    hide VersionsFit;
  }

  // ------------------------------------------------------------------ conditional replacement

  /**
   * PUT with the tag of a version, weak or strong, conflicts exactly when the user has another
   * version; whatever follows the number and its quote does not matter.
   */
  lemma ConditionalPut(db: Db, id: string, doc: Object, version: int, prefix: string, tail: string)
    requires id in db.users && version >= 1 && Decimal.IsInt64(version)
    requires prefix in {"W/\"", "\""} && (tail == "" || !Decimal.IsDigit(tail[0]))
    ensures UpdateUser(db, id, doc, ExpectedByHeader(prefix + (Decimal.IntText(version) + tail))).result == Err(VersionConflict)
            <==> db.users[id].version != version
  {
    TagsRead(version, tail);
    hide ParseETag;
    hide Decimal.IntText;
    hide Stamp;
    hide NameTaken;
  }

  /** Without a tag, or with one that names no version, it never does. */
  lemma UnconditionalPut(db: Db, id: string, doc: Object, ifMatch: string)
    requires !("W/\"" <= ifMatch) && !("\"" <= ifMatch)
    ensures UpdateUser(db, id, doc, ExpectedByHeader(ifMatch)).result != Err(VersionConflict)
  {
    OtherTags(ifMatch);
    hide ParseETag;
    hide Stamp;
    hide NameTaken;
  }
}
