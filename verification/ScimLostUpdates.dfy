/** Where updates get lost: the exact conditions, and runs in which they do. */
module ScimLostUpdates {
  import opened Wrappers
  import opened Json
  import opened ETag
  import opened ScimPatch
  import opened ScimPatchLaws
  import opened ScimResource
  import opened ScimStore
  import opened ScimConcurrency
  import Decimal
  import FilterLexer

  // ------------------------------------------------------------------ what a commit writes

  /** The request touches the attribute in none of its operations. */
  predicate SparesAttribute(request: PatchRequest, key: string) {
    forall i :: 0 <= i < |request.operations| ==> SparesKey(request.operations[i], key)
  }

  /** The attributes the storage layer does not write itself, nor a root `replace` keeps. */
  predicate IsOrdinary(key: string) {
    key !in {"id", "meta", "schemas", "password"}
  }

  function Committed(db: Db, p: Pending, leaf: LeafTest): (Db, nat) {
    FinishPatch(db, p.id, p.snapshot, p.request, p.bulk, leaf)
  }

  lemma StampKeeps(doc: Object, id: string, version: int, key: string)
    requires IsOrdinary(key) && IsSettled(UserKind, doc, key)
    ensures Get(Stamp(doc, id, "User", version), key) == Get(doc, key)
  {
    var sent := doc["id" := JString(id)]["meta" := MetaValue("User", version)] - {"password"};
    GetEncoded(UserKind, sent, key);
    assert Get(sent, key) == Get(doc, key);
    hide Encode;
    hide Settled;
    hide MetaValue;
  }

  /** The stored document of a user is the encoding of one. */
  lemma StampIsResource(doc: Object, id: string, version: int)
    ensures IsResource(UserKind, Stamp(doc, id, "User", version))
    ensures Get(Stamp(doc, id, "User", version), "meta") == MetaValue("User", version)
  {
    hide Encode;
    hide Settled;
    hide MetaValue;
    hide Attributes;
    hide CanDecode;
    var sent := doc["id" := JString(id)]["meta" := MetaValue("User", version)] - {"password"};
    EncodeTwice(UserKind, sent);
    GetEncoded(UserKind, sent, "meta");
    TagSettled(UserKind, "User", version);
  }

  /** A commit writes the attributes it does not touch as it had read them. */
  lemma CommitWritesSnapshot(db: Db, p: Pending, leaf: LeafTest, key: string)
    requires IsOrdinary(key) && SparesAttribute(p.request, key) && IsSettled(UserKind, p.snapshot, key)
    requires Committed(db, p, leaf).1 == 200
    ensures var after := Committed(db, p, leaf).0;
            p.id in db.users && p.id in after.users && Get(after.users[p.id].data, key) == Get(p.snapshot, key)
  {
    hide ApplyPatch;
    hide SparesAttribute;
    hide IsSettled;
    hide ParseETag;
    hide Stamp;
    hide NameTaken;
    hide Text;
    AppliedSparesKey(p.snapshot, p.request, leaf, key);
    var doc := ApplyPatch(UserKind, p.snapshot, p.request, leaf).value;
    if p.id in db.users {
      SettledAlike(p.snapshot, doc, key);
      StampKeeps(doc, p.id, db.users[p.id].version + 1, key);
    }
  }

  lemma SettledAlike(a: Object, b: Object, key: string)
    requires Get(a, key) == Get(b, key) && IsSettled(UserKind, a, key)
    ensures IsSettled(UserKind, b, key)
  {
    hide Settled;
  }

  lemma AppliedSparesKey(doc: Object, request: PatchRequest, leaf: LeafTest, key: string)
    requires IsOrdinary(key) && SparesAttribute(request, key) && IsSettled(UserKind, doc, key)
    ensures var r := ApplyPatch(UserKind, doc, request, leaf); r.Ok? ==> Get(r.value, key) == Get(doc, key)
  {
    hide ApplyAll;
    hide IsSettled;
    hide SparesKey;
    if ApplyPatch(UserKind, doc, request, leaf).Ok? {
      RequestSparesKey(UserKind, doc, request.operations, leaf, key);
    }
  }

  /**
   * Whatever kind of PATCH commits, bulk or single, and however late: an attribute it does not
   * touch keeps its current value exactly when the PATCH had read that value. Every other
   * value written in between is lost.
   */
  lemma CommitKeepsExactly(db: Db, p: Pending, leaf: LeafTest, key: string)
    requires IsOrdinary(key) && SparesAttribute(p.request, key) && IsResource(UserKind, p.snapshot)
    requires Committed(db, p, leaf).1 == 200
    ensures var after := Committed(db, p, leaf).0;
            && p.id in db.users && p.id in after.users
            && (Get(after.users[p.id].data, key) == Get(db.users[p.id].data, key)
                <==> Get(p.snapshot, key) == Get(db.users[p.id].data, key))
  {
    ResourceSettled(UserKind, p.snapshot, key);
    CommitWritesSnapshot(db, p, leaf, key);
    hide *;
  }

  /** A bulk PATCH that finds the version it read writes what it would have written uninterrupted. */
  lemma BulkPatchWithoutInterference(db: Db, p: Pending, leaf: LeafTest)
    requires Consistent(db) && Tracks(db, p) && p.bulk && Unmoved(db, p) && Decimal.IsInt64(p.readVersion)
    ensures Committed(db, p, leaf) == PatchUser(db, p.id, p.request, true, leaf)
    ensures Spares(p.request) ==> Committed(db, p, leaf) == PatchUser(db, p.id, p.request, false, leaf)
  {
    ReadTagIsVersion(db, p.id);
    if Spares(p.request) {
      FinishSparing(db, p, leaf);
    }
    CommitIsSerial(db, p, leaf);
    hide Consistent;
    hide Spares;
    hide ApplyPatch;
    hide WritePatched;
    hide ParseETag;
  }

  // ------------------------------------------------------------------ when the version check lets a commit through

  /**
   * For every tag the patched document carries: the write of a single PATCH is let through
   * exactly when no version can be read from the tag, the version read is not positive, or it
   * is the current one.
   */
  lemma VersionCheckExactly(db: Db, p: Pending, leaf: LeafTest)
    requires !p.bulk && p.id in db.users && ApplyPatch(UserKind, p.snapshot, p.request, leaf).Ok?
    requires var doc := ApplyPatch(UserKind, p.snapshot, p.request, leaf).value;
             DecodeMeta(doc).MetaTag? && !NameTaken(db, Text(doc, "userName"), Some(p.id))
    ensures var tag := DecodeMeta(ApplyPatch(UserKind, p.snapshot, p.request, leaf).value).version;
            Committed(db, p, leaf).1 == 200 <==> ParseETag(tag).0 <= 0 || ParseETag(tag).0 == db.users[p.id].version
  {
    hide ApplyPatch;
    hide ParseETag;
    hide NameTaken;
    hide Stamp;
  }

  /** What holds in every run, ids used again or not: a PATCH holds a document with the tag it read. */
  ghost predicate ReadWell(s: System) {
    && Consistent(s.db)
    && forall key :: key in s.pending ==>
         var p := s.pending[key];
         p.readVersion >= 1 && Decimal.IsInt64(p.readVersion) && Get(p.snapshot, "meta") == MetaValue("User", p.readVersion)
  }

  lemma ReadWellStep(s: System, step: Step, leaf: LeafTest)
    requires ReadWell(s) && VersionsFit(s.db)
    ensures ReadWell(Next(s, step, leaf))
  {
    match step
    case Atomic(r) =>
      assert Consistent(s.db);
      hide Consistent;
      PerformSteps(s.db, r, leaf);
      hide Perform;
    case Read(key, id, patch, bulk) =>
      if id in s.db.users {
        ReadTracks(s.db, id, patch, bulk);
      }
      hide Consistent;
      hide GetUser;
    case Commit(key) =>
      assert Consistent(s.db);
      hide Consistent;
      if key in s.pending {
        var p := s.pending[key];
        FinishRowSteps(s.db, p.id, p.snapshot, p.request, p.bulk, leaf);
      }
      hide FinishPatch;
  }

  lemma {:induction false} ReadWellRun(steps: seq<Step>, leaf: LeafTest)
    requires AllFit(START, steps, leaf)
    ensures ReadWell(Run(START, steps, leaf))
  {
    if steps == [] {
      assert ReadWell(START);
    } else {
      var n := |steps| - 1;
      var front := steps[..n];
      hide ReadWell;
      hide Next;
      hide VersionsFit;
      forall k | 0 <= k <= n ensures VersionsFit(Run(START, front[..k], leaf).db) {
        assert front[..k] == steps[..k];
      }
      ReadWellRun(front, leaf);
      assert VersionsFit(Run(START, steps[..n], leaf).db);
      ReadWellStep(Run(START, front, leaf), steps[n], leaf);
    }
  }

  /**
   * In every run, also when ids are used again: a single PATCH that leaves `meta` alone is let
   * through exactly when the row it finds has the version it read. A user deleted and created
   * again starts at version 1, so a PATCH of the old user passes once the new one gets there.
   */
  lemma StaleCommitExactly(steps: seq<Step>, key: nat, leaf: LeafTest)
    requires AllFit(START, steps, leaf) && key in Run(START, steps, leaf).pending
    requires var s := Run(START, steps, leaf);
             var p := s.pending[key];
             && !p.bulk && Spares(p.request) && p.id in s.db.users && ApplyPatch(UserKind, p.snapshot, p.request, leaf).Ok?
             && !NameTaken(s.db, Text(ApplyPatch(UserKind, p.snapshot, p.request, leaf).value, "userName"), Some(p.id))
    ensures var s := Run(START, steps, leaf);
            var p := s.pending[key];
            Committed(s.db, p, leaf).1 == 200 <==> s.db.users[p.id].version == p.readVersion
  {
    ReadWellRun(steps, leaf);
    var s := Run(START, steps, leaf);
    hide Run;
    var p := s.pending[key];
    FinishSparing(s.db, p, leaf);
    hide FinishPatch;
    hide Consistent;
    hide Spares;
    hide ApplyPatch;
    hide NameTaken;
    hide Stamp;
    hide Text;
  }

  // ------------------------------------------------------------------ runs that lose an update

  /** A PATCH between whose read and write the user is replaced. */
  function Interrupted(doc: Object, request: PatchRequest, bulk: bool, other: Object, id: string): seq<Step> {
    [Atomic(Post(doc, id))] + [Read(0, id, request, bulk)] + [Atomic(Put(id, other, ""))] + [Commit(0)]
  }

  /** A PATCH between whose read and write the user is deleted and another one created under its id. */
  function Recreated(doc: Object, request: PatchRequest, other: Object, id: string): seq<Step> {
    [Atomic(Post(doc, id))] + [Read(0, id, request, false)] + [Atomic(Delete(id))] + [Atomic(Post(other, ""))] + [Commit(0)]
  }

  function OneUser(id: string, doc: Object, version: int): Db {
    Db(map[id := UserRow(Text(doc, "userName"), Stamp(doc, id, "User", version), version)], map[], {})
  }

  lemma OneStep(s: System, steps: seq<Step>, step: Step, leaf: LeafTest)
    ensures Run(s, steps + [step], leaf) == Next(Run(s, steps, leaf), step, leaf)
  {
    assert (steps + [step])[..|steps|] == steps;
  }

  /** After the first user is created and the PATCH has read it. */
  function Reading(doc: Object, request: PatchRequest, bulk: bool, id: string): System {
    System(OneUser(id, doc, 1), map[0 := Pending(id, Stamp(doc, id, "User", 1), 1, request, bulk)], {id})
  }

  lemma ReadingReached(doc: Object, request: PatchRequest, bulk: bool, id: string, leaf: LeafTest)
    requires Text(doc, "id") == ""
    ensures Run(START, [Atomic(Post(doc, id))] + [Read(0, id, request, bulk)], leaf) == Reading(doc, request, bulk, id)
  {
    assert Run(START, [], leaf) == START;
    hide *;
    OneStep(START, [], Atomic(Post(doc, id)), leaf);
    assert [] + [Atomic(Post(doc, id))] == [Atomic(Post(doc, id))];
    OneStep(START, [Atomic(Post(doc, id))], Read(0, id, request, bulk), leaf);
    FirstPost(doc, id, leaf);
    FirstRead(doc, request, bulk, id, leaf);
  }

  lemma FirstPost(doc: Object, id: string, leaf: LeafTest)
    requires Text(doc, "id") == ""
    ensures Next(START, Atomic(Post(doc, id)), leaf) == System(OneUser(id, doc, 1), map[], {id})
    ensures Consistent(OneUser(id, doc, 1))
  {
    hide Stamp;
    assert CreateUser(EMPTY_DB, doc, id).db == OneUser(id, doc, 1);
    assert Consistent(EMPTY_DB);
    hide Consistent;
    CreateUserConsistent(EMPTY_DB, doc, id);
  }

  lemma FirstRead(doc: Object, request: PatchRequest, bulk: bool, id: string, leaf: LeafTest)
    requires Consistent(OneUser(id, doc, 1))
    ensures Next(System(OneUser(id, doc, 1), map[], {id}), Read(0, id, request, bulk), leaf) == Reading(doc, request, bulk, id)
  {
    hide Stamp;
    hide Consistent;
    hide GetUser;
    ReadTagIsVersion(OneUser(id, doc, 1), id);
  }

  lemma InterruptedReached(doc: Object, request: PatchRequest, bulk: bool, other: Object, id: string, leaf: LeafTest)
    requires Text(doc, "id") == ""
    ensures var steps, p := Interrupted(doc, request, bulk, other, id), Pending(id, Stamp(doc, id, "User", 1), 1, request, bulk);
            && Run(START, steps[..3], leaf).db == OneUser(id, other, 2)
            && Run(START, steps, leaf).db == Committed(OneUser(id, other, 2), p, leaf).0
  {
    var steps := Interrupted(doc, request, bulk, other, id);
    var reading := [Atomic(Post(doc, id))] + [Read(0, id, request, bulk)];
    assert steps[..3] == reading + [Atomic(Put(id, other, ""))];
    assert steps == steps[..3] + [Commit(0)];
    hide *;
    ReadingReached(doc, request, bulk, id, leaf);
    OneStep(START, reading, Atomic(Put(id, other, "")), leaf);
    OneStep(START, steps[..3], Commit(0), leaf);
    PutWhileReading(doc, request, bulk, other, id, leaf);
  }

  lemma PutWhileReading(doc: Object, request: PatchRequest, bulk: bool, other: Object, id: string, leaf: LeafTest)
    ensures var s, p := Next(Reading(doc, request, bulk, id), Atomic(Put(id, other, "")), leaf),
                        Pending(id, Stamp(doc, id, "User", 1), 1, request, bulk);
            s.db == OneUser(id, other, 2) && Next(s, Commit(0), leaf).db == Committed(s.db, p, leaf).0
  {
    hide Stamp;
    hide Text;
    hide FinishPatch;
    hide ParseETag;
  }

  const TITLE := PatchRequest([], [PatchOperation("replace", "title", JString("Dr"))])

  lemma TitlePath()
    ensures ParsePath("title") == Ok((["title"], ""))
  {
    hide ParsePath;
    PlainPathRoundTrip(["title"]);
  }

  lemma TitleApplied(doc: Object, leaf: LeafTest)
    requires IsResource(UserKind, doc)
    ensures ApplyPatch(UserKind, doc, TITLE, leaf) == Ok(doc["title" := JString("Dr")])
  {
    assert SetAt(doc, ["title"], false, JString("Dr"), false) == Edited(doc["title" := JString("Dr")]);
    hide *;
    TitlePath();
    TitledResource(doc);
    EditOperation(UserKind, doc, "replace", "title", ["title"], JString("Dr"), doc["title" := JString("Dr")], leaf);
  }

  lemma TitleSpares(key: string)
    requires key != "title"
    ensures Spares(TITLE) && (IsOrdinary(key) ==> SparesAttribute(TITLE, key))
  {
    TitlePath();
    hide ParsePath;
    assert FilterLexer.ToLower("replace") == "replace";
    hide FilterLexer.ToLower;
  }

  lemma TitledResource(doc: Object)
    requires IsResource(UserKind, doc)
    ensures MapToResource(UserKind, doc["title" := JString("Dr")]) == Ok(doc["title" := JString("Dr")])
  {
    var titled := doc["title" := JString("Dr")];
    hide Recode;
    hide Attributes;
    UserAttributes();
    TextRecoded(JString("Dr"));
    ResourceIsRecoded(UserKind, doc);
    PutSettled(Attributes(UserKind), doc, "title", JString("Dr"));
    ResourceIsRecoded(UserKind, titled);
    ResourceDecodes(UserKind, titled);
  }

  /** A PATCH that takes the tag out of the document it read, so that no version is expected. */
  const UNTAG := PatchRequest([], [PatchOperation("remove", "meta.version", JNull)])

  lemma UntagPath()
    ensures ParsePath("meta.version") == Ok((["meta", "version"], ""))
  {
    hide ParsePath;
    assert ["meta", "version"][1..] == ["version"];
    assert JoinDots(["meta", "version"]) == "meta.version";
    PlainPathRoundTrip(["meta", "version"]);
  }

  function Untagged(doc: Object): Object
    requires Get(doc, "meta").JObject?
  {
    doc["meta" := JObject(Get(doc, "meta").fields - {"version"})]
  }

  lemma UntagEdit(doc: Object)
    requires Get(doc, "meta").JObject? && Get(Get(doc, "meta").fields, "version") != JNull
    ensures RemoveAt(doc, ["meta", "version"], false) == Edited(Untagged(doc))
  {
    assert ["meta", "version"][1..] == ["version"];
  }

  lemma UntagApplied(doc: Object, leaf: LeafTest)
    requires IsResource(UserKind, doc) && Get(doc, "meta").JObject? && Get(Get(doc, "meta").fields, "version") != JNull
    ensures ApplyPatch(UserKind, doc, UNTAG, leaf) == Ok(Untagged(doc))
  {
    assert UNTAG == PatchRequest([], [PatchOperation("remove", "meta.version", JNull)]);
    hide *;
    UntagPath();
    UntagEdit(doc);
    UntaggedResource(doc);
    EditOperation(UserKind, doc, "remove", "meta.version", ["meta", "version"], JNull, Untagged(doc), leaf);
  }

  lemma UntagSpares(key: string)
    requires IsOrdinary(key)
    ensures SparesAttribute(UNTAG, key)
  {
    UntagPath();
    hide ParsePath;
    assert FilterLexer.ToLower("remove") == "remove";
    hide FilterLexer.ToLower;
  }

  lemma UntaggedResource(doc: Object)
    requires IsResource(UserKind, doc) && Get(doc, "meta").JObject?
    ensures MapToResource(UserKind, Untagged(doc)) == Ok(Untagged(doc))
  {
    var meta := Get(doc, "meta");
    var bare := JObject(meta.fields - {"version"});
    hide Recode;
    hide Attributes;
    hide MetaShape;
    MetaFields();
    MetaAttribute(UserKind);
    ResourceSettled(UserKind, doc, "meta");
    assert IsRecoded(MetaShape().fields, meta.fields);
    TextRecoded(JNull);
    DropSettled(MetaShape().fields, meta.fields, "version");
    ResourceIsRecoded(UserKind, doc);
    PutSettled(Attributes(UserKind), doc, "meta", bare);
    ResourceIsRecoded(UserKind, Untagged(doc));
    ResourceDecodes(UserKind, Untagged(doc));
    hide CanDecode;
    hide IsResource;
  }

  /** What is left of a later document when the PATCH of an earlier one is let through. */
  lemma EarlierDocumentReturns(doc: Object, p: Pending, db: Db, leaf: LeafTest, key: string)
    requires p.snapshot == Stamp(doc, p.id, "User", 1) && IsOrdinary(key) && SparesAttribute(p.request, key)
    requires IsSettled(UserKind, doc, key)
    requires Committed(db, p, leaf).1 == 200
    ensures var after := Committed(db, p, leaf).0; p.id in after.users && Get(after.users[p.id].data, key) == Get(doc, key)
  {
    StampIsResource(doc, p.id, 1);
    ResourceSettled(UserKind, p.snapshot, key);
    CommitWritesSnapshot(db, p, leaf, key);
    StampKeeps(doc, p.id, 1, key);
    hide *;
  }

  /** A name is free for the only user. */
  lemma OnlyName(id: string, other: Object, version: int, name: string)
    ensures !NameTaken(OneUser(id, other, version), name, Some(id))
  {
  }

  /**
   * A replacement between the read and the write of a bulk PATCH is lost: the PATCH of the title
   * puts every other attribute back to what it had read.
   */
  lemma BulkPatchLosesUpdates(doc: Object, other: Object, id: string, leaf: LeafTest, key: string)
    requires Text(doc, "id") == "" && IsOrdinary(key) && key != "title"
    requires IsSettled(UserKind, doc, key) && IsSettled(UserKind, other, key)
    ensures var steps := Interrupted(doc, TITLE, true, other, id);
            var before, after := Run(START, steps[..3], leaf).db, Run(START, steps, leaf).db;
            && id in before.users && id in after.users
            && Get(before.users[id].data, key) == Get(other, key)
            && Get(after.users[id].data, key) == Get(doc, key)
  {
    var p := Pending(id, Stamp(doc, id, "User", 1), 1, TITLE, true);
    InterruptedReached(doc, TITLE, true, other, id, leaf);
    TitleLetThrough(doc, true, other, id, 2, leaf);
    TitleSpares(key);
    StampKeeps(other, id, 2, key);
    hide *;
    EarlierDocumentReturns(doc, p, OneUser(id, other, 2), leaf, key);
    OneRow(id, other, 2);
  }

  lemma OneRow(id: string, doc: Object, version: int)
    ensures var db := OneUser(id, doc, version); id in db.users && db.users[id].data == Stamp(doc, id, "User", version)
  {
  }

  /** A title PATCH of version 1 is let through in bulk, or when version 1 is what it finds. */
  lemma TitleLetThrough(doc: Object, bulk: bool, other: Object, id: string, version: int, leaf: LeafTest)
    requires bulk || version == 1
    ensures Committed(OneUser(id, other, version), Pending(id, Stamp(doc, id, "User", 1), 1, TITLE, bulk), leaf).1 == 200
  {
    var p := Pending(id, Stamp(doc, id, "User", 1), 1, TITLE, bulk);
    StampIsResource(doc, id, 1);
    TitleApplied(p.snapshot, leaf);
    TitleSpares("");
    FinishSparing(OneUser(id, other, version), p, leaf);
    OnlyName(id, other, version, Text(p.snapshot["title" := JString("Dr")], "userName"));
    hide FinishPatch;
    hide ApplyPatch;
    hide NameTaken;
    hide Stamp;
    hide Text;
  }

  /**
   * A single PATCH loses the replacement too when one of its operations removes the tag: it has
   * no version left to expect.
   */
  lemma UntaggedPatchLosesUpdates(doc: Object, other: Object, id: string, leaf: LeafTest, key: string)
    requires Text(doc, "id") == "" && IsOrdinary(key)
    requires IsSettled(UserKind, doc, key) && IsSettled(UserKind, other, key)
    ensures var steps := Interrupted(doc, UNTAG, false, other, id);
            var before, after := Run(START, steps[..3], leaf).db, Run(START, steps, leaf).db;
            && id in before.users && id in after.users
            && Get(before.users[id].data, key) == Get(other, key)
            && Get(after.users[id].data, key) == Get(doc, key)
  {
    var p := Pending(id, Stamp(doc, id, "User", 1), 1, UNTAG, false);
    InterruptedReached(doc, UNTAG, false, other, id, leaf);
    UntaggedLetThrough(doc, other, id, leaf);
    UntagSpares(key);
    StampKeeps(other, id, 2, key);
    hide *;
    EarlierDocumentReturns(doc, p, OneUser(id, other, 2), leaf, key);
    OneRow(id, other, 2);
  }

  lemma UntaggedLetThrough(doc: Object, other: Object, id: string, leaf: LeafTest)
    ensures Committed(OneUser(id, other, 2), Pending(id, Stamp(doc, id, "User", 1), 1, UNTAG, false), leaf).1 == 200
  {
    hide ApplyPatch;
    hide NameTaken;
    hide ParseETag;
    hide IsResource;
    hide Stamp;
    hide Text;
    var snapshot := Stamp(doc, id, "User", 1);
    StampIsResource(doc, id, 1);
    UntagApplied(snapshot, leaf);
    OnlyName(id, other, 2, Text(Untagged(snapshot), "userName"));
    assert DecodeMeta(Untagged(snapshot)) == MetaTag("");
    NoTag();
  }

  lemma NoTag()
    ensures ParseETag("") == (0, false)
  {
  }

  lemma RecreatedReached(doc: Object, request: PatchRequest, other: Object, id: string, leaf: LeafTest)
    requires Text(doc, "id") == "" && Text(other, "id") == id && id != ""
    ensures var steps, p := Recreated(doc, request, other, id), Pending(id, Stamp(doc, id, "User", 1), 1, request, false);
            && Run(START, steps[..4], leaf).db == OneUser(id, other, 1)
            && Run(START, steps, leaf).db == Committed(OneUser(id, other, 1), p, leaf).0
  {
    var steps := Recreated(doc, request, other, id);
    var reading := [Atomic(Post(doc, id))] + [Read(0, id, request, false)];
    assert steps[..4] == reading + [Atomic(Delete(id))] + [Atomic(Post(other, ""))];
    assert steps == steps[..4] + [Commit(0)];
    hide *;
    ReadingReached(doc, request, false, id, leaf);
    OneStep(START, reading, Atomic(Delete(id)), leaf);
    OneStep(START, reading + [Atomic(Delete(id))], Atomic(Post(other, "")), leaf);
    OneStep(START, steps[..4], Commit(0), leaf);
    RecreatedWhileReading(doc, request, other, id, leaf);
  }

  lemma RecreatedWhileReading(doc: Object, request: PatchRequest, other: Object, id: string, leaf: LeafTest)
    requires Text(other, "id") == id && id != ""
    ensures var deleted := Next(Reading(doc, request, false, id), Atomic(Delete(id)), leaf);
            var s, p := Next(deleted, Atomic(Post(other, "")), leaf), Pending(id, Stamp(doc, id, "User", 1), 1, request, false);
            s.db == OneUser(id, other, 1) && Next(s, Commit(0), leaf).db == Committed(s.db, p, leaf).0
  {
    hide Stamp;
    hide FinishPatch;
    var s := Reading(doc, request, false, id);
    var deleted := Next(s, Atomic(Delete(id)), leaf);
    assert deleted.db == EMPTY_DB && deleted.pending == s.pending;
    assert CreateUser(EMPTY_DB, other, "").db == OneUser(id, other, 1);
  }

  /** A PATCH of a deleted user writes the old document over the one created under its id since. */
  lemma ReusedIdLosesUpdates(doc: Object, other: Object, id: string, leaf: LeafTest, key: string)
    requires Text(doc, "id") == "" && Text(other, "id") == id && id != "" && IsOrdinary(key) && key != "title"
    requires IsSettled(UserKind, doc, key) && IsSettled(UserKind, other, key)
    ensures var steps := Recreated(doc, TITLE, other, id);
            var before, after := Run(START, steps[..4], leaf).db, Run(START, steps, leaf).db;
            && id in before.users && id in after.users
            && Get(before.users[id].data, key) == Get(other, key)
            && Get(after.users[id].data, key) == Get(doc, key)
  {
    var p := Pending(id, Stamp(doc, id, "User", 1), 1, TITLE, false);
    RecreatedReached(doc, TITLE, other, id, leaf);
    TitleLetThrough(doc, false, other, id, 1, leaf);
    TitleSpares(key);
    StampKeeps(other, id, 1, key);
    hide *;
    EarlierDocumentReturns(doc, p, OneUser(id, other, 1), leaf, key);
    OneRow(id, other, 1);
  }

  // ------------------------------------------------------------------ groups

  /** A group PATCH without effect of its own: what `read` shows is written back to `now`. */
  function WriteBack(read: Db, now: Db, group: string, order: RowOrder): Reply {
    match GetGroup(read, group, order)
    case Err(e) => Reply(now, Err(e))
    case Ok(doc) => UpdateGroup(now, group, doc, TagVersion(doc))
  }

  function TagVersion(doc: Object): int {
    match DecodeMeta(doc)
    case NoMeta => 0
    case MetaTag(tag) => ParseETag(tag).0
  }

  /**
   * The storage operation that adds a single member does not count the group's version up, so a
   * group PATCH that read the group before is not stopped and removes the new member again. No
   * request of the program calls this operation.
   */
  lemma AddedMemberIsLost(db: Db, group: string, user: string, order: RowOrder)
    requires Consistent(db) && ListsRows(order) && group in db.groups && user in db.users
    requires user !in GroupMembers(db, group) && Decimal.IsInt64(db.groups[group].version)
    ensures var added := AddGroupMember(db, group, user).0;
            var r := WriteBack(db, added, group, order);
            r.result.Ok? && user in GroupMembers(added, group) && user !in GroupMembers(r.db, group)
  {
    hide MemberIds;
    hide Consistent;
    hide GetGroup;
    hide ParseETag;
    hide GenerateETag;
    hide StampGroup;
    hide DecodeMeta;
    var row := db.groups[group];
    var doc := GroupRead(db, group, order);
    ParseInvertsGenerate(row.version);
    ReadMembersOf(db, group, order, user);
    var added := AddGroupMember(db, group, user).0;
    MemberWritesConsistent(db, group, user);
    WrittenMembers(added, group, doc, "", row.version, user);
  }

  /** A group that is read carries the tag of its version. */
  lemma GroupRead(db: Db, group: string, order: RowOrder) returns (doc: Object)
    requires Consistent(db) && group in db.groups
    ensures GetGroup(db, group, order) == Ok(doc) && DecodeMeta(doc) == MetaTag(GenerateETag(db.groups[group].version))
    ensures db.groups[group].version >= 1
  {
    hide GenerateETag;
    hide MemberRefs;
    hide IsResource;
    doc := GetGroup(db, group, order).value;
  }
}
