/** What each bulk operation does, in terms of the requests on single users and groups. */
module ScimBulkLaws {
  import opened Wrappers
  import opened Json
  import opened ETag
  import opened ScimPatch
  import opened ScimPatchLaws
  import opened ScimResource
  import opened ScimStore
  import opened ScimStoreLaws
  import opened ScimBulk
  import opened ScimRequestLaws
  import C = ScimConcurrency
  import G = ScimGroupConcurrency
  import Decimal
  import FilterLexer

  // ------------------------------------------------------------------ verbs and paths

  /** The verb, in any case. */
  predicate IsVerb(sent: string, verb: string) {
    FilterLexer.ToLower(sent) == verb
  }

  /** The path starts with these segments, with or without a slash before them. */
  predicate IsUnder(path: string, segments: string) {
    path in {segments, "/" + segments} || segments + "/" <= path || "/" + (segments + "/") <= path
  }

  /** The path leads to the resource, which a collection alone does to the one without an id. */
  predicate IsAt(path: string, collection: string, id: string) {
    '/' !in id && if id == "" && path in {collection, "/" + collection} then true else IsUnder(path, collection + ("/" + id))
  }

  lemma UpperVerb(sent: string, verb: string, upper: string)
    requires IsVerb(sent, verb) && |upper| == |verb|
    requires forall i :: 0 <= i < |verb| ==> 'a' <= verb[i] <= 'z' && upper[i] == verb[i] - 'a' + 'A'
    ensures ToUpper(sent) == upper
  {
    forall i | 0 <= i < |sent| ensures ToUpper(sent)[i] == upper[i] {
      assert FilterLexer.ToLower(sent)[i] == verb[i];
    }
  }

  lemma Verbs(sent: string)
    ensures IsVerb(sent, "post") ==> ToUpper(sent) == "POST"
    ensures IsVerb(sent, "put") ==> ToUpper(sent) == "PUT"
    ensures IsVerb(sent, "patch") ==> ToUpper(sent) == "PATCH"
    ensures IsVerb(sent, "delete") ==> ToUpper(sent) == "DELETE"
  {
    hide ToUpper;
    hide IsVerb;
    if IsVerb(sent, "post") { UpperVerb(sent, "post", "POST"); }
    if IsVerb(sent, "put") { UpperVerb(sent, "put", "PUT"); }
    if IsVerb(sent, "patch") { UpperVerb(sent, "patch", "PATCH"); }
    if IsVerb(sent, "delete") { UpperVerb(sent, "delete", "DELETE"); }
  }

  lemma LowerVerb(sent: string, verb: string, upper: string)
    requires ToUpper(sent) == upper && |upper| == |verb|
    requires forall i :: 0 <= i < |verb| ==> 'A' <= upper[i] <= 'Z' && verb[i] == upper[i] - 'A' + 'a'
    ensures IsVerb(sent, verb)
  {
    forall i | 0 <= i < |sent| ensures FilterLexer.ToLower(sent)[i] == verb[i] {
      assert ToUpper(sent)[i] == upper[i];
    }
  }

  lemma OtherVerbs(sent: string)
    requires ToUpper(sent) in {"POST", "PUT", "PATCH", "DELETE"}
    ensures IsVerb(sent, "post") || IsVerb(sent, "put") || IsVerb(sent, "patch") || IsVerb(sent, "delete")
  {
    hide ToUpper;
    hide IsVerb;
    if ToUpper(sent) == "POST" { LowerVerb(sent, "post", "POST"); }
    if ToUpper(sent) == "PUT" { LowerVerb(sent, "put", "PUT"); }
    if ToUpper(sent) == "PATCH" { LowerVerb(sent, "patch", "PATCH"); }
    if ToUpper(sent) == "DELETE" { LowerVerb(sent, "delete", "DELETE"); }
  }

  /** The first segment of a text, and what the text looks like around it. */
  lemma FirstSegment(s: string, segment: string)
    requires '/' !in segment
    ensures Split(s, '/')[0] == segment <==> s == segment || segment + "/" <= s
  {
    hide IndexOf;
    hide Split;
    if s == segment {
      SplitWhole(s, '/');
    } else if segment + "/" <= s {
      var rest := s[|segment| + 1..];
      assert s == segment + (['/'] + rest);
      SplitAt(segment, '/', rest);
    } else {
      SegmentShape(s);
    }
  }

  lemma SegmentShape(s: string)
    ensures var first := Split(s, '/')[0]; s == first || first + "/" <= s
  {
    match IndexOf(s, '/')
    case None =>
    case Some(i) => assert s == s[..i] + (['/'] + s[i + 1..]);
  }

  /** The path without the slash before it. */
  lemma StripSlash(path: string, segments: string)
    requires segments != "" && segments[0] != '/'
    ensures var s := if "/" <= path then path[1..] else path; IsUnder(path, segments) <==> s == segments || segments + "/" <= s
  {
    var with := segments + "/";
    assert segments[0] == with[0];
    if "/" <= path {
      assert path == "/" + path[1..];
      assert "/" + with <= path <==> with <= path[1..];
    }
  }

  /** Where a path leads: exactly the paths of a collection. */
  lemma TargetIs(path: string, collection: string)
    requires collection in {"Users", "Groups"}
    ensures Target(path).0 == collection <==> IsUnder(path, collection)
  {
    hide Split;
    hide IsUnder;
    StripSlash(path, collection);
    FirstSegment(if "/" <= path then path[1..] else path, collection);
  }

  /** And of a resource in it. */
  lemma TargetAt(path: string, collection: string, id: string)
    requires collection in {"Users", "Groups"} && IsAt(path, collection, id)
    ensures Target(path) == (collection, id)
  {
    hide Split;
    var s := if "/" <= path then path[1..] else path;
    if id == "" && path in {collection, "/" + collection} {
      assert s == collection;
      SplitWhole(collection, '/');
    } else {
      StripSlash(path, collection + ("/" + id));
      hide IsUnder;
      TwoSegments(s, collection, id);
    }
  }

  lemma TwoSegments(s: string, collection: string, id: string)
    requires collection in {"Users", "Groups"} && '/' !in id
    requires s == collection + ("/" + id) || (collection + ("/" + id)) + "/" <= s
    ensures var parts := Split(s, '/'); |parts| > 1 && parts[0] == collection && parts[1] == id
  {
    hide Split;
    var rest := s[|collection| + 1..];
    assert s == collection + (['/'] + rest);
    SplitAt(collection, '/', rest);
    assert rest == id || id + "/" <= rest;
    FirstSegment(rest, id);
  }

  /** Which operation is run. */
  lemma Posts(db: Db, op: BulkOperation, collection: string, uuid: string, order: RowOrder, leaf: LeafTest)
    requires IsVerb(op.verb, "post") && collection in {"Users", "Groups"} && IsUnder(op.path, collection)
    ensures Execute(db, op, uuid, order, leaf) == BulkCreate(db, collection, op, uuid)
  {
    TargetIs(op.path, collection);
    Verbs(op.verb);
    hide BulkCreate;
    hide IsVerb;
    hide IsUnder;
    hide ToUpper;
    hide Target;
  }

  lemma Runs(db: Db, op: BulkOperation, collection: string, id: string, uuid: string, order: RowOrder, leaf: LeafTest)
    requires collection in {"Users", "Groups"} && IsAt(op.path, collection, id)
    ensures var e := Execute(db, op, uuid, order, leaf);
            && (IsVerb(op.verb, "put") ==> e == BulkReplace(db, collection, id, op))
            && (IsVerb(op.verb, "patch") ==> e == BulkPatch(db, collection, id, op, order, leaf))
            && (IsVerb(op.verb, "delete") ==> e == BulkDelete(db, collection, id, op))
  {
    TargetAt(op.path, collection, id);
    Verbs(op.verb);
    hide BulkReplace;
    hide BulkPatch;
    hide BulkDelete;
    hide IsVerb;
    hide IsAt;
    hide ToUpper;
    hide Target;
  }

  // ------------------------------------------------------------------ answers

  predicate Answers(e: Executed, verb: string, op: BulkOperation, status: string, tag: string) {
    e.result == Some(BulkResult(verb, op.bulkId, status, tag))
  }

  /** A refusal, which leaves all tables as they were. */
  predicate Refuses(db: Db, e: Executed, verb: string, op: BulkOperation, status: string) {
    e.db == db && Answers(e, verb, op, status, "")
  }

  lemma TagOf(doc: Object, kind: string, version: int)
    requires Get(doc, "meta") == JObject(map["resourceType" := JString(kind), "version" := JString(GenerateETag(version))])
    ensures Tag(doc) == GenerateETag(version)
  {
    hide GenerateETag;
  }

  /** What storage writes answers with the tag of the next version. */
  lemma UserTags(db: Db, id: string, doc: Object, uuid: string, expected: int)
    ensures var r := CreateUser(db, doc, uuid).result; r.Ok? ==> Tag(r.value) == GenerateETag(1)
    ensures var r := UpdateUser(db, id, doc, expected).result; r.Ok? ==> id in db.users && Tag(r.value) == GenerateETag(db.users[id].version + 1)
  {
    hide Stamp;
    hide Tag;
    hide GenerateETag;
    var given := if Text(doc, "id") == "" then uuid else Text(doc, "id");
    StampOwn(doc, given, 1);
    TagOf(Stamp(doc, given, "User", 1), "User", 1);
    if id in db.users {
      StampOwn(doc, id, db.users[id].version + 1);
      TagOf(Stamp(doc, id, "User", db.users[id].version + 1), "User", db.users[id].version + 1);
    }
    hide Text;
  }

  lemma GroupTags(db: Db, id: string, doc: Object, uuid: string, expected: int)
    ensures var r := CreateGroup(db, doc, uuid).result; r.Ok? ==> Tag(r.value) == GenerateETag(1)
    ensures var r := UpdateGroup(db, id, doc, expected).result; r.Ok? ==> id in db.groups && Tag(r.value) == GenerateETag(db.groups[id].version + 1)
  {
    hide StampGroup;
    hide Tag;
    hide GenerateETag;
    hide InsertMembers;
    var given := if Text(doc, "id") == "" then uuid else Text(doc, "id");
    StampGroupOwn(doc, given, 1);
    TagOf(StampGroup(doc, given, 1), "Group", 1);
    if id in db.groups {
      StampGroupOwn(doc, id, db.groups[id].version + 1);
      TagOf(StampGroup(doc, id, db.groups[id].version + 1), "Group", db.groups[id].version + 1);
    }
    hide Text;
  }

  // ------------------------------------------------------------------ users

  lemma CreatedWhenFree(db: Db, doc: Object, uuid: string)
    ensures var id := if Text(doc, "id") == "" then uuid else Text(doc, "id");
            var Reply(after, result) := CreateUser(db, doc, uuid);
            if id in db.users || !IsNameFree(db, Text(doc, "userName"), id) then result.Err? else result.Ok? && GetUser(after, id).Ok?
  {
    hide Stamp;
    hide WithVersion;
    hide Text;
  }

  /**
   * POST on the users creates the one that was sent, at version 1, exactly when it can be
   * decoded and its id, given or made up, and its name are free.
   */
  lemma UserPosted(db: Db, op: BulkOperation, uuid: string, order: RowOrder, leaf: LeafTest)
    requires IsVerb(op.verb, "post") && IsUnder(op.path, "Users")
    ensures var e := Execute(db, op, uuid, order, leaf);
            if op.resource.None? then Refuses(db, e, "POST", op, "400")
            else
              var doc := op.resource.value;
              var id := if Text(doc, "id") == "" then uuid else Text(doc, "id");
              if id in db.users || !IsNameFree(db, Text(doc, "userName"), id) then Refuses(db, e, "POST", op, "409")
              else && Answers(e, "POST", op, "201", GenerateETag(1)) && GetUser(e.db, id).Ok?
                   && (IsDecoded(UserKind, doc) ==> IsUserSent(GetUser(e.db, id).value, doc, id, 1) && OnlyUser(db, e.db, id))
  {
    Posts(db, op, "Users", uuid, order, leaf);
    hide Execute;
    hide IsVerb;
    hide IsUnder;
    hide CreateUser;
    hide GetUser;
    hide IsUserSent;
    hide OnlyUser;
    hide IsDecoded;
    hide IsNameFree;
    hide Text;
    hide Tag;
    if op.resource.Some? {
      var doc := op.resource.value;
      UserTags(db, "", doc, uuid, 0);
      CreatedWhenFree(db, doc, uuid);
      if IsDecoded(UserKind, doc) {
        CreatedExactly(db, doc, uuid);
      }
    }
  }

  /**
   * PUT on a user does what the single request without a precondition does: it is refused for a
   * missing user and for a name that is taken, and otherwise the user is the one that was sent.
   */
  lemma UserPut(db: Db, op: BulkOperation, id: string, uuid: string, order: RowOrder, leaf: LeafTest)
    requires IsVerb(op.verb, "put") && IsAt(op.path, "Users", id)
    ensures var e := Execute(db, op, uuid, order, leaf);
            if op.resource.None? then Refuses(db, e, "PUT", op, "400")
            else
              var doc := op.resource.value;
              && e.db == C.Perform(db, C.Put(id, doc, ""), leaf)
              && if id !in db.users then Refuses(db, e, "PUT", op, "404")
                 else if !IsNameFree(db, Text(doc, "userName"), id) then Refuses(db, e, "PUT", op, "500")
                 else && Answers(e, "PUT", op, "200", GenerateETag(db.users[id].version + 1)) && GetUser(e.db, id).Ok?
                      && (IsDecoded(UserKind, doc) ==>
                            IsUserSent(GetUser(e.db, id).value, doc, id, db.users[id].version + 1) && OnlyUser(db, e.db, id))
  {
    Runs(db, op, "Users", id, uuid, order, leaf);
    hide Execute;
    hide IsVerb;
    hide IsAt;
    hide UpdateUser;
    hide GetUser;
    hide IsUserSent;
    hide OnlyUser;
    hide IsDecoded;
    hide IsNameFree;
    hide Text;
    hide Tag;
    hide ParseETag;
    if op.resource.Some? {
      var doc := op.resource.value;
      UserTags(db, id, doc, "", 0);
      UpdatedWhenFree(db, id, doc);
      PutPerforms(db, id, doc, leaf);
      hide C.Perform;
      if IsDecoded(UserKind, doc) {
        ReplacedExactly(db, id, doc, 0);
      }
    }
  }

  lemma PutPerforms(db: Db, id: string, doc: Object, leaf: LeafTest)
    ensures C.Perform(db, C.Put(id, doc, ""), leaf) == UpdateUser(db, id, doc, 0).db
  {
    hide UpdateUser;
  }

  lemma UpdatedWhenFree(db: Db, id: string, doc: Object)
    ensures var Reply(after, result) := UpdateUser(db, id, doc, 0);
            if id !in db.users then result == Err(NotFound) && after == db
            else if !IsNameFree(db, Text(doc, "userName"), id) then result == Err(Conflict) && after == db
            else result.Ok? && GetUser(after, id).Ok?
  {
    hide Stamp;
    hide WithVersion;
    hide Text;
  }

  /**
   * PATCH on a user leaves what it leaves when it is run without a version check; for a request
   * that leaves `meta` alone that is what the single PATCH leaves. It is refused for a missing
   * user, a request that cannot be applied and a name that is taken; a path that panics ends it.
   */
  lemma UserPatched(db: Db, op: BulkOperation, id: string, uuid: string, order: RowOrder, leaf: LeafTest)
    requires IsVerb(op.verb, "patch") && IsAt(op.path, "Users", id) && Consistent(db)
    ensures var e := Execute(db, op, uuid, order, leaf);
            if op.patch.None? then Refuses(db, e, "PATCH", op, "400")
            else
              var request := op.patch.value;
              && e.db == C.Perform(db, C.Patch(id, request, true), leaf)
              && (C.Spares(request) && C.VersionsFit(db) ==> e.db == C.Perform(db, C.Patch(id, request, false), leaf))
              && if id !in db.users then Refuses(db, e, "PATCH", op, "404")
                 else match ApplyPatch(UserKind, GetUser(db, id).value, request, leaf)
                   case Err(error) => if error == SliceOutOfRange then e == Executed(db, None) else Refuses(db, e, "PATCH", op, "400")
                   case Ok(patched) =>
                     if !IsNameFree(db, Text(patched, "userName"), id) then Refuses(db, e, "PATCH", op, "500")
                     else && Answers(e, "PATCH", op, "200", GenerateETag(db.users[id].version + 1))
                          && IsUserWritten(db, e.db, id, patched)
  {
    Runs(db, op, "Users", id, uuid, order, leaf);
    hide Execute;
    hide IsVerb;
    hide IsAt;
    hide Consistent;
    hide ApplyPatch;
    hide IsUserWritten;
    hide IsNameFree;
    hide Text;
    hide C.Spares;
    hide C.VersionsFit;
    if op.patch.Some? {
      BulkAsSingle(db, id, op.patch.value, leaf);
      PatchPerforms(db, op, id, order, leaf);
      hide C.Perform;
      PatchesUser(db, op, id, order, leaf);
      hide BulkPatch;
      hide GetUser;
    }
  }

  lemma PatchPerforms(db: Db, op: BulkOperation, id: string, order: RowOrder, leaf: LeafTest)
    requires op.patch.Some?
    ensures BulkPatch(db, "Users", id, op, order, leaf).db == C.Perform(db, C.Patch(id, op.patch.value, true), leaf)
  {
    hide ApplyPatch;
    hide UpdateUser;
    hide ParseETag;
    hide Tag;
    if id in db.users {
      var r := ApplyPatch(UserKind, GetUser(db, id).value, op.patch.value, leaf);
      if r.Ok? {
        FailedWrites(db, id, Some(r.value), "");
      }
    }
    hide WithVersion;
  }

  lemma PatchesUser(db: Db, op: BulkOperation, id: string, order: RowOrder, leaf: LeafTest)
    requires op.patch.Some? && Consistent(db)
    ensures var e := BulkPatch(db, "Users", id, op, order, leaf);
            if id !in db.users then Refuses(db, e, "PATCH", op, "404")
            else match ApplyPatch(UserKind, GetUser(db, id).value, op.patch.value, leaf)
              case Err(error) => if error == SliceOutOfRange then e == Executed(db, None) else Refuses(db, e, "PATCH", op, "400")
              case Ok(patched) =>
                if !IsNameFree(db, Text(patched, "userName"), id) then Refuses(db, e, "PATCH", op, "500")
                else && Answers(e, "PATCH", op, "200", GenerateETag(db.users[id].version + 1))
                     && IsUserWritten(db, e.db, id, patched)
  {
    hide Consistent;
    hide ApplyAll;
    hide UpdateUser;
    hide IsUserWritten;
    hide IsNameFree;
    hide Text;
    hide Tag;
    hide WithVersion;
    hide IsResource;
    if id in db.users {
      var doc, request := GetUser(db, id).value, op.patch.value;
      var r := ApplyPatch(UserKind, doc, request, leaf);
      if r.Ok? {
        UserIsResource(db, id);
        RequestKeepsResource(UserKind, doc, request.operations, leaf);
        UserWritten(db, id, r.value, 0);
        UserTags(db, id, r.value, "", 0);
      }
    }
  }

  /** A request that leaves `meta` alone does the same with and without the version check. */
  lemma BulkAsSingle(db: Db, id: string, request: PatchRequest, leaf: LeafTest)
    requires Consistent(db)
    ensures C.Spares(request) && C.VersionsFit(db) ==>
              C.Perform(db, C.Patch(id, request, true), leaf) == C.Perform(db, C.Patch(id, request, false), leaf)
  {
    if C.Spares(request) && C.VersionsFit(db) && id in db.users {
      ReadTagIsVersion(db, id);
      var doc, version := GetUser(db, id).value, db.users[id].version;
      hide Consistent;
      C.FinishSparing(db, C.Pending(id, doc, version, request, true), leaf);
      hide C.Spares;
      hide C.FinishPatch;
      hide ApplyPatch;
      if ApplyPatch(UserKind, doc, request, leaf).Ok? {
        SameExpected(db, id, ApplyPatch(UserKind, doc, request, leaf).value);
      } else {
        RefusedAlike(db, id, doc, request, leaf);
      }
    }
  }

  lemma SameExpected(db: Db, id: string, doc: Object)
    requires id in db.users
    ensures C.WritePatched(db, id, doc, 0) == C.WritePatched(db, id, doc, db.users[id].version)
  {
    hide Stamp;
    hide Text;
    hide NameTaken;
  }

  lemma RefusedAlike(db: Db, id: string, doc: Object, request: PatchRequest, leaf: LeafTest)
    requires ApplyPatch(UserKind, doc, request, leaf).Err?
    ensures C.FinishPatch(db, id, doc, request, true, leaf).0 == db == C.FinishPatch(db, id, doc, request, false, leaf).0
  {
    hide ApplyPatch;
  }

  /** DELETE of a user removes it with its memberships and nothing else. */
  lemma UserDeleted(db: Db, op: BulkOperation, id: string, uuid: string, order: RowOrder, leaf: LeafTest)
    requires IsVerb(op.verb, "delete") && IsAt(op.path, "Users", id)
    ensures var e := Execute(db, op, uuid, order, leaf);
            && e.db == C.Perform(db, C.Delete(id), leaf)
            && if id !in db.users then Refuses(db, e, "DELETE", op, "404")
               else && Answers(e, "DELETE", op, "204", "")
                    && e.db.users == db.users - {id} && e.db.groups == db.groups
                    && e.db.members == set m | m in db.members && m.1 != id
  {
    Runs(db, op, "Users", id, uuid, order, leaf);
    hide Execute;
    hide IsVerb;
    hide IsAt;
  }

  // ------------------------------------------------------------------ groups

  lemma GroupPosted(db: Db, op: BulkOperation, uuid: string, order: RowOrder, leaf: LeafTest)
    requires IsVerb(op.verb, "post") && IsUnder(op.path, "Groups") && Consistent(db)
    ensures var e := Execute(db, op, uuid, order, leaf);
            if op.resource.None? then Refuses(db, e, "POST", op, "400")
            else
              var doc := op.resource.value;
              var id := if Text(doc, "id") == "" then uuid else Text(doc, "id");
              if id in db.groups then Refuses(db, e, "POST", op, "409")
              else && Answers(e, "POST", op, "201", GenerateETag(1)) && GetGroup(e.db, id, order).Ok?
                   && (IsDecoded(GroupKind, doc) ==>
                         && IsGroupSent(GetGroup(e.db, id, order).value, doc, id, 1)
                         && GroupMembers(e.db, id) == SentMembers(db, doc) && OnlyGroup(db, e.db, id, order))
  {
    Posts(db, op, "Groups", uuid, order, leaf);
    hide Execute;
    hide IsVerb;
    hide IsUnder;
    hide Consistent;
    hide CreateGroup;
    hide GetGroup;
    hide IsGroupSent;
    hide OnlyGroup;
    hide SentMembers;
    hide GroupMembers;
    hide IsDecoded;
    hide Text;
    hide Tag;
    hide Answers;
    hide Refuses;
    if op.resource.Some? {
      CreatesGroup(db, op, op.resource.value, uuid);
      GroupCreatedWhenFree(db, op.resource.value, uuid, order);
      if IsDecoded(GroupKind, op.resource.value) {
        GroupDecodedCreated(db, op.resource.value, uuid, order);
      }
      hide BulkCreate;
    } else {
      assert Refuses(db, BulkCreate(db, "Groups", op, uuid), "POST", op, "400") by {
        PostsNothing(db, op, uuid);
      }
    }
  }

  lemma PostsNothing(db: Db, op: BulkOperation, uuid: string)
    requires op.resource.None?
    ensures Refuses(db, BulkCreate(db, "Groups", op, uuid), "POST", op, "400")
  {
  }

  lemma CreatesGroup(db: Db, op: BulkOperation, doc: Object, uuid: string)
    requires op.resource == Some(doc)
    ensures var e, r := BulkCreate(db, "Groups", op, uuid), CreateGroup(db, doc, uuid);
            if r.result.Err? then Refuses(db, e, "POST", op, "409")
            else e.db == r.db && Answers(e, "POST", op, "201", GenerateETag(1))
  {
    hide CreateGroup;
    hide Tag;
    GroupTags(db, "", doc, uuid, 0);
  }

  lemma GroupDecodedCreated(db: Db, doc: Object, uuid: string, order: RowOrder)
    requires IsDecoded(GroupKind, doc) && Consistent(db)
    ensures var id := if Text(doc, "id") == "" then uuid else Text(doc, "id");
            var after := CreateGroup(db, doc, uuid).db;
            id !in db.groups ==>
              && GetGroup(after, id, order).Ok? && IsGroupSent(GetGroup(after, id, order).value, doc, id, 1)
              && GroupMembers(after, id) == SentMembers(db, doc) && OnlyGroup(db, after, id, order)
  {
    GroupCreatedExactly(db, doc, uuid, order);
    hide *;
  }

  lemma GroupCreatedWhenFree(db: Db, doc: Object, uuid: string, order: RowOrder)
    ensures var id := if Text(doc, "id") == "" then uuid else Text(doc, "id");
            var Reply(after, result) := CreateGroup(db, doc, uuid);
            if id in db.groups then result.Err? else result.Ok? && GetGroup(after, id, order).Ok?
  {
    hide StampGroup;
    hide WithVersion;
    hide WithMembers;
    hide MemberRefs;
    hide MemberIds;
    hide Text;
  }

  lemma GroupPut(db: Db, op: BulkOperation, id: string, uuid: string, order: RowOrder, leaf: LeafTest)
    requires IsVerb(op.verb, "put") && IsAt(op.path, "Groups", id)
    ensures var e := Execute(db, op, uuid, order, leaf);
            if op.resource.None? then Refuses(db, e, "PUT", op, "400")
            else if id !in db.groups then Refuses(db, e, "PUT", op, "404")
            else
              var doc, version := op.resource.value, db.groups[id].version + 1;
              && Answers(e, "PUT", op, "200", GenerateETag(version)) && GetGroup(e.db, id, order).Ok?
              && (IsDecoded(GroupKind, doc) ==>
                    && IsGroupSent(GetGroup(e.db, id, order).value, doc, id, version)
                    && GroupMembers(e.db, id) == SentMembers(db, doc) && OnlyGroup(db, e.db, id, order))
  {
    Runs(db, op, "Groups", id, uuid, order, leaf);
    hide Execute;
    hide IsVerb;
    hide IsAt;
    hide UpdateGroup;
    hide GetGroup;
    hide IsGroupSent;
    hide OnlyGroup;
    hide SentMembers;
    hide GroupMembers;
    hide IsDecoded;
    hide Text;
    hide Tag;
    if op.resource.Some? {
      var doc := op.resource.value;
      GroupTags(db, id, doc, "", 0);
      GroupUpdated(db, id, doc, order);
      if IsDecoded(GroupKind, doc) {
        GroupReplacedExactly(db, id, doc, 0, order);
      }
    }
  }

  lemma GroupUpdated(db: Db, id: string, doc: Object, order: RowOrder)
    ensures var Reply(after, result) := UpdateGroup(db, id, doc, 0);
            if id !in db.groups then result == Err(NotFound) && after == db else result.Ok? && GetGroup(after, id, order).Ok?
  {
    hide StampGroup;
    hide WithVersion;
    hide WithMembers;
    hide MemberRefs;
    hide MemberIds;
    hide Text;
  }

  /** PATCH on a group; for a request that leaves `meta` alone it leaves what the single PATCH does. */
  lemma GroupPatched(db: Db, op: BulkOperation, id: string, uuid: string, order: RowOrder, leaf: LeafTest)
    requires IsVerb(op.verb, "patch") && IsAt(op.path, "Groups", id) && Consistent(db)
    ensures var e := Execute(db, op, uuid, order, leaf);
            if op.patch.None? then Refuses(db, e, "PATCH", op, "400")
            else
              var request := op.patch.value;
              && (C.Spares(request) && (id in db.groups ==> Decimal.IsInt64(db.groups[id].version)) ==>
                    e.db == G.PatchGroup(db, id, request, order, leaf).0)
              && if id !in db.groups then Refuses(db, e, "PATCH", op, "404")
                 else match ApplyPatch(GroupKind, GetGroup(db, id, order).value, request, leaf)
                   case Err(error) => if error == SliceOutOfRange then e == Executed(db, None) else Refuses(db, e, "PATCH", op, "400")
                   case Ok(patched) =>
                     && Answers(e, "PATCH", op, "200", GenerateETag(db.groups[id].version + 1))
                     && IsGroupWritten(db, e.db, id, patched, order)
  {
    Runs(db, op, "Groups", id, uuid, order, leaf);
    hide Execute;
    hide IsVerb;
    hide IsAt;
    hide Consistent;
    hide ApplyAll;
    hide UpdateGroup;
    hide IsGroupWritten;
    hide Text;
    hide Tag;
    hide C.Spares;
    hide WithVersion;
    hide WithMembers;
    hide IsResource;
    hide G.FinishGroupPatch;
    if op.patch.Some? && id in db.groups {
      var request, doc := op.patch.value, GetGroup(db, id, order).value;
      var r := ApplyPatch(GroupKind, doc, request, leaf);
      if r.Ok? {
        G.ReadIsResource(db, id, order);
        RequestKeepsResource(GroupKind, doc, request.operations, leaf);
        GroupWritten(db, id, r.value, 0, order);
        GroupTags(db, id, r.value, "", 0);
      }
      if C.Spares(request) && Decimal.IsInt64(db.groups[id].version) {
        FinishGroupSparing(db, id, request, order, leaf);
      }
    }
  }

  /** The version check of the single PATCH lets a request through that leaves `meta` alone. */
  lemma FinishGroupSparing(db: Db, id: string, request: PatchRequest, order: RowOrder, leaf: LeafTest)
    requires Consistent(db) && id in db.groups && C.Spares(request) && Decimal.IsInt64(db.groups[id].version)
    ensures var doc := GetGroup(db, id, order).value;
            G.FinishGroupPatch(db, id, doc, request, leaf).0 ==
              match ApplyPatch(GroupKind, doc, request, leaf)
              case Err(_) => db
              case Ok(patched) => UpdateGroup(db, id, patched, 0).db
  {
    var doc := GetGroup(db, id, order).value;
    if ApplyPatch(GroupKind, doc, request, leaf).Ok? {
      SparingNamesGroupVersion(db, id, request, order, leaf);
    }
    hide GetGroup;
    hide Consistent;
    hide C.Spares;
    hide ApplyPatch;
    FinishGroupNaming(db, id, doc, request, leaf);
    hide NamesVersion;
  }

  lemma FinishGroupNaming(db: Db, id: string, doc: Object, request: PatchRequest, leaf: LeafTest)
    requires id in db.groups
    requires ApplyPatch(GroupKind, doc, request, leaf).Ok? ==> NamesVersion(ApplyPatch(GroupKind, doc, request, leaf).value, db.groups[id].version)
    ensures G.FinishGroupPatch(db, id, doc, request, leaf).0 ==
              match ApplyPatch(GroupKind, doc, request, leaf)
              case Err(_) => db
              case Ok(patched) => UpdateGroup(db, id, patched, 0).db
  {
    hide ApplyPatch;
    hide ParseETag;
    hide StampGroup;
    hide MemberIds;
    hide InsertMembers;
    hide ReplaceGroupRow;
    hide Text;
  }

  lemma GroupDeleted(db: Db, op: BulkOperation, id: string, uuid: string, order: RowOrder, leaf: LeafTest)
    requires IsVerb(op.verb, "delete") && IsAt(op.path, "Groups", id)
    ensures var e := Execute(db, op, uuid, order, leaf);
            if id !in db.groups then Refuses(db, e, "DELETE", op, "404")
            else && Answers(e, "DELETE", op, "204", "")
                 && e.db.groups == db.groups - {id} && e.db.users == db.users
                 && e.db.members == set m | m in db.members && m.0 != id
  {
    Runs(db, op, "Groups", id, uuid, order, leaf);
    hide Execute;
    hide IsVerb;
    hide IsAt;
  }

  // ------------------------------------------------------------------ all other operations

  /** Any other verb, and a path into neither collection, is refused with 400. */
  lemma ElsewhereRefused(db: Db, op: BulkOperation, uuid: string, order: RowOrder, leaf: LeafTest)
    requires (!IsUnder(op.path, "Users") && !IsUnder(op.path, "Groups"))
             || !(IsVerb(op.verb, "post") || IsVerb(op.verb, "put") || IsVerb(op.verb, "patch") || IsVerb(op.verb, "delete"))
    ensures var e := Execute(db, op, uuid, order, leaf);
            e.db == db && e.result.Some? && e.result.value.bulkId == op.bulkId && e.result.value.status == "400"
  {
    TargetIs(op.path, "Users");
    TargetIs(op.path, "Groups");
    if ToUpper(op.verb) in {"POST", "PUT", "PATCH", "DELETE"} {
      OtherVerbs(op.verb);
    }
    hide IsVerb;
    hide IsUnder;
    hide ToUpper;
    hide Target;
    hide CreateUser;
    hide CreateGroup;
    hide UpdateUser;
    hide UpdateGroup;
    hide DeleteUser;
    hide DeleteGroup;
    hide GetUser;
    hide GetGroup;
    hide Tag;
    hide ApplyPatch;
  }

  /** An operation that is answered has failed exactly when it was neither created, nor done, nor done without content. */
  lemma FailedExactly(db: Db, op: BulkOperation, uuid: string, order: RowOrder, leaf: LeafTest)
    requires Execute(db, op, uuid, order, leaf).result.Some?
    ensures var r := Execute(db, op, uuid, order, leaf).result.value;
            && r.bulkId == op.bulkId
            && r.status in {"200", "201", "204", "400", "404", "409", "500"}
            && (IsFailure(r) <==> r.status !in {"200", "201", "204"})
  {
    hide Target;
    hide ToUpper;
    hide CreateUser;
    hide CreateGroup;
    hide UpdateUser;
    hide UpdateGroup;
    hide DeleteUser;
    hide DeleteGroup;
    hide ApplyPatch;
    hide GetUser;
    hide GetGroup;
    hide Tag;
  }
}
