/** What a PATCH that nothing interrupts does, seen by the reads that follow it. */
module ScimRequestLaws {
  import opened Wrappers
  import opened Json
  import opened ETag
  import opened ScimPatch
  import opened ScimPatchLaws
  import opened ScimResource
  import opened ScimStore
  import opened ScimStoreLaws
  import C = ScimConcurrency
  import E = ScimGroupEdits
  import G = ScimGroupConcurrency
  import Decimal

  // ------------------------------------------------------------------ users

  /** The user is now the next version of itself, with the attributes of the document, and nothing else has changed. */
  ghost predicate IsUserWritten(before: Db, after: Db, id: string, doc: Object) {
    && id in before.users && id in after.users && after.users[id].version == before.users[id].version + 1
    && OnlyUser(before, after, id)
    && Get(GetUser(after, id).value, "meta") == UserMeta(before.users[id].version + 1)
    && forall name :: name !in {"id", "meta", "password"} ==> Get(GetUser(after, id).value, name) == Get(doc, name)
  }

  lemma StampHolds(doc: Object, id: string, version: int, name: string)
    requires IsResource(UserKind, doc) && name !in {"id", "meta", "password"}
    ensures Get(Stamp(doc, id, "User", version), name) == Get(doc, name)
  {
    hide MetaValue;
    hide Encode;
    hide Settled;
    hide Attributes;
    var sent := doc["id" := JString(id)]["meta" := MetaValue("User", version)] - {"password"};
    ResourceSettled(UserKind, doc, name);
    GetEncoded(UserKind, sent, name);
    assert Get(sent, name) == Get(doc, name);
  }

  lemma ResourceIsDecoded(kind: Kind, doc: Object)
    requires IsResource(kind, doc)
    ensures IsDecoded(kind, doc)
  {
    hide Attributes;
    hide Encode;
    ResourceDecodes(kind, doc);
    DecodesByAttribute(kind, doc);
  }

  /** A resource that was written is read attribute by attribute. */
  lemma UserWritten(db: Db, id: string, doc: Object, expected: int)
    requires IsResource(UserKind, doc)
    ensures var r := UpdateUser(db, id, doc, expected);
            && (r.result.Ok? ==> IsUserWritten(db, r.db, id, doc))
            && (r.result.Ok? <==>
                  id in db.users && !(expected > 0 && expected != db.users[id].version) && IsNameFree(db, Text(doc, "userName"), id))
            && (r.result.Err? ==> r.db == db)
  {
    hide Stamp;
    hide IsUserSent;
    hide IsDecoded;
    hide IsResource;
    hide OnlyUser;
    hide GetUser;
    hide Text;
    ResourceIsDecoded(UserKind, doc);
    ReplacedExactly(db, id, doc, expected);
    if UpdateUser(db, id, doc, expected).result.Ok? {
      var version := db.users[id].version + 1;
      StampOwn(doc, id, version);
      forall name | name !in {"id", "meta", "password"} ensures Get(Stamp(doc, id, "User", version), name) == Get(doc, name) {
        StampHolds(doc, id, version, name);
      }
    }
  }

  /** The version the tag of a document names, if it has a `meta` object. */
  predicate NamesVersion(doc: Object, version: int) {
    Get(doc, "meta").JObject? &&
    var named := ParseETag(TextOf(Get(Get(doc, "meta").fields, "version"))).0;
    named <= 0 || named == version
  }

  /**
   * A PATCH that nothing interrupts answers 404 for a missing user, 400 for a request that cannot
   * be applied and 200 exactly when the patched document names the version it was read at and a
   * free name. Then the user reads as the patched document; in all other cases nothing has changed.
   */
  lemma UserPatchedExactly(db: Db, id: string, request: PatchRequest, leaf: LeafTest)
    requires Consistent(db)
    ensures var (after, status) := C.PatchUser(db, id, request, false, leaf);
            && (status != 200 ==> after == db)
            && if id !in db.users then status == 404
               else match ApplyPatch(UserKind, GetUser(db, id).value, request, leaf)
                 case Err(e) => status == if e == SliceOutOfRange then 500 else 400
                 case Ok(patched) =>
                   if IsNameFree(db, Text(patched, "userName"), id) && NamesVersion(patched, db.users[id].version)
                   then status == 200 && IsUserWritten(db, after, id, patched)
                   else status == 500
  {
    hide Consistent;
    hide ApplyAll;
    hide IsUserWritten;
    hide IsNameFree;
    hide UpdateUser;
    hide ParseETag;
    hide Text;
    hide IsResource;
    hide WithVersion;
    if id in db.users {
      var doc := GetUser(db, id).value;
      UserIsResource(db, id);
      RequestKeepsResource(UserKind, doc, request.operations, leaf);
      var r := ApplyPatch(UserKind, doc, request, leaf);
      if r.Ok? && C.DecodeMeta(r.value).MetaTag? {
        UserWritten(db, id, r.value, ParseETag(C.DecodeMeta(r.value).version).0);
      }
    }
  }

  lemma UserIsResource(db: Db, id: string)
    requires Consistent(db) && id in db.users
    ensures IsResource(UserKind, GetUser(db, id).value)
  {
    ReadTagIsVersion(db, id);
  }

  lemma SparingKeepsTag(kind: Kind, resourceType: string, doc: Object, version: int, request: PatchRequest, leaf: LeafTest)
    requires Get(doc, "meta") == MetaValue(resourceType, version) && resourceType != "" && Decimal.IsInt64(version)
    requires C.Spares(request) && ApplyPatch(kind, doc, request, leaf).Ok?
    ensures NamesVersion(ApplyPatch(kind, doc, request, leaf).value, version)
  {
    hide C.Spares;
    hide ParseETag;
    hide GenerateETag;
    hide Settled;
    hide Attributes;
    TagSettled(kind, resourceType, version);
    SparingKeepsMeta(kind, doc, request, leaf);
    hide ApplyPatch;
    ParseInvertsGenerate(version);
  }

  lemma SparingKeepsMeta(kind: Kind, doc: Object, request: PatchRequest, leaf: LeafTest)
    requires C.Spares(request) && IsSettled(kind, doc, "meta") && Get(doc, "meta") != JNull
    requires ApplyPatch(kind, doc, request, leaf).Ok?
    ensures Get(ApplyPatch(kind, doc, request, leaf).value, "meta") == Get(doc, "meta")
  {
    hide ApplyAll;
    hide IsSettled;
    hide SparesMeta;
    RequestSparesMeta(kind, doc, request.operations, leaf);
  }

  /** A request that leaves `meta` alone names the version it was read at. */
  lemma SparingNamesVersion(db: Db, id: string, request: PatchRequest, leaf: LeafTest)
    requires Consistent(db) && id in db.users && C.Spares(request) && Decimal.IsInt64(db.users[id].version)
    requires ApplyPatch(UserKind, GetUser(db, id).value, request, leaf).Ok?
    ensures NamesVersion(ApplyPatch(UserKind, GetUser(db, id).value, request, leaf).value, db.users[id].version)
  {
    ReadTagIsVersion(db, id);
    SparingKeepsTag(UserKind, "User", GetUser(db, id).value, db.users[id].version, request, leaf);
    hide *;
  }

  // ------------------------------------------------------------------ groups

  /** The same for a group; its members are the users among those of the document. */
  ghost predicate IsGroupWritten(before: Db, after: Db, id: string, doc: Object, order: RowOrder) {
    && id in before.groups && id in after.groups && after.groups[id].version == before.groups[id].version + 1
    && OnlyGroup(before, after, id, order) && GroupMembers(after, id) == SentMembers(before, doc)
    && Get(GetGroup(after, id, order).value, "meta") == GroupMeta(before.groups[id].version + 1)
    && forall name :: name !in {"id", "meta", "members"} ==> Get(GetGroup(after, id, order).value, name) == Get(doc, name)
  }

  lemma HeldByGroup(doc: Object, read: Object, name: string)
    requires IsResource(GroupKind, doc) && HoldsWhatWasSent(GroupKind, read, name, Get(doc, name))
    ensures Get(read, name) == Get(doc, name)
  {
    hide Encode;
    hide Attributes;
    hide Recode;
    EncodedOnce(GroupKind, doc, name);
    if name in Attributes(GroupKind) {
      var field := Attributes(GroupKind)[name];
      ResourceIsDecoded(GroupKind, doc);
      UnwrittenExactly(field, Get(doc, name));
      if !GoesUnwritten(field, Get(doc, name)) {
        RecodePreserves(Get(doc, name), field.shape);
        PreservedOnce(Get(doc, name), read[name], Recode(Get(doc, name), field.shape), field.shape);
      }
    }
    hide Preserves;
    hide Decodable;
  }

  lemma GroupWritten(db: Db, id: string, doc: Object, expected: int, order: RowOrder)
    requires IsResource(GroupKind, doc)
    ensures var r := UpdateGroup(db, id, doc, expected);
            && (r.result.Ok? ==> IsGroupWritten(db, r.db, id, doc, order))
            && (r.result.Ok? <==> id in db.groups && !(expected > 0 && expected != db.groups[id].version))
            && (r.result.Err? ==> r.db == db)
  {
    hide StampGroup;
    hide HoldsWhatWasSent;
    hide IsDecoded;
    hide IsResource;
    hide OnlyGroup;
    hide GetGroup;
    hide Text;
    hide MemberIds;
    hide GroupMembers;
    hide SentMembers;
    ResourceIsDecoded(GroupKind, doc);
    GroupReplacedExactly(db, id, doc, expected, order);
    var r := UpdateGroup(db, id, doc, expected);
    if r.result.Ok? {
      var read := GetGroup(r.db, id, order).value;
      forall name | name !in {"id", "meta", "members"} ensures Get(read, name) == Get(doc, name) {
        HeldByGroup(doc, read, name);
      }
    }
  }

  lemma GroupPatchedExactly(db: Db, id: string, request: PatchRequest, order: RowOrder, leaf: LeafTest)
    requires Consistent(db)
    ensures var (after, status) := G.PatchGroup(db, id, request, order, leaf);
            && (status != 200 ==> after == db)
            && if id !in db.groups then status == 404
               else match ApplyPatch(GroupKind, GetGroup(db, id, order).value, request, leaf)
                 case Err(e) => status == if e == SliceOutOfRange then 500 else 400
                 case Ok(patched) =>
                   if NamesVersion(patched, db.groups[id].version) then status == 200 && IsGroupWritten(db, after, id, patched, order)
                   else status == 500
  {
    hide Consistent;
    hide ApplyAll;
    hide IsGroupWritten;
    hide UpdateGroup;
    hide ParseETag;
    hide IsResource;
    hide WithVersion;
    hide WithMembers;
    if id in db.groups {
      var doc := GetGroup(db, id, order).value;
      G.ReadIsResource(db, id, order);
      RequestKeepsResource(GroupKind, doc, request.operations, leaf);
      var r := ApplyPatch(GroupKind, doc, request, leaf);
      if r.Ok? && C.DecodeMeta(r.value).MetaTag? {
        GroupWritten(db, id, r.value, ParseETag(C.DecodeMeta(r.value).version).0, order);
      }
    }
  }

  /** A group request that leaves `meta` alone names the version it was read at. */
  lemma SparingNamesGroupVersion(db: Db, id: string, request: PatchRequest, order: RowOrder, leaf: LeafTest)
    requires Consistent(db) && id in db.groups && C.Spares(request) && Decimal.IsInt64(db.groups[id].version)
    requires ApplyPatch(GroupKind, GetGroup(db, id, order).value, request, leaf).Ok?
    ensures NamesVersion(ApplyPatch(GroupKind, GetGroup(db, id, order).value, request, leaf).value, db.groups[id].version)
  {
    GroupMetaRead(db, id, order);
    SparingKeepsTag(GroupKind, "Group", GetGroup(db, id, order).value, db.groups[id].version, request, leaf);
    hide *;
  }

  lemma GroupMetaRead(db: Db, id: string, order: RowOrder)
    requires Consistent(db) && id in db.groups
    ensures Get(GetGroup(db, id, order).value, "meta") == MetaValue("Group", db.groups[id].version)
  {
    G.StoredTag(db, id);
    hide Consistent;
    hide MemberRefs;
    hide GenerateETag;
  }
}
