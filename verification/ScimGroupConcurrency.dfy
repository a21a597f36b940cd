/**
 * Interleavings of group requests. A group that is read shows its members as they are at that
 * moment, and deleting a user changes them without counting the group's version up.
 */
module ScimGroupConcurrency {
  import opened Wrappers
  import opened Json
  import opened ETag
  import opened ScimPatch
  import opened ScimPatchLaws
  import opened ScimResource
  import opened ScimStore
  import opened ScimGroupEdits
  import C = ScimConcurrency
  import FilterLexer
  import Decimal

  // ------------------------------------------------------------------ the handler

  /** What a group PATCH does once it has read `snapshot`. */
  function FinishGroupPatch(db: Db, id: string, snapshot: Object, request: PatchRequest, leaf: LeafTest): (Db, nat) {
    match ApplyPatch(GroupKind, snapshot, request, leaf)
    case Err(e) => (db, if e == SliceOutOfRange then 500 else 400)
    case Ok(doc) =>
      match C.DecodeMeta(doc)
      case NoMeta => (db, 500)
      case MetaTag(tag) =>
        var r := UpdateGroup(db, id, doc, ParseETag(tag).0);
        (r.db, if r.result.Ok? then 200 else 500)
  }

  function PatchGroup(db: Db, id: string, request: PatchRequest, order: RowOrder, leaf: LeafTest): (Db, nat) {
    match GetGroup(db, id, order)
    case Err(_) => (db, 404)
    case Ok(doc) => FinishGroupPatch(db, id, doc, request, leaf)
  }

  datatype GroupPending = GroupPending(id: string, snapshot: Object, readVersion: int, request: PatchRequest)

  /** As long as the version is the one read, so is the document, and its members that are users are the members. */
  predicate TracksGroup(db: Db, p: GroupPending) {
    && p.readVersion >= 1 && Decimal.IsInt64(p.readVersion)
    && Get(p.snapshot, "meta") == MetaValue("Group", p.readVersion)
    && IsResource(GroupKind, p.snapshot)
    && (p.id in db.groups ==>
          && p.readVersion <= db.groups[p.id].version
          && (p.readVersion == db.groups[p.id].version ==>
                && SameOthers(p.snapshot, db.groups[p.id].data)
                && MemberSet(p.snapshot, db.users.Keys) == GroupMembers(db, p.id)))
  }

  /** The PATCH has read members, and by now the group has none. */
  predicate Emptied(db: Db, p: GroupPending) {
    Get(p.snapshot, "members") != JNull && GroupMembers(db, p.id) == {}
  }

  /** The same tables, except for how the stored document of the group describes its members. */
  predicate SameTables(a: Db, b: Db, id: string) {
    && a.users == b.users && a.members == b.members && a.groups.Keys == b.groups.Keys
    && (forall g :: g in a.groups && g != id ==> a.groups[g] == b.groups[g])
    && (id in a.groups ==>
          && a.groups[id].displayName == b.groups[id].displayName && a.groups[id].version == b.groups[id].version
          && SameOthers(a.groups[id].data, b.groups[id].data))
  }

  lemma SameInserted(a: Db, b: Db, id: string, d: Object, e: Object)
    requires a.users == b.users && a.members == b.members && a.groups.Keys == b.groups.Keys
    requires MemberSet(d, a.users.Keys) == MemberSet(e, a.users.Keys)
    ensures InsertMembers(a, id, MemberIds(d)).members == InsertMembers(b, id, MemberIds(e)).members
  {
    hide MemberIds;
    forall u | u in a.users ensures u in MemberIds(d) <==> u in MemberIds(e) {
      assert u in MemberIds(d) <==> u in MemberSet(d, a.users.Keys);
      assert u in MemberIds(e) <==> u in MemberSet(e, a.users.Keys);
    }
  }

  /** Writing documents that name the same users. */
  lemma UpdateMatching(db: Db, id: string, d: Object, e: Object, expected: int)
    requires SameOthers(d, e) && MemberSet(d, db.users.Keys) == MemberSet(e, db.users.Keys)
    ensures var m, n := UpdateGroup(db, id, d, expected), UpdateGroup(db, id, e, expected);
            && (m.result.Ok? <==> n.result.Ok?)
            && SameTables(m.db, n.db, id)
  {
    hide MemberIds;
    hide StampGroup;
    hide MemberSet;
    OthersGet(d, e, "displayName");
    if id in db.groups {
      var next := db.groups[id].version + 1;
      var a := ReplaceGroupRow(db, id, GroupRow(Text(d, "displayName"), StampGroup(d, id, next), next));
      var b := ReplaceGroupRow(db, id, GroupRow(Text(e, "displayName"), StampGroup(e, id, next), next));
      SameInserted(a, b, id, d, e);
      StampedAlike(d, e, id, next);
    }
    hide SameOthers;
  }

  lemma StampedAlike(d: Object, e: Object, id: string, version: int)
    requires SameOthers(d, e)
    ensures SameOthers(StampGroup(d, id, version), StampGroup(e, id, version))
  {
    OthersWith(d, e, "id", JString(id));
    OthersWith(d["id" := JString(id)], e["id" := JString(id)], "meta", MetaValue("Group", version));
    EncodeWithout(GroupKind, d["id" := JString(id)]["meta" := MetaValue("Group", version)],
                  e["id" := JString(id)]["meta" := MetaValue("Group", version)], "members");
    hide Encode;
    hide MetaValue;
  }

  /** Outcomes alike or apart name the same users. */
  lemma OutcomesMatch(users: set<string>, d: Object, e: Object)
    requires Alike(users, d, e) || Apart(users, d, e)
    ensures SameOthers(d, e) && MemberSet(d, users) == MemberSet(e, users)
  {
    NamedMembers(d, users);
    NamedMembers(e, users);
    NobodyIn(users);
    hide Named;
    hide SameOthers;
    hide MemberSet;
    hide MembersDecode;
  }

  lemma NobodyIn(users: set<string>)
    ensures Named(JNull, users) == {}
  {
  }

  /** The members of an encoded group: none, or a list that can be decoded. */
  lemma MembersOfResource(doc: Object)
    requires IsResource(GroupKind, doc)
    ensures Get(doc, "members") == JNull || (ListsSome(Get(doc, "members")) && MembersDecode(Get(doc, "members")))
  {
    GroupAttributes();
    ResourceSettled(GroupKind, doc, "members");
    ResourceDecodes(GroupKind, doc);
    MappedOthers(doc, doc);
    hide Attributes;
    hide Encode;
    hide CanDecode;
    hide MembersDecode;
  }

  lemma RefSettled(db: Db, user: string)
    ensures Recode(MemberRef(db, user), MemberRefShape()) == MemberRef(db, user)
  {
    var o := MemberRef(db, user).fields;
    MemberFields();
    hide MemberRefShape;
    hide Recode;
    var recoded := Recode(JObject(o), MemberRefShape()).fields;
    assert MemberRefShape() == Record(MemberRefShape().fields);
    forall name ensures (name in recoded <==> name in o) && Get(recoded, name) == Get(o, name) {
      RecordGet(JObject(o), MemberRefShape().fields, name);
      assert name in o <==> Get(o, name) != JNull;
      if name in MemberRefShape().fields {
        TextRecoded(Get(o, name));
      }
    }
    assert recoded == o;
  }

  lemma RefsSettled(db: Db, users: seq<string>)
    ensures var refs := JArray(MemberRefs(db, users)); Recode(refs, ListOf(MemberRefShape())) == refs
  {
    var refs := MemberRefs(db, users);
    hide MemberRef;
    hide MemberRefShape;
    forall i | 0 <= i < |refs| ensures Recode(refs[i], MemberRefShape()) == refs[i] {
      RefSettled(db, users[i]);
    }
    assert Recode(JArray(refs), ListOf(MemberRefShape())).items == refs;
  }

  /** A group that is read is the encoding of one. */
  lemma ReadIsResource(db: Db, id: string, order: RowOrder)
    requires Consistent(db) && id in db.groups
    ensures var doc := GetGroup(db, id, order).value;
            IsResource(GroupKind, doc) && SameOthers(doc, db.groups[id].data)
  {
    var row := db.groups[id];
    var refs := MemberRefs(db, order(GroupMembers(db, id)));
    StoredTag(db, id);
    assert IsResource(GroupKind, row.data) && GetGroup(db, id, order).value == WithMembers(row.data, refs);
    GroupAttributes();
    RefsSettled(db, order(GroupMembers(db, id)));
    hide Consistent;
    hide Attributes;
    hide IsResource;
    hide MemberRefs;
    hide GetGroup;
    hide Recode;
    WithMembersSettled(row.data, refs);
  }

  lemma WithMembersSettled(doc: Object, refs: seq<Json>)
    requires IsResource(GroupKind, doc) && Recode(JArray(refs), ListOf(MemberRefShape())) == JArray(refs)
    ensures IsResource(GroupKind, WithMembers(doc, refs)) && SameOthers(WithMembers(doc, refs), doc)
  {
    var fields := Attributes(GroupKind);
    GroupAttributes();
    EmptyMembers();
    hide Attributes;
    hide IsResource;
    hide Recode;
    ResourceIsRecoded(GroupKind, doc);
    ResourceIsRecoded(GroupKind, WithMembers(doc, refs));
    if refs == [] {
      DropSettled(fields, doc, "members");
      assert doc - {"members"} - {"members"} == doc - {"members"};
    } else {
      PutSettled(fields, doc, "members", JArray(refs));
      assert doc["members" := JArray(refs)] - {"members"} == doc - {"members"};
    }
  }

  lemma EmptyMembers()
    ensures Recode(JNull, ListOf(MemberRefShape())) == JNull
  {
  }

  /** Refreshing the tag of a stored group document changes nothing. */
  lemma StoredTag(db: Db, id: string)
    requires Consistent(db) && id in db.groups
    ensures var row := db.groups[id];
            && WithVersion(row.data, row.version) == row.data
            && row.version >= 1 && Get(row.data, "meta") == MetaValue("Group", row.version)
  {
    hide GenerateETag;
    hide IsResource;
    var row := db.groups[id];
    var fields := Get(row.data, "meta").fields;
    assert fields["version" := JString(GenerateETag(row.version))] == fields;
    assert row.data["meta" := JObject(fields)] == row.data;
  }

  /** The members a read lists, as a set. */
  lemma ReadNames(db: Db, id: string, order: RowOrder)
    requires Consistent(db) && ListsRows(order) && id in db.groups
    ensures var doc := GetGroup(db, id, order).value;
            && MemberSet(doc, db.users.Keys) == GroupMembers(db, id)
            && (forall u :: u in MemberIds(doc) ==> u in db.users)
  {
    var doc := GetGroup(db, id, order).value;
    forall user ensures user in MemberIds(doc) <==> user in GroupMembers(db, id) {
      ReadMembersOf(db, id, order, user);
    }
    hide GetGroup;
    hide MemberIds;
  }

  /** While the version stands, a group that is read now is alike to what a tracked PATCH has read, or has been emptied. */
  lemma ReadRelated(db: Db, p: GroupPending, order: RowOrder)
    requires Consistent(db) && TracksGroup(db, p) && ListsRows(order)
    requires p.id in db.groups && db.groups[p.id].version == p.readVersion
    ensures var doc := GetGroup(db, p.id, order).value;
            if Emptied(db, p) then Apart(db.users.Keys, p.snapshot, doc) else Alike(db.users.Keys, p.snapshot, doc)
  {
    assert GetGroup(db, p.id, order).Ok?;
    hide GetGroup;
    hide Consistent;
    hide IsResource;
    hide GroupMembers;
    hide MemberSet;
    hide Named;
    hide MembersDecode;
    var doc, users := GetGroup(db, p.id, order).value, db.users.Keys;
    ReadIsResource(db, p.id, order);
    ReadNames(db, p.id, order);
    NamedMembers(p.snapshot, users);
    NamedMembers(doc, users);
    MembersOfResource(p.snapshot);
    MembersOfResource(doc);
    NobodyIn(users);
    if GroupMembers(db, p.id) == {} {
      NobodyListed(db, p.id, order);
    }
  }

  lemma NobodyListed(db: Db, id: string, order: RowOrder)
    requires ListsRows(order) && id in db.groups && GroupMembers(db, id) == {}
    ensures Get(GetGroup(db, id, order).value, "members") == JNull
  {
    var rows := order(GroupMembers(db, id));
    assert multiset(rows) == multiset(GroupMembers(db, id)) == multiset{};
    assert |rows| == |multiset(rows)| == 0;
    hide MemberRef;
  }

  /** A plain request writes its result expecting the version it read. */
  lemma FinishGroupPlain(db: Db, id: string, snapshot: Object, version: int, request: PatchRequest, leaf: LeafTest)
    requires Get(snapshot, "meta") == MetaValue("Group", version) && Plain(request) && Decimal.IsInt64(version)
    ensures var patched := ApplyPatch(GroupKind, snapshot, request, leaf);
            patched.Ok? ==>
              var r := UpdateGroup(db, id, patched.value, version);
              FinishGroupPatch(db, id, snapshot, request, leaf) == (r.db, if r.result.Ok? then 200 else 500)
  {
    hide ApplyPatch;
    hide Plain;
    hide ParseETag;
    hide GenerateETag;
    hide UpdateGroup;
    hide Settled;
    TagSettled(GroupKind, "Group", version);
    ParseInvertsGenerate(version);
    if ApplyPatch(GroupKind, snapshot, request, leaf).Ok? {
      var doc := ApplyPatch(GroupKind, snapshot, request, leaf).value;
      PlainKeepsMeta(snapshot, request, leaf);
      assert Get(doc, "meta") == MetaValue("Group", version);
      assert C.DecodeMeta(doc) == C.MetaTag(GenerateETag(version));
    }
  }

  lemma PlainKeepsMeta(snapshot: Object, request: PatchRequest, leaf: LeafTest)
    requires IsSettled(GroupKind, snapshot, "meta") && Get(snapshot, "meta") != JNull
    requires Plain(request) && ApplyPatch(GroupKind, snapshot, request, leaf).Ok?
    ensures Get(ApplyPatch(GroupKind, snapshot, request, leaf).value, "meta") == Get(snapshot, "meta")
  {
    hide IsSettled;
    hide SparesMeta;
    hide Unfiltered;
    hide ApplyAll;
    RequestSparesMeta(GroupKind, snapshot, request.operations, leaf);
  }

  /** The same request on the group as it is now. */
  lemma SerialRelated(db: Db, p: GroupPending, order: RowOrder, leaf: LeafTest)
    requires Consistent(db) && TracksGroup(db, p) && Plain(p.request) && ListsRows(order) && "" !in db.users
    requires p.id in db.groups && db.groups[p.id].version == p.readVersion && ApplyPatch(GroupKind, p.snapshot, p.request, leaf).Ok?
    ensures var d := ApplyPatch(GroupKind, p.snapshot, p.request, leaf).value;
            var n := ApplyPatch(GroupKind, GetGroup(db, p.id, order).value, p.request, leaf);
            if Emptied(db, p) && Demands(p.request.operations) then n == Err(NoTarget) || n == Err(WrongType)
            else n.Ok? && SameOthers(d, n.value) && MemberSet(d, db.users.Keys) == MemberSet(n.value, db.users.Keys)
  {
    var users, doc := db.users.Keys, GetGroup(db, p.id, order).value;
    ReadRelated(db, p, order);
    hide GetGroup;
    hide Alike;
    hide Apart;
    hide Emptied;
    hide Demands;
    hide TracksGroup;
    hide Consistent;
    hide MemberSet;
    hide SameOthers;
    if Emptied(db, p) {
      OperationsApart(users, p.snapshot, doc, p.request.operations, leaf);
    } else {
      OperationsAlike(users, p.snapshot, doc, p.request.operations, leaf);
    }
    var d, n := ApplyPatch(GroupKind, p.snapshot, p.request, leaf), ApplyPatch(GroupKind, doc, p.request, leaf);
    hide ApplyAll;
    if n.Ok? && (Alike(users, d.value, n.value) || Apart(users, d.value, n.value)) {
      OutcomesMatch(users, d.value, n.value);
    }
  }

  /**
   * When the write of a group PATCH that neither names `meta` nor searches the members goes
   * through, it is that of the same PATCH run at once, up to the description of members, exactly
   * when the group has not been emptied since the read or the request does not demand members.
   * If both, the PATCH run at once would have been refused.
   */
  lemma GroupCommitExactly(db: Db, p: GroupPending, order: RowOrder, leaf: LeafTest)
    requires Consistent(db) && TracksGroup(db, p) && Plain(p.request) && ListsRows(order) && "" !in db.users
    ensures var (after, status) := FinishGroupPatch(db, p.id, p.snapshot, p.request, leaf);
            var (serial, answer) := PatchGroup(db, p.id, p.request, order, leaf);
            && (status != 200 ==> after == db)
            && (status == 200 ==>
                  && p.id in db.groups && db.groups[p.id].version == p.readVersion
                  && p.id in after.groups && after.groups[p.id].version == p.readVersion + 1
                  && (answer == 200 && SameTables(after, serial, p.id)
                      <==> !(Emptied(db, p) && Demands(p.request.operations)))
                  && (Emptied(db, p) && Demands(p.request.operations) ==> answer == 400 && serial == db))
  {
    hide Consistent;
    hide Plain;
    hide ApplyPatch;
    hide UpdateGroup;
    hide SameTables;
    hide Emptied;
    hide Demands;
    hide MemberSet;
    hide SameOthers;
    hide Text;
    hide ParseETag;
    FailedGroupFinish(db, p, leaf);
    if ApplyPatch(GroupKind, p.snapshot, p.request, leaf).Ok? {
      FinishGroupPlain(db, p.id, p.snapshot, p.readVersion, p.request, leaf);
      WrittenGroup(db, p.id, ApplyPatch(GroupKind, p.snapshot, p.request, leaf).value, p.readVersion);
      if p.id in db.groups && db.groups[p.id].version == p.readVersion {
        SerialRelated(db, p, order, leaf);
        SerialFinish(db, p, order, leaf);
      }
    }
    hide FinishGroupPatch;
  }

  /** A write that expects a version goes through exactly when the group has it. */
  lemma WrittenGroup(db: Db, id: string, doc: Object, version: int)
    requires version >= 1
    ensures var r := UpdateGroup(db, id, doc, version);
            && (r.result.Ok? <==> id in db.groups && db.groups[id].version == version)
            && (r.result.Ok? ==> id in r.db.groups && r.db.groups[id].version == version + 1)
  {
    hide StampGroup;
    hide MemberIds;
  }

  lemma FailedGroupFinish(db: Db, p: GroupPending, leaf: LeafTest)
    ensures var (after, status) := FinishGroupPatch(db, p.id, p.snapshot, p.request, leaf);
            && (status != 200 ==> after == db)
            && (status == 200 ==> ApplyPatch(GroupKind, p.snapshot, p.request, leaf).Ok?)
  {
    hide ApplyPatch;
    hide ParseETag;
  }

  /** What the PATCH run at once answers and writes. */
  lemma SerialFinish(db: Db, p: GroupPending, order: RowOrder, leaf: LeafTest)
    requires Consistent(db) && TracksGroup(db, p) && Plain(p.request)
    requires p.id in db.groups && db.groups[p.id].version == p.readVersion && ApplyPatch(GroupKind, p.snapshot, p.request, leaf).Ok?
    ensures var d := ApplyPatch(GroupKind, p.snapshot, p.request, leaf).value;
            var n := ApplyPatch(GroupKind, GetGroup(db, p.id, order).value, p.request, leaf);
            var (serial, answer) := PatchGroup(db, p.id, p.request, order, leaf);
            && (n == Err(NoTarget) || n == Err(WrongType) ==> answer == 400 && serial == db)
            && (n.Ok? && SameOthers(d, n.value) && MemberSet(d, db.users.Keys) == MemberSet(n.value, db.users.Keys) ==>
                  answer == 200 && SameTables(UpdateGroup(db, p.id, d, p.readVersion).db, serial, p.id))
  {
    var doc := GetGroup(db, p.id, order).value;
    ReadIsResource(db, p.id, order);
    assert GetGroup(db, p.id, order) == Ok(doc);
    hide GetGroup;
    assert SameOthers(p.snapshot, doc);
    OthersGet(p.snapshot, doc, "meta");
    hide Consistent;
    hide Plain;
    hide ApplyPatch;
    hide SameTables;
    hide MemberSet;
    hide SameOthers;
    hide StampGroup;
    hide InsertMembers;
    hide IsResource;
    FinishGroupPlain(db, p.id, doc, p.readVersion, p.request, leaf);
    var n := ApplyPatch(GroupKind, doc, p.request, leaf);
    var d := ApplyPatch(GroupKind, p.snapshot, p.request, leaf).value;
    if n.Ok? && SameOthers(d, n.value) && MemberSet(d, db.users.Keys) == MemberSet(n.value, db.users.Keys) {
      UpdateMatching(db, p.id, d, n.value, p.readVersion);
    }
  }

  // ------------------------------------------------------------------ runs

  /** `usedUsers` and `usedGroups` collect every id that was ever a user or a group. */
  datatype System = System(db: Db, pending: map<nat, GroupPending>, usedUsers: set<string>, usedGroups: set<string>)

  const START := System(EMPTY_DB, map[], {}, {})

  datatype Step =
    | Storage(call: Call)
    | ReadGroup(key: nat, id: string, patch: PatchRequest, order: RowOrder)
    | CommitGroup(key: nat)

  function CreatedId(doc: Object, uuid: string): string {
    if Text(doc, "id") == "" then uuid else Text(doc, "id")
  }

  function NewUsers(call: Call): set<string> {
    if call.CreateUserCall? then {CreatedId(call.doc, call.uuid)} else {}
  }

  function NewGroups(call: Call): set<string> {
    if call.CreateGroupCall? then {CreatedId(call.doc, call.uuid)} else {}
  }

  function Next(s: System, step: Step, leaf: LeafTest): System {
    match step
    case Storage(call) =>
      System(ScimStore.Step(s.db, call), s.pending, s.usedUsers + NewUsers(call), s.usedGroups + NewGroups(call))
    case ReadGroup(key, id, patch, order) =>
      if key in s.pending || id !in s.db.groups then s
      else s.(pending := s.pending[key := GroupPending(id, GetGroup(s.db, id, order).value, s.db.groups[id].version, patch)])
    case CommitGroup(key) =>
      if key !in s.pending then s
      else
        var p := s.pending[key];
        s.(db := FinishGroupPatch(s.db, p.id, p.snapshot, p.request, leaf).0, pending := s.pending - {key})
  }

  /**
   * Ids are neither empty nor used again, rows are listed in some order, and single memberships
   * are not written: no request of the program does that.
   */
  ghost predicate Proper(s: System, step: Step) {
    match step
    case Storage(call) =>
      && !call.AddMemberCall? && !call.RemoveMemberCall?
      && (forall id :: id in NewUsers(call) ==> id != "" && (id !in s.usedUsers || id in s.db.users))
      && (forall id :: id in NewGroups(call) ==> id !in s.usedGroups || id in s.db.groups)
    case ReadGroup(_, _, _, order) => ListsRows(order)
    case CommitGroup(_) => true
  }

  /** Versions fit the program's integers. */
  ghost predicate Fits(db: Db) {
    forall id :: id in db.groups ==> Decimal.IsInt64(db.groups[id].version)
  }

  /** How one write moves groups: a group is written as the next version, or loses deleted users only. */
  predicate GroupSteps(before: Db, after: Db) {
    forall g :: g in before.groups && g in after.groups ==>
      || after.groups[g].version == before.groups[g].version + 1
      || (after.groups[g] == before.groups[g] && GroupMembers(after, g) == GroupMembers(before, g) * after.users.Keys)
  }

  predicate OnlyNew(before: Db, after: Db, newUsers: set<string>, newGroups: set<string>) {
    after.users.Keys <= before.users.Keys + newUsers && after.groups.Keys <= before.groups.Keys + newGroups
  }

  lemma CreateUserSteps(db: Db, doc: Object, uuid: string)
    requires Consistent(db)
    ensures var after := CreateUser(db, doc, uuid).db; GroupSteps(db, after) && OnlyNew(db, after, {CreatedId(doc, uuid)}, {})
  {
    hide ConsistentUser;
    hide ConsistentGroup;
    hide Stamp;
    hide Text;
    hide NameTaken;
  }

  lemma UpdateUserSteps(db: Db, id: string, doc: Object, expected: int)
    requires Consistent(db)
    ensures var after := UpdateUser(db, id, doc, expected).db; GroupSteps(db, after) && OnlyNew(db, after, {}, {})
  {
    hide ConsistentUser;
    hide ConsistentGroup;
    hide Stamp;
    hide Text;
    hide NameTaken;
  }

  lemma CreateGroupSteps(db: Db, doc: Object, uuid: string)
    requires Consistent(db)
    ensures var after := CreateGroup(db, doc, uuid).db; GroupSteps(db, after) && OnlyNew(db, after, {}, {CreatedId(doc, uuid)})
  {
    hide ConsistentUser;
    hide ConsistentGroup;
    hide StampGroup;
    hide Text;
    hide MemberIds;
  }

  lemma UpdateGroupSteps(db: Db, id: string, doc: Object, expected: int)
    requires Consistent(db)
    ensures var after := UpdateGroup(db, id, doc, expected).db; GroupSteps(db, after) && OnlyNew(db, after, {}, {})
  {
    hide ConsistentUser;
    hide ConsistentGroup;
    hide StampGroup;
    hide Text;
    hide MemberIds;
  }

  lemma DeleteSteps(db: Db, id: string)
    ensures var after := DeleteUser(db, id).0; GroupSteps(db, after) && OnlyNew(db, after, {}, {})
    ensures var after := DeleteGroup(db, id).0; GroupSteps(db, after) && OnlyNew(db, after, {}, {})
  {
  }

  lemma CallSteps(db: Db, call: Call)
    requires Consistent(db) && !call.AddMemberCall? && !call.RemoveMemberCall?
    ensures var after := ScimStore.Step(db, call);
            Consistent(after) && GroupSteps(db, after) && OnlyNew(db, after, NewUsers(call), NewGroups(call))
  {
    hide Consistent;
    hide GroupSteps;
    hide OnlyNew;
    hide CreateUser;
    hide UpdateUser;
    hide CreateGroup;
    hide UpdateGroup;
    hide DeleteUser;
    hide DeleteGroup;
    match call
    case CreateUserCall(doc, uuid) => CreateUserConsistent(db, doc, uuid); CreateUserSteps(db, doc, uuid);
    case UpdateUserCall(id, doc, expected) => UpdateUserConsistent(db, id, doc, expected); UpdateUserSteps(db, id, doc, expected);
    case DeleteUserCall(id) => DeletionsConsistent(db, id); DeleteSteps(db, id);
    case CreateGroupCall(doc, uuid) => CreateGroupConsistent(db, doc, uuid); CreateGroupSteps(db, doc, uuid);
    case UpdateGroupCall(id, doc, expected) => UpdateGroupConsistent(db, id, doc, expected); UpdateGroupSteps(db, id, doc, expected);
    case DeleteGroupCall(id) => DeletionsConsistent(db, id); DeleteSteps(db, id);
  }

  lemma NoSteps(db: Db)
    requires Consistent(db)
    ensures GroupSteps(db, db) && OnlyNew(db, db, {}, {})
  {
    hide ConsistentUser;
    hide ConsistentGroup;
  }

  lemma FinishSteps(db: Db, p: GroupPending, leaf: LeafTest)
    requires Consistent(db)
    ensures var after := FinishGroupPatch(db, p.id, p.snapshot, p.request, leaf).0;
            Consistent(after) && GroupSteps(db, after) && OnlyNew(db, after, {}, {})
  {
    hide Consistent;
    hide GroupSteps;
    hide OnlyNew;
    hide UpdateGroup;
    hide ParseETag;
    NoSteps(db);
    if ApplyPatch(GroupKind, p.snapshot, p.request, leaf).Ok? {
      var doc := ApplyPatch(GroupKind, p.snapshot, p.request, leaf).value;
      hide ApplyPatch;
      if C.DecodeMeta(doc).MetaTag? {
        var expected := ParseETag(C.DecodeMeta(doc).version).0;
        UpdateGroupConsistent(db, p.id, doc, expected);
        UpdateGroupSteps(db, p.id, doc, expected);
      }
    }
  }

  ghost predicate PendingInv(db: Db, p: GroupPending, usedUsers: set<string>, usedGroups: set<string>) {
    && p.id in usedGroups && (forall u :: u in MemberIds(p.snapshot) ==> u in usedUsers)
    && TracksGroup(db, p)
  }

  ghost predicate Inv(s: System) {
    && Consistent(s.db) && "" !in s.usedUsers && s.db.users.Keys <= s.usedUsers && s.db.groups.Keys <= s.usedGroups
    && forall key :: key in s.pending ==> PendingInv(s.db, s.pending[key], s.usedUsers, s.usedGroups)
  }

  lemma PendingKept(before: Db, after: Db, p: GroupPending, usedUsers: set<string>, usedGroups: set<string>,
                    newUsers: set<string>, newGroups: set<string>)
    requires PendingInv(before, p, usedUsers, usedGroups) && GroupSteps(before, after) && OnlyNew(before, after, newUsers, newGroups)
    requires forall id :: id in newUsers ==> id !in usedUsers || id in before.users
    requires forall id :: id in newGroups ==> id !in usedGroups || id in before.groups
    ensures PendingInv(after, p, usedUsers + newUsers, usedGroups + newGroups)
  {
    hide MemberIds;
    hide SameOthers;
    hide IsResource;
    hide MetaValue;
    if p.id in after.groups {
      assert p.id in before.groups;
      if after.groups[p.id].version == p.readVersion {
        assert after.groups[p.id] == before.groups[p.id];
        forall u ensures u in MemberSet(p.snapshot, after.users.Keys) <==> u in GroupMembers(after, p.id) {
          assert u in MemberSet(p.snapshot, before.users.Keys) <==> u in GroupMembers(before, p.id);
        }
      }
    }
  }

  lemma InvWrite(s: System, after: Db, pending: map<nat, GroupPending>, newUsers: set<string>, newGroups: set<string>)
    requires Inv(s) && Consistent(after) && GroupSteps(s.db, after) && OnlyNew(s.db, after, newUsers, newGroups)
    requires forall key :: key in pending ==> key in s.pending && pending[key] == s.pending[key]
    requires forall id :: id in newUsers ==> id != "" && (id !in s.usedUsers || id in s.db.users)
    requires forall id :: id in newGroups ==> id !in s.usedGroups || id in s.db.groups
    ensures Inv(System(after, pending, s.usedUsers + newUsers, s.usedGroups + newGroups))
  {
    hide Consistent;
    forall key | key in pending ensures PendingInv(after, pending[key], s.usedUsers + newUsers, s.usedGroups + newGroups) {
      PendingKept(s.db, after, s.pending[key], s.usedUsers, s.usedGroups, newUsers, newGroups);
    }
    hide PendingInv;
    hide GroupSteps;
  }

  lemma ReadTracked(db: Db, id: string, patch: PatchRequest, order: RowOrder, usedUsers: set<string>, usedGroups: set<string>)
    requires Consistent(db) && Fits(db) && ListsRows(order) && id in db.groups
    requires db.users.Keys <= usedUsers && db.groups.Keys <= usedGroups
    ensures PendingInv(db, GroupPending(id, GetGroup(db, id, order).value, db.groups[id].version, patch), usedUsers, usedGroups)
  {
    var row, doc := db.groups[id], GetGroup(db, id, order).value;
    StoredTag(db, id);
    ReadIsResource(db, id, order);
    ReadNames(db, id, order);
    hide GetGroup;
    OthersGet(doc, row.data, "meta");
    hide MemberIds;
    hide MemberSet;
    hide GenerateETag;
    hide IsResource;
    hide SameOthers;
    hide Consistent;
  }

  lemma StorageInv(s: System, call: Call, leaf: LeafTest)
    requires Inv(s) && Proper(s, Storage(call))
    ensures var next := Next(s, Storage(call), leaf); Inv(next) && GroupSteps(s.db, next.db)
  {
    assert Consistent(s.db);
    hide Inv;
    hide Consistent;
    hide GroupSteps;
    hide OnlyNew;
    hide ScimStore.Step;
    CallSteps(s.db, call);
    InvWrite(s, ScimStore.Step(s.db, call), s.pending, NewUsers(call), NewGroups(call));
  }

  lemma ReadInv(s: System, step: Step, leaf: LeafTest)
    requires Inv(s) && Proper(s, step) && Fits(s.db) && step.ReadGroup?
    ensures var next := Next(s, step, leaf); Inv(next) && GroupSteps(s.db, next.db)
  {
    NoSteps(s.db);
    hide Consistent;
    hide PendingInv;
    hide GroupSteps;
    hide GetGroup;
    if step.key !in s.pending && step.id in s.db.groups {
      ReadTracked(s.db, step.id, step.patch, step.order, s.usedUsers, s.usedGroups);
    }
  }

  lemma NextCommit(s: System, key: nat, leaf: LeafTest)
    ensures Next(s, CommitGroup(key), leaf) ==
            if key !in s.pending then s
            else
              var p := s.pending[key];
              System(FinishGroupPatch(s.db, p.id, p.snapshot, p.request, leaf).0, s.pending - {key}, s.usedUsers + {}, s.usedGroups + {})
  {
    assert s.usedUsers + {} == s.usedUsers && s.usedGroups + {} == s.usedGroups;
    hide FinishGroupPatch;
  }

  lemma CommitInv(s: System, key: nat, leaf: LeafTest)
    requires Inv(s)
    ensures var next := Next(s, CommitGroup(key), leaf); Inv(next) && GroupSteps(s.db, next.db)
  {
    assert Consistent(s.db);
    hide *;
    NoSteps(s.db);
    NextCommit(s, key, leaf);
    if key in s.pending {
      var p := s.pending[key];
      FinishSteps(s.db, p, leaf);
      InvWrite(s, FinishGroupPatch(s.db, p.id, p.snapshot, p.request, leaf).0, s.pending - {key}, {}, {});
    }
  }

  lemma InvStep(s: System, step: Step, leaf: LeafTest)
    requires Inv(s) && Proper(s, step) && Fits(s.db)
    ensures Inv(Next(s, step, leaf)) && GroupSteps(s.db, Next(s, step, leaf).db)
  {
    hide *;
    match step
    case Storage(call) => StorageInv(s, call, leaf);
    case ReadGroup(_, _, _, _) => ReadInv(s, step, leaf);
    case CommitGroup(key) => CommitInv(s, key, leaf);
  }

  function Run(steps: seq<Step>, leaf: LeafTest): System {
    if steps == [] then START else Next(Run(steps[..|steps| - 1], leaf), steps[|steps| - 1], leaf)
  }

  ghost predicate ProperRun(steps: seq<Step>, leaf: LeafTest) {
    forall n :: 0 <= n < |steps| ==> Proper(Run(steps[..n], leaf), steps[n]) && Fits(Run(steps[..n], leaf).db)
  }

  lemma ProperPrefix(steps: seq<Step>, leaf: LeafTest)
    requires steps != [] && ProperRun(steps, leaf)
    ensures ProperRun(steps[..|steps| - 1], leaf)
  {
    hide Proper;
    hide Fits;
    hide Run;
    var front := steps[..|steps| - 1];
    forall k | 0 <= k < |front| ensures Proper(Run(front[..k], leaf), front[k]) && Fits(Run(front[..k], leaf).db) {
      assert front[..k] == steps[..k];
    }
  }

  lemma {:induction false} RunInv(steps: seq<Step>, leaf: LeafTest)
    requires ProperRun(steps, leaf)
    ensures Inv(Run(steps, leaf))
  {
    if steps == [] {
      StartInv();
    } else {
      var n := |steps| - 1;
      ProperPrefix(steps, leaf);
      RunInv(steps[..n], leaf);
      hide Proper;
      hide Fits;
      hide Next;
      hide Inv;
      InvStep(Run(steps[..n], leaf), steps[n], leaf);
    }
  }

  lemma StartInv()
    ensures Inv(START)
  {
  }

  /**
   * Group updates over all interleavings of user and group writes and group PATCH requests
   * without reused ids: the write of a plain group PATCH changes nothing, or makes the version
   * immediately before into the next one. Then it is, up to the description of members, that of
   * the PATCH run at once exactly when the group was not emptied since the read or the request
   * does not demand members; otherwise the PATCH run at once would have been refused.
   */
  lemma EveryGroupCommitExactly(steps: seq<Step>, key: nat, order: RowOrder, leaf: LeafTest)
    requires ProperRun(steps, leaf) && key in Run(steps, leaf).pending && Plain(Run(steps, leaf).pending[key].request)
    requires ListsRows(order)
    ensures var s := Run(steps, leaf);
            var p, after := s.pending[key], Next(s, CommitGroup(key), leaf).db;
            var (serial, answer) := PatchGroup(s.db, p.id, p.request, order, leaf);
            after != s.db ==>
              && p.id in s.db.groups && p.id in after.groups
              && s.db.groups[p.id].version == p.readVersion && after.groups[p.id].version == p.readVersion + 1
              && (answer == 200 && SameTables(after, serial, p.id)
                  <==> !(Emptied(s.db, p) && Demands(p.request.operations)))
              && (Emptied(s.db, p) && Demands(p.request.operations) ==> answer == 400 && serial == s.db)
  {
    hide Run;
    hide ProperRun;
    hide FinishGroupPatch;
    hide PatchGroup;
    hide SameTables;
    hide TracksGroup;
    hide Consistent;
    hide Plain;
    hide Emptied;
    hide Demands;
    RunInv(steps, leaf);
    var s := Run(steps, leaf);
    assert PendingInv(s.db, s.pending[key], s.usedUsers, s.usedGroups);
    GroupCommitExactly(s.db, s.pending[key], order, leaf);
  }

  // ------------------------------------------------------------------ a group that is emptied

  const REMOVE_MEMBERS := PatchRequest([], [PatchOperation("remove", "members", JNull)])

  lemma MembersPath()
    ensures ParsePath("members") == Ok((["members"], ""))
  {
    hide ParsePath;
    PlainPathRoundTrip(["members"]);
  }

  lemma LowerRemove()
    ensures FilterLexer.ToLower("remove") == "remove"
  {
  }

  lemma RemovesMembers()
    ensures Plain(REMOVE_MEMBERS) && Demands(REMOVE_MEMBERS.operations)
  {
    hide ParsePath;
    hide FilterLexer.ToLower;
    hide Settling;
    MembersPath();
    LowerRemove();
    assert REMOVE_MEMBERS.operations[0] == PatchOperation("remove", "members", JNull);
    assert Demanding(REMOVE_MEMBERS.operations[0]);
  }

  lemma MembersRemoved(doc: Object, leaf: LeafTest)
    requires IsResource(GroupKind, doc) && Get(doc, "members") != JNull
    ensures ApplyPatch(GroupKind, doc, REMOVE_MEMBERS, leaf) == Ok(doc - {"members"})
  {
    assert REMOVE_MEMBERS == PatchRequest([], [PatchOperation("remove", "members", JNull)]);
    assert RemoveAt(doc, ["members"], false) == Edited(doc - {"members"});
    hide *;
    MembersPath();
    WithoutMembers(doc);
    EditOperation(GroupKind, doc, "remove", "members", ["members"], JNull, doc - {"members"}, leaf);
  }

  lemma WithoutMembers(doc: Object)
    requires IsResource(GroupKind, doc)
    ensures MapToResource(GroupKind, doc - {"members"}) == Ok(doc - {"members"})
  {
    assert WithMembers(doc, []) == doc - {"members"};
    assert Recode(JArray([]), ListOf(MemberRefShape())) == JArray([]);
    hide IsResource;
    hide Recode;
    WithMembersSettled(doc, []);
    ResourceDecodes(GroupKind, doc - {"members"});
    hide CanDecode;
    assert Encode(GroupKind, doc - {"members"}) == doc - {"members"} by { EncodesToItself(doc - {"members"}); }
  }

  lemma EncodesToItself(doc: Object)
    requires IsResource(GroupKind, doc)
    ensures Encode(GroupKind, doc) == doc
  {
  }

  /**
   * In any state with a group of one member: a PATCH that removes the members is read, the
   * member is deleted, and the PATCH is answered 200 and counts the version up, while the same
   * PATCH sent now is answered 400.
   */
  lemma EmptiedGroupIsPatched(db: Db, group: string, user: string, order: RowOrder, leaf: LeafTest)
    requires Consistent(db) && Fits(db) && ListsRows(order) && "" !in db.users
    requires group in db.groups && GroupMembers(db, group) == {user}
    ensures var p := GroupPending(group, GetGroup(db, group, order).value, db.groups[group].version, REMOVE_MEMBERS);
            var emptied := DeleteUser(db, user).0;
            && FinishGroupPatch(emptied, group, p.snapshot, p.request, leaf).1 == 200
            && PatchGroup(emptied, group, p.request, order, leaf) == (emptied, 400)
  {
    var version := db.groups[group].version;
    var p := GroupPending(group, GetGroup(db, group, order).value, version, REMOVE_MEMBERS);
    var emptied := DeleteUser(db, user).0;
    hide *;
    ReadThenDeleted(db, group, user, order);
    MembersRemoved(p.snapshot, leaf);
    RemovesMembers();
    EmptiedTags(emptied, p);
    FinishGroupPlain(emptied, group, p.snapshot, version, REMOVE_MEMBERS, leaf);
    WrittenGroup(emptied, group, p.snapshot - {"members"}, version);
    GroupCommitExactly(emptied, p, order, leaf);
    assert PatchGroup(emptied, group, p.request, order, leaf) == (emptied, 400);
  }

  lemma EmptiedTags(db: Db, p: GroupPending)
    requires TracksGroup(db, p)
    ensures p.readVersion >= 1 && Decimal.IsInt64(p.readVersion) && Get(p.snapshot, "meta") == MetaValue("Group", p.readVersion)
  {
  }

  /** The state after the only member was deleted, seen by a PATCH that read the group before. */
  lemma ReadThenDeleted(db: Db, group: string, user: string, order: RowOrder)
    requires Consistent(db) && Fits(db) && ListsRows(order) && "" !in db.users
    requires group in db.groups && GroupMembers(db, group) == {user}
    ensures var p := GroupPending(group, GetGroup(db, group, order).value, db.groups[group].version, REMOVE_MEMBERS);
            var emptied := DeleteUser(db, user).0;
            && Consistent(emptied) && TracksGroup(emptied, p) && Emptied(emptied, p) && "" !in emptied.users
            && group in emptied.groups && emptied.groups[group].version == p.readVersion
            && IsResource(GroupKind, p.snapshot) && Get(p.snapshot, "members") != JNull
  {
    var p := GroupPending(group, GetGroup(db, group, order).value, db.groups[group].version, REMOVE_MEMBERS);
    var emptied := DeleteUser(db, user).0;
    assert emptied.groups == db.groups && GroupMembers(emptied, group) == {} && emptied.users.Keys <= db.users.Keys;
    ReadTracked(db, group, REMOVE_MEMBERS, order, db.users.Keys, db.groups.Keys);
    DeletionsConsistent(db, user);
    DeleteSteps(db, user);
    ReadIsResource(db, group, order);
    ReadNames(db, group, order);
    NamedMembers(p.snapshot, db.users.Keys);
    NobodyIn(db.users.Keys);
    hide Consistent;
    hide GetGroup;
    hide DeleteUser;
    hide IsResource;
    hide MemberSet;
    hide Named;
    assert user in GroupMembers(db, group);
    hide GroupMembers;
    PendingKept(db, emptied, p, db.users.Keys, db.groups.Keys, {}, {});
    hide TracksGroup;
  }
}
