/** The SCIM tables and the operations of the storage layer, each one atomic under its lock. */
module ScimStore {
  import opened Wrappers
  import opened Json
  import opened ETag
  import opened ScimResource
  import Decimal

  /** The `user_name` column, the stored document and the version column. */
  datatype UserRow = UserRow(userName: string, data: Object, version: int)

  datatype GroupRow = GroupRow(displayName: string, data: Object, version: int)

  /** `members` holds the (group id, user id) pairs of the membership table. */
  datatype Db = Db(users: map<string, UserRow>, groups: map<string, GroupRow>, members: set<(string, string)>)

  const EMPTY_DB := Db(map[], map[], {})

  datatype StoreError = NotFound | Conflict | VersionConflict

  datatype Reply = Reply(db: Db, result: Result<Object, StoreError>)

  /** The order in which the database returns the rows of a result set. */
  type RowOrder = set<string> -> seq<string>

  ghost predicate ListsRows(order: RowOrder) {
    forall s :: multiset(order(s)) == multiset(s)
  }

  // ------------------------------------------------------------------ documents

  function Text(doc: Object, key: string): string {
    TextOf(Get(doc, key))
  }

  function MetaValue(resourceType: string, version: int): Json {
    JObject(map["resourceType" := JString(resourceType), "version" := JString(GenerateETag(version))])
  }

  /** The user as stored: identified, stamped with its version, without a password. */
  function Stamp(doc: Object, id: string, resourceType: string, version: int): Object {
    Encode(UserKind, doc["id" := JString(id)]["meta" := MetaValue(resourceType, version)] - {"password"})
  }

  /** `GetUser` refreshes the entity tag when the document has a `meta` object. */
  function WithVersion(doc: Object, version: int): Object {
    match Get(doc, "meta")
    case JObject(fields) => doc["meta" := JObject(fields["version" := JString(GenerateETag(version))])]
    case _ => doc
  }

  /** The user ids a group document names. */
  function MemberIds(doc: Object): seq<string> {
    match Get(doc, "members")
    case JArray(items) => seq(|items|, i requires 0 <= i < |items| => MemberId(items[i]))
    case _ => []
  }

  function MemberId(member: Json): string {
    if member.JObject? then Text(member.fields, "value") else ""
  }

  // ------------------------------------------------------------------ users

  /** Another user already has this name. */
  predicate NameTaken(db: Db, userName: string, except: Option<string>) {
    exists id :: id in db.users && Some(id) != except && db.users[id].userName == userName
  }

  function CreateUser(db: Db, doc: Object, uuid: string): Reply {
    var id := if Text(doc, "id") == "" then uuid else Text(doc, "id");
    var stored := Stamp(doc, id, "User", 1);
    if id in db.users || NameTaken(db, Text(doc, "userName"), None) then Reply(db, Err(Conflict))
    else Reply(db.(users := db.users[id := UserRow(Text(doc, "userName"), stored, 1)]), Ok(stored))
  }

  function GetUser(db: Db, id: string): Result<Object, StoreError> {
    if id !in db.users then Err(NotFound)
    else Ok(WithVersion(db.users[id].data, db.users[id].version))
  }

  /** Replaces a user; an expected version above zero must match the current one. */
  function UpdateUser(db: Db, id: string, doc: Object, expected: int): Reply {
    if id !in db.users then Reply(db, Err(NotFound))
    else
      var current := db.users[id].version;
      if expected > 0 && current != expected then Reply(db, Err(VersionConflict))
      else if NameTaken(db, Text(doc, "userName"), Some(id)) then Reply(db, Err(Conflict))
      else
        var stored := Stamp(doc, id, "User", current + 1);
        Reply(db.(users := db.users[id := UserRow(Text(doc, "userName"), stored, current + 1)]), Ok(stored))
  }

  /** The foreign key removes the user's memberships with it. */
  function DeleteUser(db: Db, id: string): (Db, bool) {
    if id !in db.users then (db, false)
    else (Db(db.users - {id}, db.groups, set m | m in db.members && m.1 != id), true)
  }

  // ------------------------------------------------------------------ groups

  /** Inserting a membership fails silently on a missing user and on a duplicate. */
  function InsertMembers(db: Db, group: string, ids: seq<string>): Db {
    db.(members := db.members + set id | id in ids && id in db.users && group in db.groups :: (group, id))
  }

  /** The group as stored, with the members it was sent with. */
  function StampGroup(doc: Object, id: string, version: int): Object {
    Encode(GroupKind, doc["id" := JString(id)]["meta" := MetaValue("Group", version)])
  }

  function CreateGroup(db: Db, doc: Object, uuid: string): Reply {
    var id := if Text(doc, "id") == "" then uuid else Text(doc, "id");
    var stored := StampGroup(doc, id, 1);
    if id in db.groups then Reply(db, Err(Conflict))
    else
      var inserted := db.(groups := db.groups[id := GroupRow(Text(doc, "displayName"), stored, 1)]);
      Reply(InsertMembers(inserted, id, MemberIds(doc)), Ok(stored))
  }

  /** The group row replaced and its memberships cleared. */
  function ReplaceGroupRow(db: Db, id: string, row: GroupRow): Db {
    Db(db.users, db.groups[id := row], set m | m in db.members && m.0 != id)
  }

  /** Replaces a group: its memberships are cleared and inserted again. */
  function UpdateGroup(db: Db, id: string, doc: Object, expected: int): Reply {
    if id !in db.groups then Reply(db, Err(NotFound))
    else
      var current := db.groups[id].version;
      if expected > 0 && current != expected then Reply(db, Err(VersionConflict))
      else
        var stored := StampGroup(doc, id, current + 1);
        var cleared := ReplaceGroupRow(db, id, GroupRow(Text(doc, "displayName"), stored, current + 1));
        Reply(InsertMembers(cleared, id, MemberIds(doc)), Ok(stored))
  }

  function DeleteGroup(db: Db, id: string): (Db, bool) {
    if id !in db.groups then (db, false)
    else (Db(db.users, db.groups - {id}, set m | m in db.members && m.0 != id), true)
  }

  datatype AddMemberError = GroupMissing | UserMissing

  function AddGroupMember(db: Db, group: string, user: string): (Db, Result<(), AddMemberError>) {
    if group !in db.groups then (db, Err(GroupMissing))
    else if user !in db.users then (db, Err(UserMissing))
    else (db.(members := db.members + {(group, user)}), Ok(()))
  }

  function RemoveGroupMember(db: Db, group: string, user: string): Db {
    db.(members := db.members - {(group, user)})
  }

  /** The rows of the join of users and memberships for one group. */
  function GroupMembers(db: Db, group: string): set<string> {
    set user | user in db.users && (group, user) in db.members
  }

  /** The rows of the join of groups and memberships for one user. */
  function UserGroups(db: Db, user: string): set<string> {
    set group | group in db.groups && (group, user) in db.members
  }

  function MemberRef(db: Db, user: string): Json {
    var display := if user in db.users then Text(db.users[user].data, "displayName") else "";
    var ref: Object := map["value" := JString(user), "type" := JString("User")];
    JObject(if display == "" then ref else ref["display" := JString(display)])
  }

  function MemberRefs(db: Db, users: seq<string>): seq<Json> {
    seq(|users|, i requires 0 <= i < |users| => MemberRef(db, users[i]))
  }

  /** A group without members is encoded without the attribute. */
  function WithMembers(doc: Object, refs: seq<Json>): Object {
    if refs == [] then doc - {"members"} else doc["members" := JArray(refs)]
  }

  /** The members come from the membership table, not from the stored document. */
  function GetGroup(db: Db, id: string, order: RowOrder): Result<Object, StoreError> {
    if id !in db.groups then Err(NotFound)
    else
      var doc := WithVersion(db.groups[id].data, db.groups[id].version);
      Ok(WithMembers(doc, MemberRefs(db, order(GroupMembers(db, id)))))
  }

  // ------------------------------------------------------------------ consistency

  /**
   * What holds in every reachable state: the table constraints, and that each stored
   * document carries its own id, name and entity tag and no password.
   */
  ghost predicate Consistent(db: Db) {
    && (forall m :: m in db.members ==> m.0 in db.groups && m.1 in db.users)
    && (forall i, j :: i in db.users && j in db.users && db.users[i].userName == db.users[j].userName ==> i == j)
    && (forall id :: id in db.users ==> ConsistentUser(id, db.users[id]))
    && (forall id :: id in db.groups ==> ConsistentGroup(id, db.groups[id]))
  }

  predicate ConsistentUser(id: string, row: UserRow) {
    && row.version >= 1
    && Text(row.data, "userName") == row.userName
    && Text(row.data, "id") == id
    && Get(row.data, "meta") == MetaValue("User", row.version)
    && "password" !in row.data
    && IsResource(UserKind, row.data)
  }

  predicate ConsistentGroup(id: string, row: GroupRow) {
    && row.version >= 1
    && Text(row.data, "displayName") == row.displayName
    && Text(row.data, "id") == id
    && Get(row.data, "meta") == MetaValue("Group", row.version)
    && IsResource(GroupKind, row.data)
  }

  lemma TagSettled(kind: Kind, resourceType: string, version: int)
    requires resourceType != ""
    ensures Settled(Attributes(kind), "meta", MetaValue(resourceType, version)) == MetaValue(resourceType, version)
  {
    assert GenerateETag(version) != "";
    MetaSettled(kind, resourceType, GenerateETag(version));
    hide Settled;
    hide Attributes;
    hide GenerateETag;
  }

  lemma StampedUser(doc: Object, id: string, version: int)
    requires version >= 1
    ensures ConsistentUser(id, UserRow(Text(doc, "userName"), Stamp(doc, id, "User", version), version))
  {
    hide Encode;
    hide Attributes;
    hide Settled;
    hide MetaValue;
    hide Recode;
    TextRecoded(JNull);
    var sent := doc["id" := JString(id)]["meta" := MetaValue("User", version)] - {"password"};
    UserAttributes();
    TextKept(UserKind, sent, "userName");
    TextKept(UserKind, sent, "id");
    GetEncoded(UserKind, sent, "meta");
    TagSettled(UserKind, "User", version);
    EncodedOnce(UserKind, sent, "password");
    assert Get(sent, "userName") == Get(doc, "userName");
    assert Get(sent, "password") == JNull;
    EncodeTwice(UserKind, sent);
  }

  lemma StampedGroup(doc: Object, id: string, version: int)
    requires version >= 1
    ensures ConsistentGroup(id, GroupRow(Text(doc, "displayName"), StampGroup(doc, id, version), version))
  {
    hide Encode;
    hide Attributes;
    hide Settled;
    hide MetaValue;
    var sent := doc["id" := JString(id)]["meta" := MetaValue("Group", version)];
    GroupAttributes();
    TextKept(GroupKind, sent, "displayName");
    TextKept(GroupKind, sent, "id");
    GetEncoded(GroupKind, sent, "meta");
    TagSettled(GroupKind, "Group", version);
    EncodeTwice(GroupKind, sent);
  }

  /** A group is stored with the ids it was sent with. */
  lemma StampKeepsMembers(doc: Object, id: string, version: int)
    ensures MemberIds(StampGroup(doc, id, version)) == MemberIds(doc)
    ensures Text(StampGroup(doc, id, version), "id") == id
  {
    var sent := doc["id" := JString(id)]["meta" := MetaValue("Group", version)];
    EncodeKeepsMembers(sent);
    GroupAttributes();
    TextKept(GroupKind, sent, "id");
    assert Get(sent, "members") == Get(doc, "members");
    hide Encode;
    hide Attributes;
    hide MetaValue;
    hide MemberId;
  }

  lemma EncodeKeepsMembers(doc: Object)
    ensures MemberIds(Encode(GroupKind, doc)) == MemberIds(doc)
  {
    var members := Get(doc, "members");
    GroupAttributes();
    GetEncoded(GroupKind, doc, "members");
    hide Attributes;
    hide Encode;
    if members.JArray? {
      var recoded := Recode(members, ListOf(MemberRefShape()));
      forall i | 0 <= i < |members.items| ensures MemberId(recoded.items[i]) == MemberId(members.items[i]) {
        assert recoded.items[i] == Recode(members.items[i], MemberRefShape());
        MemberIdKept(members.items[i]);
      }
    }
    hide MemberId;
  }

  lemma MemberIdKept(member: Json)
    ensures MemberId(Recode(member, MemberRefShape())) == MemberId(member)
  {
    MemberFields();
    var o: Object := if member.JObject? then member.fields else map[];
    assert Recode(member, MemberRefShape()) == Recode(JObject(o), MemberRefShape());
    RecordText(JObject(o), MemberRefShape().fields, "value");
    hide Recode;
    hide MemberRefShape;
  }

  lemma CreateUserConsistent(db: Db, doc: Object, uuid: string)
    requires Consistent(db)
    ensures Consistent(CreateUser(db, doc, uuid).db)
  {
    hide ConsistentUser;
    hide ConsistentGroup;
    hide Stamp;
    hide Text;
    StampedUser(doc, if Text(doc, "id") == "" then uuid else Text(doc, "id"), 1);
  }

  lemma UpdateUserConsistent(db: Db, id: string, doc: Object, expected: int)
    requires Consistent(db)
    ensures Consistent(UpdateUser(db, id, doc, expected).db)
  {
    hide Consistent;
    hide ConsistentUser;
    hide NameTaken;
    hide Stamp;
    hide Text;
    if id in db.users && !NameTaken(db, Text(doc, "userName"), Some(id)) {
      var next := db.users[id].version + 1;
      VersionPositive(db, id);
      StampedUser(doc, id, next);
      ReplaceUserRowConsistent(db, id, UserRow(Text(doc, "userName"), Stamp(doc, id, "User", next), next));
    }
  }

  lemma ReplaceUserRowConsistent(db: Db, id: string, row: UserRow)
    requires Consistent(db) && id in db.users && ConsistentUser(id, row) && !NameTaken(db, row.userName, Some(id))
    ensures Consistent(db.(users := db.users[id := row]))
  {
    hide ConsistentUser;
    hide ConsistentGroup;
  }

  lemma DeletionsConsistent(db: Db, id: string)
    requires Consistent(db)
    ensures Consistent(DeleteUser(db, id).0) && Consistent(DeleteGroup(db, id).0)
  {
    hide ConsistentUser;
    hide ConsistentGroup;
  }

  lemma InsertMembersConsistent(db: Db, group: string, ids: seq<string>)
    requires Consistent(db)
    ensures Consistent(InsertMembers(db, group, ids))
  {
    hide ConsistentUser;
    hide ConsistentGroup;
  }

  lemma ReplaceGroupRowConsistent(db: Db, id: string, row: GroupRow)
    requires Consistent(db) && id in db.groups && ConsistentGroup(id, row)
    ensures Consistent(ReplaceGroupRow(db, id, row))
  {
    hide ConsistentUser;
    hide ConsistentGroup;
  }

  lemma NewGroupRowConsistent(db: Db, id: string, row: GroupRow)
    requires Consistent(db) && id !in db.groups && ConsistentGroup(id, row)
    ensures Consistent(db.(groups := db.groups[id := row]))
  {
    hide ConsistentUser;
    hide ConsistentGroup;
  }

  lemma CreateGroupConsistent(db: Db, doc: Object, uuid: string)
    requires Consistent(db)
    ensures Consistent(CreateGroup(db, doc, uuid).db)
  {
    var id := if Text(doc, "id") == "" then uuid else Text(doc, "id");
    StampedGroup(doc, id, 1);
    hide ConsistentUser;
    hide ConsistentGroup;
    hide StampGroup;
    hide Text;
    if id !in db.groups {
      var row := GroupRow(Text(doc, "displayName"), StampGroup(doc, id, 1), 1);
      NewGroupRowConsistent(db, id, row);
      hide Consistent;
      InsertMembersConsistent(db.(groups := db.groups[id := row]), id, MemberIds(doc));
    }
  }

  lemma UpdateGroupConsistent(db: Db, id: string, doc: Object, expected: int)
    requires Consistent(db)
    ensures Consistent(UpdateGroup(db, id, doc, expected).db)
  {
    hide Consistent;
    hide StampGroup;
    hide Text;
    if id in db.groups {
      var next := db.groups[id].version + 1;
      var row := GroupRow(Text(doc, "displayName"), StampGroup(doc, id, next), next);
      VersionPositive(db, id);
      StampedGroup(doc, id, next);
      ReplaceGroupRowConsistent(db, id, row);
      InsertMembersConsistent(ReplaceGroupRow(db, id, row), id, MemberIds(doc));
    }
  }

  lemma VersionPositive(db: Db, id: string)
    requires Consistent(db)
    ensures id in db.users ==> db.users[id].version >= 1
    ensures id in db.groups ==> db.groups[id].version >= 1
  {
  }

  lemma MemberWritesConsistent(db: Db, group: string, user: string)
    requires Consistent(db)
    ensures Consistent(AddGroupMember(db, group, user).0)
    ensures Consistent(RemoveGroupMember(db, group, user))
  {
    hide ConsistentUser;
    hide ConsistentGroup;
  }

  /** Every operation of the storage layer keeps the tables consistent. */
  lemma StorageStaysConsistent(db: Db, id: string, doc: Object, uuid: string, expected: int, user: string)
    requires Consistent(db)
    ensures Consistent(CreateUser(db, doc, uuid).db) && Consistent(UpdateUser(db, id, doc, expected).db)
    ensures Consistent(CreateGroup(db, doc, uuid).db) && Consistent(UpdateGroup(db, id, doc, expected).db)
    ensures Consistent(DeleteUser(db, id).0) && Consistent(DeleteGroup(db, id).0)
    ensures Consistent(AddGroupMember(db, id, user).0) && Consistent(RemoveGroupMember(db, id, user))
  {
    hide Consistent;
    hide CreateUser;
    hide UpdateUser;
    hide CreateGroup;
    hide UpdateGroup;
    CreateUserConsistent(db, doc, uuid);
    UpdateUserConsistent(db, id, doc, expected);
    CreateGroupConsistent(db, doc, uuid);
    UpdateGroupConsistent(db, id, doc, expected);
    DeletionsConsistent(db, id);
    MemberWritesConsistent(db, id, user);
  }

  /** A user that reads back its own tag: the tag names exactly the current version. */
  lemma ReadTagIsVersion(db: Db, id: string)
    requires Consistent(db) && id in db.users
    ensures GetUser(db, id) == Ok(db.users[id].data)
  {
    hide IsResource;
    hide GenerateETag;
    hide ConsistentGroup;
    var row := db.users[id];
    var fields := Get(row.data, "meta").fields;
    assert fields["version" := JString(GenerateETag(row.version))] == fields;
    assert row.data["meta" := JObject(fields)] == row.data;
  }

  // ------------------------------------------------------------------ membership laws

  /** The two views of the membership table are inverse of each other. */
  lemma MembershipViewsInverse(db: Db, group: string, user: string)
    requires Consistent(db)
    ensures group in db.groups && user in GroupMembers(db, group) <==> user in db.users && group in UserGroups(db, user)
  {
    hide ConsistentUser;
    hide ConsistentGroup;
  }

  /** After a create or a replace, the members are exactly the requested ids that are users. */
  lemma WrittenMembers(db: Db, id: string, doc: Object, uuid: string, expected: int, user: string)
    requires Consistent(db)
    ensures var r := CreateGroup(db, doc, uuid);
            r.result.Ok? ==>
              (user in GroupMembers(r.db, Text(r.result.value, "id")) <==> user in MemberIds(doc) && user in db.users)
    ensures var r := UpdateGroup(db, id, doc, expected);
            r.result.Ok? ==> (user in GroupMembers(r.db, id) <==> user in MemberIds(doc) && user in db.users)
  {
    hide ConsistentUser;
    hide ConsistentGroup;
    var created := if Text(doc, "id") == "" then uuid else Text(doc, "id");
    StampKeepsMembers(doc, created, 1);
    hide MemberIds;
    hide StampGroup;
  }

  /** A group document that is read back lists each member once. */
  lemma ReadMembers(db: Db, id: string, order: RowOrder)
    requires ListsRows(order) && id in db.groups
    ensures var listed := MemberIds(GetGroup(db, id, order).value);
            multiset(listed) == multiset(GroupMembers(db, id))
  {
    var users := order(GroupMembers(db, id));
    var refs := MemberRefs(db, users);
    assert MemberIds(GetGroup(db, id, order).value) == users by {
      forall i | 0 <= i < |users| ensures MemberId(refs[i]) == users[i] {
        assert refs[i] == MemberRef(db, users[i]);
      }
    }
  }

  /**
   * The response of a group create lists the members as they were requested; it agrees with
   * what a later read returns exactly when all of them are users.
   */
  lemma CreateResponseAgreesExactly(db: Db, doc: Object, uuid: string)
    requires Consistent(db) && CreateGroup(db, doc, uuid).result.Ok?
    ensures var r := CreateGroup(db, doc, uuid);
            (set u | u in MemberIds(r.result.value)) == GroupMembers(r.db, Text(r.result.value, "id"))
            <==> forall u :: u in MemberIds(doc) ==> u in db.users
  {
    hide ConsistentUser;
    hide ConsistentGroup;
    var r := CreateGroup(db, doc, uuid);
    var id := Text(r.result.value, "id");
    StampKeepsMembers(doc, if Text(doc, "id") == "" then uuid else Text(doc, "id"), 1);
    hide StampGroup;
    hide MemberIds;
    forall u ensures u in GroupMembers(r.db, id) <==> u in MemberIds(doc) && u in db.users {
      WrittenMembers(db, id, doc, uuid, 0, u);
    }
  }

  // ------------------------------------------------------------------ reachable states

  datatype Call =
    | CreateUserCall(doc: Object, uuid: string)
    | UpdateUserCall(id: string, doc: Object, expected: int)
    | DeleteUserCall(id: string)
    | CreateGroupCall(doc: Object, uuid: string)
    | UpdateGroupCall(id: string, doc: Object, expected: int)
    | DeleteGroupCall(id: string)
    | AddMemberCall(id: string, user: string)
    | RemoveMemberCall(id: string, user: string)

  function Step(db: Db, call: Call): Db {
    match call
    case CreateUserCall(doc, uuid) => CreateUser(db, doc, uuid).db
    case UpdateUserCall(id, doc, expected) => UpdateUser(db, id, doc, expected).db
    case DeleteUserCall(id) => DeleteUser(db, id).0
    case CreateGroupCall(doc, uuid) => CreateGroup(db, doc, uuid).db
    case UpdateGroupCall(id, doc, expected) => UpdateGroup(db, id, doc, expected).db
    case DeleteGroupCall(id) => DeleteGroup(db, id).0
    case AddMemberCall(id, user) => AddGroupMember(db, id, user).0
    case RemoveMemberCall(id, user) => RemoveGroupMember(db, id, user)
  }

  /** The tables after a history of calls, from empty ones. */
  function Reached(calls: seq<Call>): Db {
    if calls == [] then EMPTY_DB else Step(Reached(calls[..|calls| - 1]), calls[|calls| - 1])
  }

  lemma StepConsistent(db: Db, call: Call)
    requires Consistent(db)
    ensures Consistent(Step(db, call))
  {
    hide Consistent;
    hide CreateUser;
    hide UpdateUser;
    hide CreateGroup;
    hide UpdateGroup;
    hide DeleteUser;
    hide DeleteGroup;
    hide AddGroupMember;
    hide RemoveGroupMember;
    match call
    case CreateUserCall(doc, uuid) => CreateUserConsistent(db, doc, uuid);
    case UpdateUserCall(id, doc, expected) => UpdateUserConsistent(db, id, doc, expected);
    case DeleteUserCall(id) => DeletionsConsistent(db, id);
    case CreateGroupCall(doc, uuid) => CreateGroupConsistent(db, doc, uuid);
    case UpdateGroupCall(id, doc, expected) => UpdateGroupConsistent(db, id, doc, expected);
    case DeleteGroupCall(id) => DeletionsConsistent(db, id);
    case AddMemberCall(id, user) => MemberWritesConsistent(db, id, user);
    case RemoveMemberCall(id, user) => MemberWritesConsistent(db, id, user);
  }

  lemma {:induction false} ReachedConsistent(calls: seq<Call>)
    ensures Consistent(Reached(calls))
  {
    if calls == [] {
      assert Consistent(EMPTY_DB);
    } else {
      hide Consistent;
      hide Step;
      ReachedConsistent(calls[..|calls| - 1]);
      StepConsistent(Reached(calls[..|calls| - 1]), calls[|calls| - 1]);
    }
  }

  /**
   * In every reachable state a group that is read lists a user exactly when that user's groups
   * include it, no user is listed twice, and every listed user exists.
   */
  lemma ViewsInverseWhenReached(calls: seq<Call>, order: RowOrder, group: string, user: string)
    requires ListsRows(order) && group in Reached(calls).groups
    ensures var db := Reached(calls);
            var listed := multiset(MemberIds(GetGroup(db, group, order).value));
            && (user in listed <==> user in db.users && group in UserGroups(db, user))
            && listed[user] <= 1
  {
    ReachedConsistent(calls);
    ReadMembers(Reached(calls), group, order);
    MembershipViewsInverse(Reached(calls), group, user);
    hide Consistent;
    hide Reached;
    hide GetGroup;
    hide MemberIds;
  }

  /**
   * Deleting a user, whatever happened before: no membership row, no group that is read and no
   * list of groups names it any more, every other user is in the groups it was in, and every
   * group lists the same other members.
   */
  lemma DeletionCleansUp(calls: seq<Call>, id: string, order: RowOrder, group: string, user: string)
    requires ListsRows(order)
    ensures var before, after := Reached(calls), Reached(calls + [DeleteUserCall(id)]);
            && id !in after.users && UserGroups(after, id) == {} && (forall m :: m in after.members ==> m.1 != id)
            && (user != id ==> UserGroups(after, user) == UserGroups(before, user))
            && (group in before.groups ==>
                  && group in after.groups
                  && (user in MemberIds(GetGroup(after, group, order).value)
                      <==> user != id && user in MemberIds(GetGroup(before, group, order).value)))
  {
    var before, after := Reached(calls), Reached(calls + [DeleteUserCall(id)]);
    OneCall(calls, DeleteUserCall(id));
    ReachedConsistent(calls);
    ReachedConsistent(calls + [DeleteUserCall(id)]);
    DeletedUser(before, id, user);
    if group in before.groups {
      ReadMembersOf(before, group, order, user);
      ReadMembersOf(after, group, order, user);
    }
    hide *;
  }

  lemma DeletedUser(before: Db, id: string, user: string)
    requires Consistent(before)
    ensures var after := Step(before, DeleteUserCall(id));
            && id !in after.users && UserGroups(after, id) == {} && (forall m :: m in after.members ==> m.1 != id)
            && after.groups == before.groups
            && (user != id ==> UserGroups(after, user) == UserGroups(before, user))
            && forall g :: user in GroupMembers(after, g) <==> user != id && user in GroupMembers(before, g)
  {
    hide ConsistentUser;
    hide ConsistentGroup;
  }

  /** Membership in a group that is read is membership in the table. */
  lemma ReadMembersOf(db: Db, group: string, order: RowOrder, user: string)
    requires ListsRows(order) && group in db.groups
    ensures user in MemberIds(GetGroup(db, group, order).value) <==> user in GroupMembers(db, group)
  {
    ReadMembers(db, group, order);
    hide GetGroup;
    hide MemberIds;
    hide GroupMembers;
    var listed := MemberIds(GetGroup(db, group, order).value);
    assert user in listed <==> user in multiset(listed);
  }

  /** The same for a group: no user's list of groups names it, and all others are as they were. */
  lemma GroupDeletionCleansUp(calls: seq<Call>, id: string, group: string, user: string)
    ensures var before, after := Reached(calls), Reached(calls + [DeleteGroupCall(id)]);
            && id !in after.groups && (forall m :: m in after.members ==> m.0 != id)
            && (group in UserGroups(after, user) <==> group != id && group in UserGroups(before, user))
  {
    OneCall(calls, DeleteGroupCall(id));
    ReachedConsistent(calls);
    hide ConsistentUser;
    hide ConsistentGroup;
    hide Reached;
  }

  lemma OneCall(calls: seq<Call>, call: Call)
    ensures Reached(calls + [call]) == Step(Reached(calls), call)
  {
    assert (calls + [call])[..|calls|] == calls;
  }

  // ------------------------------------------------------------------ the storage object

  class Storage {
    var users: map<string, UserRow>
    var groups: map<string, GroupRow>
    var members: set<(string, string)>
    const order: RowOrder

    constructor (order: RowOrder)
      ensures State() == EMPTY_DB && this.order == order
    {
      users, groups, members := map[], map[], {};
      this.order := order;
    }

    function State(): Db
      reads this
    {
      Db(users, groups, members)
    }

    method Create(doc: Object, uuid: string) returns (r: Result<Object, StoreError>)
      modifies this
      ensures Reply(State(), r) == CreateUser(old(State()), doc, uuid)
    {
      var id := Text(doc, "id");
      if id == "" {
        id := uuid;
      }
      var stored := Stamp(doc, id, "User", 1);
      if id in users || NameTaken(State(), Text(doc, "userName"), None) {
        return Err(Conflict);
      }
      users := users[id := UserRow(Text(doc, "userName"), stored, 1)];
      return Ok(stored);
    }

    method Read(id: string) returns (r: Result<Object, StoreError>)
      ensures r == GetUser(State(), id)
    {
      if id !in users {
        return Err(NotFound);
      }
      return Ok(WithVersion(users[id].data, users[id].version));
    }

    method Update(id: string, doc: Object, expected: int) returns (r: Result<Object, StoreError>)
      modifies this
      ensures Reply(State(), r) == UpdateUser(old(State()), id, doc, expected)
    {
      if id !in users {
        return Err(NotFound);
      }
      var current := users[id].version;
      if expected > 0 && current != expected {
        return Err(VersionConflict);
      }
      if NameTaken(State(), Text(doc, "userName"), Some(id)) {
        return Err(Conflict);
      }
      var stored := Stamp(doc, id, "User", current + 1);
      users := users[id := UserRow(Text(doc, "userName"), stored, current + 1)];
      return Ok(stored);
    }

    method Delete(id: string) returns (found: bool)
      modifies this
      ensures (State(), found) == DeleteUser(old(State()), id)
    {
      if id !in users {
        return false;
      }
      users := users - {id};
      members := set m | m in members && m.1 != id;
      return true;
    }

    method CreateGroupRow(doc: Object, uuid: string) returns (r: Result<Object, StoreError>)
      modifies this
      ensures Reply(State(), r) == CreateGroup(old(State()), doc, uuid)
    {
      var id := Text(doc, "id");
      if id == "" {
        id := uuid;
      }
      if id in groups {
        return Err(Conflict);
      }
      var stored := StampGroup(doc, id, 1);
      groups := groups[id := GroupRow(Text(doc, "displayName"), stored, 1)];
      AddMembers(id, MemberIds(doc));
      return Ok(stored);
    }

    /** The loop that inserts membership rows and goes on after a failed insert. */
    method AddMembers(group: string, ids: seq<string>)
      modifies this
      ensures State() == InsertMembers(old(State()), group, ids)
    {
      for n := 0 to |ids|
        invariant State() == InsertMembers(old(State()), group, ids[..n])
      {
        assert ids[..n + 1] == ids[..n] + [ids[n]];
        if (group, ids[n]) !in members && group in groups && ids[n] in users {
          members := members + {(group, ids[n])};
        }
      }
      assert ids[..|ids|] == ids;
    }

    method ReadGroup(id: string) returns (r: Result<Object, StoreError>)
      ensures r == GetGroup(State(), id, order)
    {
      if id !in groups {
        return Err(NotFound);
      }
      var doc := WithVersion(groups[id].data, groups[id].version);
      var refs := ReadMemberRefs(id);
      return Ok(WithMembers(doc, refs));
    }

    method ReadMemberRefs(group: string) returns (refs: seq<Json>)
      ensures refs == MemberRefs(State(), order(GroupMembers(State(), group)))
    {
      var rows := order(GroupMembers(State(), group));
      refs := [];
      for n := 0 to |rows|
        invariant refs == MemberRefs(State(), rows[..n])
      {
        refs := refs + [MemberRef(State(), rows[n])];
        assert rows[..n + 1] == rows[..n] + [rows[n]];
      }
      assert rows[..|rows|] == rows;
    }

    method UpdateGroupRow(id: string, doc: Object, expected: int) returns (r: Result<Object, StoreError>)
      modifies this
      ensures Reply(State(), r) == UpdateGroup(old(State()), id, doc, expected)
    {
      if id !in groups {
        return Err(NotFound);
      }
      var current := groups[id].version;
      if expected > 0 && current != expected {
        return Err(VersionConflict);
      }
      var stored := StampGroup(doc, id, current + 1);
      groups := groups[id := GroupRow(Text(doc, "displayName"), stored, current + 1)];
      members := set m | m in members && m.0 != id;
      AddMembers(id, MemberIds(doc));
      return Ok(stored);
    }

    method DeleteGroupRow(id: string) returns (found: bool)
      modifies this
      ensures (State(), found) == DeleteGroup(old(State()), id)
    {
      if id !in groups {
        return false;
      }
      groups := groups - {id};
      members := set m | m in members && m.0 != id;
      return true;
    }

    method AddMember(group: string, user: string) returns (r: Result<(), AddMemberError>)
      modifies this
      ensures (State(), r) == AddGroupMember(old(State()), group, user)
    {
      if group !in groups {
        return Err(GroupMissing);
      }
      if user !in users {
        return Err(UserMissing);
      }
      members := members + {(group, user)};
      return Ok(());
    }

    method RemoveMember(group: string, user: string)
      modifies this
      ensures State() == RemoveGroupMember(old(State()), group, user)
    {
      members := members - {(group, user)};
    }
  }
}
