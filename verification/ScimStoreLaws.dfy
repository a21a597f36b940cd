/** What the storage operations do, seen by the reads that follow them. */
module ScimStoreLaws {
  import opened Wrappers
  import opened Json
  import opened ETag
  import opened ScimResource
  import opened ScimStore

  // ------------------------------------------------------------------ users

  /** The `meta` object of a user at a version. */
  function UserMeta(version: int): Json {
    JObject(map["resourceType" := JString("User"), "version" := JString(GenerateETag(version))])
  }

  /** Every attribute sent can be decoded, as it can once the request has been. */
  predicate IsDecoded(kind: Kind, doc: Object) {
    forall name :: name in Attributes(kind) ==> Decodable(Get(doc, name), Attributes(kind)[name].shape)
  }

  /**
   * The user that is read is the one that was sent: its id and `meta` are the store's, its
   * password is gone, and every other attribute holds what was sent.
   */
  ghost predicate IsUserSent(read: Object, doc: Object, id: string, version: int) {
    && Get(read, "id") == (if id == "" then JNull else JString(id)) && Get(read, "meta") == UserMeta(version)
    && "password" !in read
    && forall name :: name !in {"id", "meta", "password"} ==> HoldsWhatWasSent(UserKind, read, name, Get(doc, name))
  }

  /** What the store writes itself. */
  lemma StampOwn(doc: Object, id: string, version: int)
    ensures var stored := Stamp(doc, id, "User", version);
            && Get(stored, "id") == (if id == "" then JNull else JString(id)) && Get(stored, "meta") == UserMeta(version)
            && "password" !in stored
  {
    hide Encode;
    hide Recode;
    hide Attributes;
    hide GenerateETag;
    var sent := doc["id" := JString(id)]["meta" := MetaValue("User", version)] - {"password"};
    UserAttributes();
    GetEncoded(UserKind, sent, "id");
    GetEncoded(UserKind, sent, "meta");
    TagSettled(UserKind, "User", version);
    EncodedOnce(UserKind, sent, "password");
    TextRecoded(JString(id));
    TextRecoded(JNull);
  }

  /** An attribute the store does not write. */
  lemma StampOther(doc: Object, id: string, version: int, name: string)
    requires IsDecoded(UserKind, doc) && name !in {"id", "meta", "password"}
    ensures HoldsWhatWasSent(UserKind, Stamp(doc, id, "User", version), name, Get(doc, name))
  {
    hide Encode;
    hide Attributes;
    hide HoldsWhatWasSent;
    hide Decodable;
    hide MetaValue;
    var sent := doc["id" := JString(id)]["meta" := MetaValue("User", version)] - {"password"};
    assert Get(sent, name) == Get(doc, name);
    EncodedHolds(UserKind, sent, name);
  }

  lemma StampIsSent(doc: Object, id: string, version: int)
    requires IsDecoded(UserKind, doc)
    ensures IsUserSent(Stamp(doc, id, "User", version), doc, id, version)
  {
    hide Stamp;
    hide HoldsWhatWasSent;
    hide IsDecoded;
    hide UserMeta;
    StampOwn(doc, id, version);
    forall name | name !in {"id", "meta", "password"}
      ensures HoldsWhatWasSent(UserKind, Stamp(doc, id, "User", version), name, Get(doc, name))
    {
      StampOther(doc, id, version, name);
    }
  }

  predicate IsNameFree(db: Db, name: string, id: string) {
    forall other :: other in db.users && other != id ==> db.users[other].userName != name
  }

  /** All other users, the groups and the memberships are as they were. */
  ghost predicate OnlyUser(before: Db, after: Db, id: string) {
    && after.groups == before.groups && after.members == before.members
    && after.users.Keys == before.users.Keys + {id}
    && forall other :: other != id ==> GetUser(after, other) == GetUser(before, other)
  }

  /** A stored row reads as its document. */
  lemma RowIsRead(db: Db, id: string, doc: Object, version: int)
    requires id in db.users && db.users[id] == UserRow(Text(doc, "userName"), Stamp(doc, id, "User", version), version)
    requires IsDecoded(UserKind, doc)
    ensures GetUser(db, id) == Ok(Stamp(doc, id, "User", version))
    ensures IsUserSent(GetUser(db, id).value, doc, id, version)
  {
    hide Stamp;
    hide HoldsWhatWasSent;
    hide IsDecoded;
    hide GenerateETag;
    StampIsSent(doc, id, version);
    var stored := Stamp(doc, id, "User", version);
    var fields := Get(stored, "meta").fields;
    assert fields["version" := JString(GenerateETag(version))] == fields;
    assert stored["meta" := JObject(fields)] == stored;
  }

  /** A read shows the version column in the tag, whatever tag the stored document has, and all else as it is stored. */
  lemma ReadsShowTheVersion(db: Db, id: string, order: RowOrder, name: string)
    requires name != "meta"
    ensures id in db.users ==>
              && Get(GetUser(db, id).value, name) == Get(db.users[id].data, name)
              && (Get(db.users[id].data, "meta").JObject? ==>
                    Get(GetUser(db, id).value, "meta") == TaggedMeta(Get(db.users[id].data, "meta"), db.users[id].version))
    ensures id in db.groups ==>
              && (name != "members" ==> Get(GetGroup(db, id, order).value, name) == Get(db.groups[id].data, name))
              && (Get(db.groups[id].data, "meta").JObject? ==>
                    Get(GetGroup(db, id, order).value, "meta") == TaggedMeta(Get(db.groups[id].data, "meta"), db.groups[id].version))
  {
    hide GenerateETag;
    hide MemberRefs;
  }

  /** A `meta` object with the tag of a version. */
  function TaggedMeta(meta: Json, version: int): Json
    requires meta.JObject?
  {
    JObject(meta.fields["version" := JString(GenerateETag(version))])
  }

  /**
   * A user is created exactly when its id, given or made up, and its name are free. Then it is
   * answered and read as it was sent, at version 1, and nothing else has changed.
   */
  lemma CreatedExactly(db: Db, doc: Object, uuid: string)
    requires IsDecoded(UserKind, doc)
    ensures var id := if Text(doc, "id") == "" then uuid else Text(doc, "id");
            var Reply(after, result) := CreateUser(db, doc, uuid);
            if id in db.users || !IsNameFree(db, Text(doc, "userName"), id) then result == Err(Conflict) && after == db
            else result == GetUser(after, id) && result.Ok? && IsUserSent(result.value, doc, id, 1) && OnlyUser(db, after, id)
  {
    var id := if Text(doc, "id") == "" then uuid else Text(doc, "id");
    hide Stamp;
    hide IsUserSent;
    hide IsDecoded;
    hide Text;
    var after := CreateUser(db, doc, uuid).db;
    if id !in db.users && IsNameFree(db, Text(doc, "userName"), id) {
      RowIsRead(after, id, doc, 1);
    }
    hide WithVersion;
  }

  /**
   * A replacement is refused, in this order, when the user is missing, when a positive expected
   * version is not the current one, and when its name is taken. Otherwise the user is answered
   * and read as it was sent, at the next version, and nothing else has changed.
   */
  lemma ReplacedExactly(db: Db, id: string, doc: Object, expected: int)
    requires IsDecoded(UserKind, doc)
    ensures var Reply(after, result) := UpdateUser(db, id, doc, expected);
            if id !in db.users then result == Err(NotFound) && after == db
            else if expected > 0 && expected != db.users[id].version then result == Err(VersionConflict) && after == db
            else if !IsNameFree(db, Text(doc, "userName"), id) then result == Err(Conflict) && after == db
            else result == GetUser(after, id) && result.Ok? && IsUserSent(result.value, doc, id, db.users[id].version + 1)
                 && OnlyUser(db, after, id)
  {
    hide Stamp;
    hide IsUserSent;
    hide IsDecoded;
    hide Text;
    if id in db.users && !(expected > 0 && expected != db.users[id].version) && IsNameFree(db, Text(doc, "userName"), id) {
      RowIsRead(UpdateUser(db, id, doc, expected).db, id, doc, db.users[id].version + 1);
    }
    hide WithVersion;
  }

  // ------------------------------------------------------------------ attribute by attribute

  const ENTERPRISE := "urn:ietf:params:scim:schemas:extension:enterprise:2.0:User"

  /** The texts of a user that may be left out. */
  predicate IsUserText(name: string) {
    name in {"externalId", "displayName", "nickName", "profileUrl", "title", "userType", "preferredLanguage", "locale", "timezone"}
  }

  predicate IsUserList(name: string) {
    name in {"emails", "phoneNumbers", "ims", "photos", "entitlements", "roles", "x509Certificates"}
  }

  lemma NameTextDeclared(name: string)
    requires name in {"displayName", "nickName", "externalId"}
    ensures name in Attributes(UserKind) && Attributes(UserKind)[name] == TEXT
  {
  }

  lemma RoleTextDeclared(name: string)
    requires name in {"profileUrl", "title", "userType"}
    ensures name in Attributes(UserKind) && Attributes(UserKind)[name] == TEXT
  {
  }

  lemma PlaceTextDeclared(name: string)
    requires name in {"preferredLanguage", "locale", "timezone"}
    ensures name in Attributes(UserKind) && Attributes(UserKind)[name] == TEXT
  {
  }

  lemma TextDeclared(name: string)
    requires IsUserText(name)
    ensures name in Attributes(UserKind) && Attributes(UserKind)[name] == TEXT
  {
    hide Attributes;
    if name in {"displayName", "nickName", "externalId"} {
      NameTextDeclared(name);
    } else if name in {"profileUrl", "title", "userType"} {
      RoleTextDeclared(name);
    } else {
      PlaceTextDeclared(name);
    }
  }

  lemma EmailsDeclared()
    ensures "emails" in Attributes(UserKind) && Attributes(UserKind)["emails"] == Field(ListOf(MultiValueShape()), UnlessZero)
  {
  }

  lemma PhoneNumbersDeclared()
    ensures "phoneNumbers" in Attributes(UserKind) && Attributes(UserKind)["phoneNumbers"] == Field(ListOf(MultiValueShape()), UnlessZero)
  {
  }

  lemma ImsDeclared()
    ensures "ims" in Attributes(UserKind) && Attributes(UserKind)["ims"] == Field(ListOf(MultiValueShape()), UnlessZero)
  {
  }

  lemma PhotosDeclared()
    ensures "photos" in Attributes(UserKind) && Attributes(UserKind)["photos"] == Field(ListOf(MultiValueShape()), UnlessZero)
  {
  }

  lemma EntitlementsDeclared()
    ensures "entitlements" in Attributes(UserKind) && Attributes(UserKind)["entitlements"] == Field(ListOf(MultiValueShape()), UnlessZero)
  {
  }

  lemma RolesDeclared()
    ensures "roles" in Attributes(UserKind) && Attributes(UserKind)["roles"] == Field(ListOf(MultiValueShape()), UnlessZero)
  {
  }

  lemma CertificatesDeclared()
    ensures "x509Certificates" in Attributes(UserKind) && Attributes(UserKind)["x509Certificates"] == Field(ListOf(MultiValueShape()), UnlessZero)
  {
  }

  lemma ListDeclared(name: string)
    requires IsUserList(name)
    ensures name in Attributes(UserKind) && Attributes(UserKind)[name] == Field(ListOf(MultiValueShape()), UnlessZero)
  {
    hide Attributes;
    hide MultiValueShape;
    EmailsDeclared();
    PhoneNumbersDeclared();
    ImsDeclared();
    PhotosDeclared();
    EntitlementsDeclared();
    RolesDeclared();
    CertificatesDeclared();
  }

  lemma RecordsDeclared()
    ensures var a := Attributes(UserKind);
            && "active" in a && a["active"] == Field(FlagShape, UnlessNull)
            && "name" in a && a["name"] == Field(NameShape(), UnlessNull)
            && ENTERPRISE in a && a[ENTERPRISE] == Field(EnterpriseUserShape(), UnlessNull)
  {
    hide Attributes;
    ActiveDeclared();
    NameDeclared();
    EnterpriseDeclared();
  }

  lemma ActiveDeclared()
    ensures "active" in Attributes(UserKind) && Attributes(UserKind)["active"] == Field(FlagShape, UnlessNull)
  {
  }

  lemma NameDeclared()
    ensures "name" in Attributes(UserKind) && Attributes(UserKind)["name"] == Field(NameShape(), UnlessNull)
  {
  }

  lemma EnterpriseDeclared()
    ensures ENTERPRISE in Attributes(UserKind) && Attributes(UserKind)[ENTERPRISE] == Field(EnterpriseUserShape(), UnlessNull)
  {
  }

  /** `active` is kept either way, and so is every text, if it is not empty. */
  lemma PlainAttributesKept(read: Object, doc: Object, id: string, version: int, name: string)
    requires IsUserSent(read, doc, id, version)
    ensures Get(doc, "active").JBool? ==> Get(read, "active") == Get(doc, "active")
    ensures IsUserText(name) && Get(doc, name).JString? && Get(doc, name).text != "" ==> Get(read, name) == Get(doc, name)
    ensures Get(doc, "userName").JString? ==> Get(read, "userName") == Get(doc, "userName")
  {
    hide Attributes;
    RecordsDeclared();
    UserAttributes();
    assert HoldsWhatWasSent(UserKind, read, "active", Get(doc, "active"));
    assert HoldsWhatWasSent(UserKind, read, "userName", Get(doc, "userName"));
    if IsUserText(name) {
      TextDeclared(name);
      assert HoldsWhatWasSent(UserKind, read, name, Get(doc, name));
    }
  }

  /** The text of a part of an object. */
  predicate HasText(v: Json, part: string, text: string) {
    v.JObject? && Get(v.fields, part) == JString(text)
  }

  lemma TextPreserved(v: Json, r: Json, fields: Fields, part: string, text: string)
    requires Preserves(v, r, Record(fields)) && part in fields && fields[part] == TEXT && text != ""
    ensures HasText(v, part, text) ==> HasText(r, part, text)
  {
  }

  /** The parts of the name and of the enterprise extension are kept, the manager's too. */
  lemma RecordsKept(read: Object, doc: Object, id: string, version: int, part: string, text: string)
    requires IsUserSent(read, doc, id, version) && text != ""
    ensures part in {"formatted", "familyName", "givenName", "middleName", "honorificPrefix", "honorificSuffix"} ==>
              (HasText(Get(doc, "name"), part, text) ==> HasText(Get(read, "name"), part, text))
    ensures part in {"employeeNumber", "costCenter", "organization", "division", "department"} ==>
              (HasText(Get(doc, ENTERPRISE), part, text) ==> HasText(Get(read, ENTERPRISE), part, text))
    ensures part in {"value", "$ref", "displayName"} && Get(doc, ENTERPRISE).JObject?
            && HasText(Get(Get(doc, ENTERPRISE).fields, "manager"), part, text) ==>
              Get(read, ENTERPRISE).JObject? && HasText(Get(Get(read, ENTERPRISE).fields, "manager"), part, text)
  {
    RecordsDeclared();
    NameParts(part);
    EnterpriseParts(part);
    hide Attributes;
    hide NameShape;
    hide EnterpriseUserShape;
    hide ManagerShape;
    assert HoldsWhatWasSent(UserKind, read, "name", Get(doc, "name"));
    assert HoldsWhatWasSent(UserKind, read, ENTERPRISE, Get(doc, ENTERPRISE));
    hide IsUserSent;
    var name, enterprise := Get(doc, "name"), Get(doc, ENTERPRISE);
    if name.JObject? && part in NameShape().fields {
      TextPreserved(name, read["name"], NameShape().fields, part, text);
    }
    if enterprise.JObject? {
      var fields := EnterpriseUserShape().fields;
      assert Preserves(enterprise, read[ENTERPRISE], Record(fields));
      if part in fields && fields[part] == TEXT {
        TextPreserved(enterprise, read[ENTERPRISE], fields, part, text);
      }
      var manager := Get(enterprise.fields, "manager");
      if manager.JObject? && part in ManagerShape().fields {
        assert Preserves(manager, read[ENTERPRISE].fields["manager"], ManagerShape());
        TextPreserved(manager, read[ENTERPRISE].fields["manager"], ManagerShape().fields, part, text);
      }
    }
  }

  lemma NameParts(part: string)
    ensures NameShape().Record?
    ensures part in {"formatted", "familyName", "givenName", "middleName", "honorificPrefix", "honorificSuffix"} ==>
              part in NameShape().fields && NameShape().fields[part] == TEXT
    ensures part in NameShape().fields ==> NameShape().fields[part] == TEXT
  {
  }

  lemma EnterpriseParts(part: string)
    ensures EnterpriseUserShape().Record? && ManagerShape().Record?
    ensures part in {"employeeNumber", "costCenter", "organization", "division", "department"} ==>
              part in EnterpriseUserShape().fields && EnterpriseUserShape().fields[part] == TEXT
    ensures "manager" in EnterpriseUserShape().fields && EnterpriseUserShape().fields["manager"] == Field(ManagerShape(), UnlessNull)
    ensures part in {"value", "$ref", "displayName"} ==> part in ManagerShape().fields
    ensures part in ManagerShape().fields ==> ManagerShape().fields[part] == TEXT
  {
  }

  lemma MultiValueParts(part: string)
    ensures MultiValueShape().Record?
    ensures part in {"value", "display", "type", "$ref"} ==> part in MultiValueShape().fields && MultiValueShape().fields[part] == TEXT
    ensures "primary" in MultiValueShape().fields && MultiValueShape().fields["primary"] == FLAG
  {
  }

  /** Lists of addresses, numbers, roles and the like keep length and order, every text, and which one is primary. */
  lemma ListsKept(read: Object, doc: Object, id: string, version: int, name: string, i: nat, part: string, text: string)
    requires IsUserSent(read, doc, id, version) && IsUserList(name) && Get(doc, name).JArray? && text != ""
    requires part in {"value", "display", "type", "$ref"} && i < |Get(doc, name).items| && Get(doc, name).items[i].JObject?
    ensures Get(read, name).JArray? && |Get(read, name).items| == |Get(doc, name).items|
    ensures var sent, kept := Get(doc, name).items[i], Get(read, name).items[i];
            && kept.JObject?
            && (HasText(sent, part, text) ==> HasText(kept, part, text))
            && (Get(sent.fields, "primary") == JBool(true) <==> Get(kept.fields, "primary") == JBool(true))
  {
    hide Attributes;
    hide MultiValueShape;
    ListDeclared(name);
    MultiValueParts(part);
    assert HoldsWhatWasSent(UserKind, read, name, Get(doc, name));
    hide IsUserSent;
    var sent, kept := Get(doc, name).items[i], Get(read, name).items[i];
    assert Preserves(sent, kept, MultiValueShape());
    TextPreserved(sent, kept, MultiValueShape().fields, part, text);
  }

  lemma AddressesDeclared()
    ensures "addresses" in Attributes(UserKind) && Attributes(UserKind)["addresses"] == Field(ListOf(AddressShape()), UnlessZero)
  {
  }

  lemma GroupRefsDeclared()
    ensures "groups" in Attributes(UserKind) && Attributes(UserKind)["groups"] == Field(ListOf(GroupRefShape()), UnlessZero)
  {
  }

  lemma SchemasDeclared(kind: Kind)
    ensures "schemas" in Attributes(kind) && Attributes(kind)["schemas"] == Field(ListOf(TextShape), Always)
  {
  }

  lemma AddressParts(part: string)
    ensures AddressShape().Record?
    ensures part in {"formatted", "streetAddress", "locality", "region", "postalCode", "country", "type"} ==>
              part in AddressShape().fields && AddressShape().fields[part] == TEXT
    ensures "primary" in AddressShape().fields && AddressShape().fields["primary"] == FLAG
  {
  }

  lemma GroupRefParts(part: string)
    ensures GroupRefShape().Record?
    ensures part in {"value", "$ref", "display", "type"} ==> part in GroupRefShape().fields && GroupRefShape().fields[part] == TEXT
  {
  }

  /** So do addresses, */
  lemma AddressesKept(read: Object, doc: Object, id: string, version: int, i: nat, part: string, text: string)
    requires IsUserSent(read, doc, id, version) && Get(doc, "addresses").JArray? && text != ""
    requires part in {"formatted", "streetAddress", "locality", "region", "postalCode", "country", "type"}
    requires i < |Get(doc, "addresses").items| && Get(doc, "addresses").items[i].JObject?
    ensures Get(read, "addresses").JArray? && |Get(read, "addresses").items| == |Get(doc, "addresses").items|
    ensures var sent, kept := Get(doc, "addresses").items[i], Get(read, "addresses").items[i];
            && kept.JObject?
            && (HasText(sent, part, text) ==> HasText(kept, part, text))
            && (Get(sent.fields, "primary") == JBool(true) <==> Get(kept.fields, "primary") == JBool(true))
  {
    hide Attributes;
    hide AddressShape;
    AddressesDeclared();
    AddressParts(part);
    assert HoldsWhatWasSent(UserKind, read, "addresses", Get(doc, "addresses"));
    hide IsUserSent;
    var sent, kept := Get(doc, "addresses").items[i], Get(read, "addresses").items[i];
    assert Preserves(sent, kept, AddressShape());
    TextPreserved(sent, kept, AddressShape().fields, part, text);
  }

  /** and the groups a client sends with a user, which the store does not compare with its own. */
  lemma SentGroupsKept(read: Object, doc: Object, id: string, version: int, i: nat, part: string, text: string)
    requires IsUserSent(read, doc, id, version) && Get(doc, "groups").JArray? && text != ""
    requires part in {"value", "$ref", "display", "type"} && i < |Get(doc, "groups").items| && Get(doc, "groups").items[i].JObject?
    ensures Get(read, "groups").JArray? && |Get(read, "groups").items| == |Get(doc, "groups").items|
    ensures HasText(Get(doc, "groups").items[i], part, text) ==> HasText(Get(read, "groups").items[i], part, text)
  {
    hide Attributes;
    hide GroupRefShape;
    GroupRefsDeclared();
    GroupRefParts(part);
    assert HoldsWhatWasSent(UserKind, read, "groups", Get(doc, "groups"));
    hide IsUserSent;
    var sent, kept := Get(doc, "groups").items[i], Get(read, "groups").items[i];
    assert Preserves(sent, kept, GroupRefShape());
    TextPreserved(sent, kept, GroupRefShape().fields, part, text);
  }

  /** A list of texts is kept as it is, and without one there is an explicit null. */
  lemma SchemasHeld(kind: Kind, read: Object, sent: Json)
    requires HoldsWhatWasSent(kind, read, "schemas", sent)
    ensures "schemas" in read
    ensures sent.JArray? && (forall i :: 0 <= i < |sent.items| ==> sent.items[i].JString?) ==> read["schemas"] == sent
    ensures sent == JNull ==> read["schemas"] == JNull
  {
    hide Attributes;
    SchemasDeclared(kind);
    if sent.JArray? && (forall i :: 0 <= i < |sent.items| ==> sent.items[i].JString?) {
      var held := read["schemas"];
      forall i | 0 <= i < |sent.items| ensures held.items[i] == sent.items[i] {
        assert Preserves(sent.items[i], held.items[i], TextShape);
      }
      assert held.items == sent.items;
    }
  }

  /** The schemas of a user are kept. */
  lemma SchemasKept(read: Object, doc: Object, id: string, version: int)
    requires IsUserSent(read, doc, id, version)
    requires Get(doc, "schemas").JArray? && forall i :: 0 <= i < |Get(doc, "schemas").items| ==> Get(doc, "schemas").items[i].JString?
    ensures Get(read, "schemas") == Get(doc, "schemas")
  {
    hide HoldsWhatWasSent;
    assert HoldsWhatWasSent(UserKind, read, "schemas", Get(doc, "schemas"));
    hide IsUserSent;
    SchemasHeld(UserKind, read, Get(doc, "schemas"));
  }

  // ------------------------------------------------------------------ groups

  function GroupMeta(version: int): Json {
    JObject(map["resourceType" := JString("Group"), "version" := JString(GenerateETag(version))])
  }

  /** The group that is read is the one that was sent, but for its members. */
  ghost predicate IsGroupSent(read: Object, doc: Object, id: string, version: int) {
    && Get(read, "id") == (if id == "" then JNull else JString(id)) && Get(read, "meta") == GroupMeta(version)
    && forall name :: name !in {"id", "meta", "members"} ==> HoldsWhatWasSent(GroupKind, read, name, Get(doc, name))
  }

  lemma GroupTextsDeclared()
    ensures var a := Attributes(GroupKind);
            "externalId" in a && a["externalId"] == TEXT && "displayName" in a && a["displayName"] == REQUIRED
  {
  }

  /** Its name, its schemas and its external id are kept. */
  lemma GroupTextsKept(read: Object, doc: Object, id: string, version: int)
    requires IsGroupSent(read, doc, id, version)
    ensures Get(doc, "displayName").JString? ==> Get(read, "displayName") == Get(doc, "displayName")
    ensures Get(doc, "externalId").JString? && Get(doc, "externalId").text != "" ==> Get(read, "externalId") == Get(doc, "externalId")
    ensures Get(doc, "schemas").JArray? && (forall i :: 0 <= i < |Get(doc, "schemas").items| ==> Get(doc, "schemas").items[i].JString?) ==>
              Get(read, "schemas") == Get(doc, "schemas")
  {
    hide Attributes;
    GroupTextsDeclared();
    assert HoldsWhatWasSent(GroupKind, read, "displayName", Get(doc, "displayName"));
    assert HoldsWhatWasSent(GroupKind, read, "externalId", Get(doc, "externalId"));
    assert HoldsWhatWasSent(GroupKind, read, "schemas", Get(doc, "schemas"));
    hide IsGroupSent;
    SchemasHeld(GroupKind, read, Get(doc, "schemas"));
  }

  lemma StampGroupOwn(doc: Object, id: string, version: int)
    ensures var stored := StampGroup(doc, id, version);
            Get(stored, "id") == (if id == "" then JNull else JString(id)) && Get(stored, "meta") == GroupMeta(version)
  {
    hide Encode;
    hide Recode;
    hide Attributes;
    hide GenerateETag;
    var sent := doc["id" := JString(id)]["meta" := MetaValue("Group", version)];
    GroupAttributes();
    GetEncoded(GroupKind, sent, "id");
    GetEncoded(GroupKind, sent, "meta");
    TagSettled(GroupKind, "Group", version);
    TextRecoded(JString(id));
  }

  lemma StampGroupOther(doc: Object, id: string, version: int, name: string)
    requires IsDecoded(GroupKind, doc) && name !in {"id", "meta"}
    ensures HoldsWhatWasSent(GroupKind, StampGroup(doc, id, version), name, Get(doc, name))
  {
    hide Encode;
    hide Attributes;
    hide HoldsWhatWasSent;
    hide Decodable;
    hide MetaValue;
    var sent := doc["id" := JString(id)]["meta" := MetaValue("Group", version)];
    assert Get(sent, name) == Get(doc, name);
    EncodedHolds(GroupKind, sent, name);
  }

  /** A row that was just written answers and reads as it was sent; the members listed are those in the table. */
  lemma GroupRowIsRead(db: Db, id: string, doc: Object, version: int, order: RowOrder)
    requires id in db.groups && IsDecoded(GroupKind, doc)
    requires db.groups[id].version == version && db.groups[id].data == StampGroup(doc, id, version)
    ensures IsGroupSent(StampGroup(doc, id, version), doc, id, version)
    ensures GetGroup(db, id, order).Ok? && IsGroupSent(GetGroup(db, id, order).value, doc, id, version)
  {
    hide StampGroup;
    hide HoldsWhatWasSent;
    hide IsDecoded;
    hide GenerateETag;
    hide MemberRefs;
    var stored := StampGroup(doc, id, version);
    StampGroupOwn(doc, id, version);
    var fields := Get(stored, "meta").fields;
    assert fields["version" := JString(GenerateETag(version))] == fields;
    assert stored["meta" := JObject(fields)] == stored;
    var read := GetGroup(db, id, order).value;
    forall name | name !in {"id", "meta", "members"}
      ensures HoldsWhatWasSent(GroupKind, stored, name, Get(doc, name)) && HoldsWhatWasSent(GroupKind, read, name, Get(doc, name))
    {
      StampGroupOther(doc, id, version, name);
      SameHeld(stored, read, name, Get(doc, name));
    }
    assert Get(read, "id") == Get(stored, "id") && Get(read, "meta") == Get(stored, "meta");
  }

  lemma SameHeld(a: Object, b: Object, name: string, sent: Json)
    requires (name in a <==> name in b) && (name in a ==> a[name] == b[name])
    ensures HoldsWhatWasSent(GroupKind, a, name, sent) <==> HoldsWhatWasSent(GroupKind, b, name, sent)
  {
    hide Attributes;
    hide Preserves;
  }

  /** All other groups, with their members, and all users are as they were. */
  ghost predicate OnlyGroup(before: Db, after: Db, id: string, order: RowOrder) {
    && after.users == before.users && after.groups.Keys == before.groups.Keys + {id}
    && forall other :: other != id ==> GetGroup(after, other, order) == GetGroup(before, other, order)
  }

  /** The users among the members sent. */
  function SentMembers(db: Db, doc: Object): set<string> {
    set user | user in db.users && user in MemberIds(doc)
  }

  lemma OtherGroups(before: Db, after: Db, id: string, order: RowOrder)
    requires after.users == before.users && after.groups.Keys == before.groups.Keys + {id}
    requires forall other :: other in before.groups && other != id ==> after.groups[other] == before.groups[other]
    requires forall m: (string, string) :: m.0 != id ==> (m in after.members <==> m in before.members)
    ensures OnlyGroup(before, after, id, order)
  {
    hide WithVersion;
    hide MemberRef;
    forall other | other != id ensures GetGroup(after, other, order) == GetGroup(before, other, order) {
      assert GroupMembers(after, other) == GroupMembers(before, other);
      if other in before.groups {
        var rows := order(GroupMembers(before, other));
        assert MemberRefs(after, rows) == MemberRefs(before, rows) by {
          forall i | 0 <= i < |rows| ensures MemberRef(after, rows[i]) == MemberRef(before, rows[i]) {
            SameRef(before, after, rows[i]);
          }
        }
      }
    }
  }

  lemma SameRef(a: Db, b: Db, user: string)
    requires a.users == b.users
    ensures MemberRef(a, user) == MemberRef(b, user)
  {
  }

  /**
   * A group is created exactly when its id is free. It is answered as it was sent and read with
   * those of its members that are users, and nothing else has changed.
   */
  lemma GroupCreatedExactly(db: Db, doc: Object, uuid: string, order: RowOrder)
    requires IsDecoded(GroupKind, doc) && Consistent(db)
    ensures var id := if Text(doc, "id") == "" then uuid else Text(doc, "id");
            var Reply(after, result) := CreateGroup(db, doc, uuid);
            if id in db.groups then result == Err(Conflict) && after == db
            else && result.Ok? && IsGroupSent(result.value, doc, id, 1)
                 && GetGroup(after, id, order).Ok? && IsGroupSent(GetGroup(after, id, order).value, doc, id, 1)
                 && GroupMembers(after, id) == SentMembers(db, doc) && OnlyGroup(db, after, id, order)
  {
    var id := if Text(doc, "id") == "" then uuid else Text(doc, "id");
    hide StampGroup;
    hide IsGroupSent;
    hide IsDecoded;
    hide Text;
    hide MemberIds;
    hide ConsistentUser;
    hide ConsistentGroup;
    hide GetGroup;
    hide OnlyGroup;
    var after := CreateGroup(db, doc, uuid).db;
    if id !in db.groups {
      GroupRowIsRead(after, id, doc, 1, order);
      OtherGroups(db, after, id, order);
      assert GroupMembers(after, id) == SentMembers(db, doc);
    }
  }

  /** A group is replaced, or the replacement refused, as a user is, but for the name, which is free. */
  lemma GroupReplacedExactly(db: Db, id: string, doc: Object, expected: int, order: RowOrder)
    requires IsDecoded(GroupKind, doc)
    ensures var Reply(after, result) := UpdateGroup(db, id, doc, expected);
            if id !in db.groups then result == Err(NotFound) && after == db
            else if expected > 0 && expected != db.groups[id].version then result == Err(VersionConflict) && after == db
            else var version := db.groups[id].version + 1;
                 && result.Ok? && IsGroupSent(result.value, doc, id, version)
                 && GetGroup(after, id, order).Ok? && IsGroupSent(GetGroup(after, id, order).value, doc, id, version)
                 && GroupMembers(after, id) == SentMembers(db, doc) && OnlyGroup(db, after, id, order)
  {
    hide StampGroup;
    hide IsGroupSent;
    hide IsDecoded;
    hide Text;
    hide MemberIds;
    hide GetGroup;
    hide OnlyGroup;
    var after := UpdateGroup(db, id, doc, expected).db;
    if id in db.groups && !(expected > 0 && expected != db.groups[id].version) {
      GroupRowIsRead(after, id, doc, db.groups[id].version + 1, order);
      OtherGroups(db, after, id, order);
      assert GroupMembers(after, id) == SentMembers(db, doc);
    }
  }

  /** Each entry of the members of a group that is read is one of them, with its name as it is shown now. */
  lemma MembersAreShown(db: Db, id: string, order: RowOrder, i: nat)
    requires Consistent(db) && ListsRows(order) && id in db.groups
    requires var members := Get(GetGroup(db, id, order).value, "members"); members.JArray? && i < |members.items|
    ensures var member := Get(GetGroup(db, id, order).value, "members").items[i];
            && member.JObject? && Get(member.fields, "type") == JString("User")
            && var user := TextOf(Get(member.fields, "value"));
               && user in GroupMembers(db, id) && GetUser(db, user).Ok?
               && TextOf(Get(member.fields, "display")) == TextOf(Get(GetUser(db, user).value, "displayName"))
  {
    var rows := order(GroupMembers(db, id));
    var refs := MemberRefs(db, rows);
    hide ConsistentUser;
    hide ConsistentGroup;
    hide WithVersion;
    assert refs != [] ==> Get(GetGroup(db, id, order).value, "members") == JArray(refs);
    assert rows[i] in multiset(rows);
    assert refs[i] == MemberRef(db, rows[i]);
    VersionOnly(db.users[rows[i]].data, db.users[rows[i]].version);
  }

  lemma VersionOnly(doc: Object, version: int)
    ensures Get(WithVersion(doc, version), "displayName") == Get(doc, "displayName")
  {
  }

  // ------------------------------------------------------------------ single memberships

  /** Only the membership of the user in the group may be different. */
  ghost predicate OnlyMembership(before: Db, after: Db, group: string, user: string) {
    && after.users == before.users && after.groups == before.groups
    && forall m: (string, string) :: m != (group, user) ==> (m in after.members <==> m in before.members)
  }

  /**
   * A member is added to a group exactly when both exist, the group being asked for first; it is
   * removed in any case. Both views show it, and no other membership changes.
   */
  lemma MembershipsExactly(db: Db, group: string, user: string)
    ensures var (after, result) := AddGroupMember(db, group, user);
            if group !in db.groups then result == Err(GroupMissing) && after == db
            else if user !in db.users then result == Err(UserMissing) && after == db
            else result == Ok(()) && user in GroupMembers(after, group) && group in UserGroups(after, user) && OnlyMembership(db, after, group, user)
    ensures var after := RemoveGroupMember(db, group, user);
            user !in GroupMembers(after, group) && group !in UserGroups(after, user) && OnlyMembership(db, after, group, user)
  {
  }
}
