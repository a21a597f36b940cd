/**
 * The resource types, and what is left of a JSON document that is decoded into one of them and
 * encoded again.
 */
module ScimResource {
  import opened Json

  /** When a field is written: always, unless it has its zero value, or unless its pointer is nil. */
  datatype Presence = Always | UnlessZero | UnlessNull

  datatype Shape = TextShape | FlagShape | ListOf(element: Shape) | Record(fields: map<string, Field>)

  datatype Field = Field(shape: Shape, presence: Presence)

  type Fields = map<string, Field>

  // ------------------------------------------------------------------ the types

  datatype Kind = UserKind | GroupKind

  const REQUIRED := Field(TextShape, Always)
  const TEXT := Field(TextShape, UnlessZero)
  const FLAG := Field(FlagShape, UnlessZero)

  /** Times are texts here: their syntax is not looked at. */
  const TIME := Field(TextShape, UnlessNull)

  function MetaShape(): Shape {
    Record(map["resourceType" := TEXT, "created" := TIME, "lastModified" := TIME, "location" := TEXT, "version" := TEXT])
  }

  function NameShape(): Shape {
    Record(map[
      "formatted" := TEXT, "familyName" := TEXT, "givenName" := TEXT, "middleName" := TEXT,
      "honorificPrefix" := TEXT, "honorificSuffix" := TEXT])
  }

  function MultiValueShape(): Shape {
    Record(map["value" := TEXT, "display" := TEXT, "type" := TEXT, "primary" := FLAG, "$ref" := TEXT])
  }

  function AddressShape(): Shape {
    Record(map[
      "formatted" := TEXT, "streetAddress" := TEXT, "locality" := TEXT, "region" := TEXT,
      "postalCode" := TEXT, "country" := TEXT, "type" := TEXT, "primary" := FLAG])
  }

  function GroupRefShape(): Shape {
    Record(map["value" := TEXT, "$ref" := TEXT, "display" := TEXT, "type" := TEXT])
  }

  function ManagerShape(): Shape {
    Record(map["value" := TEXT, "$ref" := TEXT, "displayName" := TEXT])
  }

  function EnterpriseUserShape(): Shape {
    Record(map[
      "employeeNumber" := TEXT, "costCenter" := TEXT, "organization" := TEXT, "division" := TEXT,
      "department" := TEXT, "manager" := Field(ManagerShape(), UnlessNull)])
  }

  function MemberRefShape(): Shape {
    Record(map["value" := REQUIRED, "$ref" := TEXT, "display" := TEXT, "type" := TEXT])
  }

  function Values(): Field {
    Field(ListOf(MultiValueShape()), UnlessZero)
  }

  function CommonFields(): Fields {
    map["schemas" := Field(ListOf(TextShape), Always), "id" := TEXT, "externalId" := TEXT, "meta" := Field(MetaShape(), UnlessNull)]
  }

  function UserFields(): Fields {
    map[
      "phoneNumbers" := Values(), "ims" := Values(), "photos" := Values(), "entitlements" := Values(),
      "roles" := Values(), "x509Certificates" := Values(), "addresses" := Field(ListOf(AddressShape()), UnlessZero),
      "groups" := Field(ListOf(GroupRefShape()), UnlessZero), "name" := Field(NameShape(), UnlessNull),
      "urn:ietf:params:scim:schemas:extension:enterprise:2.0:User" := Field(EnterpriseUserShape(), UnlessNull),
      "emails" := Values(), "active" := Field(FlagShape, UnlessNull), "nickName" := TEXT, "profileUrl" := TEXT, "userType" := TEXT,
      "preferredLanguage" := TEXT, "locale" := TEXT, "timezone" := TEXT, "title" := TEXT, "displayName" := TEXT,
      "password" := TEXT, "userName" := REQUIRED]
  }

  function GroupFields(): Fields {
    map["displayName" := REQUIRED, "members" := Field(ListOf(MemberRefShape()), UnlessZero)]
  }

  function Attributes(kind: Kind): Fields {
    (if kind.UserKind? then UserFields() else GroupFields()) + CommonFields()
  }

  // ------------------------------------------------------------------ decoding and encoding

  /** The value can be decoded: null always can, everything else has to be of the type. */
  predicate Decodable(v: Json, shape: Shape)
    decreases shape
  {
    v.JNull? ||
    match shape
    case TextShape => v.JString?
    case FlagShape => v.JBool?
    case ListOf(element) => v.JArray? && forall i :: 0 <= i < |v.items| ==> Decodable(v.items[i], element)
    case Record(fields) => v.JObject? && forall name :: name in fields ==> Decodable(Get(v.fields, name), fields[name].shape)
  }

  /** The value after decoding and encoding; what cannot be decoded leaves the zero value. */
  function Recode(v: Json, shape: Shape): (r: Json)
    decreases shape
  {
    match shape
    case TextShape => JString(TextOf(v))
    case FlagShape => JBool(v.JBool? && v.b)
    case ListOf(element) =>
      if v.JArray? then JArray(seq(|v.items|, i requires 0 <= i < |v.items| => Recode(v.items[i], element))) else JNull
    case Record(fields) =>
      var o := if v.JObject? then v.fields else map[];
      JObject(map name | name in fields && IsWritten(fields[name].presence, Get(o, name), Recode(Get(o, name), fields[name].shape))
                  :: Recode(Get(o, name), fields[name].shape))
  }

  predicate IsWritten(presence: Presence, v: Json, recoded: Json) {
    match presence
    case Always => true
    case UnlessZero => !IsZero(recoded)
    case UnlessNull => v != JNull && recoded != JNull
  }

  predicate IsZero(v: Json) {
    v == JNull || v == JString("") || v == JBool(false) || v == JArray([])
  }

  /** What an attribute holds after a value was put there. */
  function Settled(fields: Fields, name: string, v: Json): Json {
    if name in fields && IsWritten(fields[name].presence, v, Recode(v, fields[name].shape))
    then Recode(v, fields[name].shape) else JNull
  }

  /** What the attribute at a path of objects holds after a value was put there. */
  function Held(fields: Fields, path: seq<string>, v: Json): Json
    requires path != []
    decreases |path|
  {
    if path[0] !in fields then JNull
    else if |path| == 1 then Settled(fields, path[0], v)
    else if fields[path[0]].shape.Record? then Held(fields[path[0]].shape.fields, path[1..], v)
    else JNull
  }

  /** The document is one that some value of the resource type is encoded as, as far as this attribute goes. */
  predicate IsSettled(kind: Kind, doc: Object, name: string) {
    Settled(Attributes(kind), name, Get(doc, name)) == Get(doc, name)
  }

  function Encode(kind: Kind, doc: Object): Object {
    Recode(JObject(doc), Record(Attributes(kind))).fields
  }

  predicate CanDecode(kind: Kind, doc: Object) {
    Decodable(JObject(doc), Record(Attributes(kind)))
  }

  /** The document is the encoding of a resource. */
  predicate IsResource(kind: Kind, doc: Object) {
    Encode(kind, doc) == doc
  }

  // ------------------------------------------------------------------ laws

  lemma {:induction false} RecodeTwice(v: Json, shape: Shape)
    ensures Recode(Recode(v, shape), shape) == Recode(v, shape) && Decodable(Recode(v, shape), shape)
    decreases shape
  {
    var once := Recode(v, shape);
    match shape
    case TextShape =>
    case FlagShape =>
    case ListOf(element) =>
      if v.JArray? {
        forall i | 0 <= i < |v.items|
          ensures Recode(once.items[i], element) == once.items[i] && Decodable(once.items[i], element)
        {
          RecodeTwice(v.items[i], element);
        }
        assert Recode(once, shape).items == once.items;
      }
    case Record(fields) =>
      RecordTwice(v, fields);
  }

  lemma {:induction false} RecordTwice(v: Json, fields: Fields)
    ensures var shape := Record(fields); Recode(Recode(v, shape), shape) == Recode(v, shape) && Decodable(Recode(v, shape), shape)
    decreases Record(fields), 0
  {
    var shape := Record(fields);
    var once := Recode(v, shape);
    var o := if v.JObject? then v.fields else map[];
    forall name | name in fields
      ensures Decodable(Get(once.fields, name), fields[name].shape)
      ensures Settled(fields, name, Get(once.fields, name)) == Settled(fields, name, Get(o, name)) == Get(once.fields, name)
      ensures name in once.fields <==> IsWritten(fields[name].presence, Get(once.fields, name), Recode(Get(once.fields, name), fields[name].shape))
    {
      RecodeTwice(Get(o, name), fields[name].shape);
      RecodeTwice(JNull, fields[name].shape);
    }
    assert Recode(once, shape).fields == once.fields;
  }

  lemma EncodeTwice(kind: Kind, doc: Object)
    ensures IsResource(kind, Encode(kind, doc)) && CanDecode(kind, Encode(kind, doc))
  {
    RecodeTwice(JObject(doc), Record(Attributes(kind)));
    hide Attributes;
  }

  lemma ResourceDecodes(kind: Kind, doc: Object)
    requires IsResource(kind, doc)
    ensures CanDecode(kind, doc)
  {
    EncodeTwice(kind, doc);
    hide Encode;
    hide CanDecode;
  }

  lemma GetEncoded(kind: Kind, doc: Object, name: string)
    ensures Get(Encode(kind, doc), name) == Settled(Attributes(kind), name, Get(doc, name))
    ensures IsSettled(kind, Encode(kind, doc), name)
  {
    EncodedOnce(kind, doc, name);
    EncodedOnce(kind, Encode(kind, doc), name);
    EncodeTwice(kind, doc);
    hide Attributes;
    hide Encode;
    hide Settled;
  }

  lemma EncodedOnce(kind: Kind, doc: Object, name: string)
    ensures Get(Encode(kind, doc), name) == Settled(Attributes(kind), name, Get(doc, name))
    ensures name in Encode(kind, doc) <==>
            name in Attributes(kind)
            && IsWritten(Attributes(kind)[name].presence, Get(doc, name), Recode(Get(doc, name), Attributes(kind)[name].shape))
  {
    hide Attributes;
  }

  /** Every attribute of an encoded resource is settled. */
  lemma ResourceSettled(kind: Kind, doc: Object, name: string)
    requires IsResource(kind, doc)
    ensures IsSettled(kind, doc, name)
  {
    GetEncoded(kind, doc, name);
    hide Encode;
    hide Settled;
  }

  lemma RecordGet(v: Json, fields: Fields, name: string)
    requires v.JObject?
    ensures Recode(v, Record(fields)).JObject?
    ensures Get(Recode(v, Record(fields)).fields, name) == Settled(fields, name, Get(v.fields, name))
    ensures name in Recode(v, Record(fields)).fields <==>
            name in fields && IsWritten(fields[name].presence, Get(v.fields, name), Recode(Get(v.fields, name), fields[name].shape))
  {
  }

  /** A field does not depend on the others. */
  lemma RecodeWithout(fields: Fields, d: Object, e: Object, name: string)
    requires d - {name} == e - {name}
    ensures Recode(JObject(d), Record(fields)).fields - {name} == Recode(JObject(e), Record(fields)).fields - {name}
  {
    var x, y := Recode(JObject(d), Record(fields)).fields - {name}, Recode(JObject(e), Record(fields)).fields - {name};
    hide Recode;
    hide Settled;
    hide IsWritten;
    forall key | key != name ensures (key in x <==> key in y) && Get(x, key) == Get(y, key) {
      RecordGet(JObject(d), fields, key);
      RecordGet(JObject(e), fields, key);
      assert Get(d, key) == Get(d - {name}, key) && Get(e, key) == Get(e - {name}, key);
      assert Get(x, key) == Get(Recode(JObject(d), Record(fields)).fields, key);
      assert Get(y, key) == Get(Recode(JObject(e), Record(fields)).fields, key);
    }
    forall key | key in x ensures key in y && x[key] == y[key] {
      assert Get(x, key) == Get(y, key);
    }
  }

  lemma EncodeWithout(kind: Kind, d: Object, e: Object, name: string)
    requires d - {name} == e - {name}
    ensures Encode(kind, d) - {name} == Encode(kind, e) - {name}
  {
    RecodeWithout(Attributes(kind), d, e, name);
    hide Recode;
    hide Attributes;
  }

  predicate IsRecoded(fields: Fields, o: Object) {
    Recode(JObject(o), Record(fields)) == JObject(o)
  }

  /** Putting a value that a field holds into a record. */
  lemma PutSettled(fields: Fields, o: Object, name: string, v: Json)
    requires IsRecoded(fields, o) && name in fields && Settled(fields, name, v) == v && v != JNull
    ensures IsRecoded(fields, o[name := v])
  {
    var after := Recode(JObject(o[name := v]), Record(fields)).fields;
    assert o[name := v] - {name} == o - {name};
    RecodeWithout(fields, o[name := v], o, name);
    RecordGet(JObject(o[name := v]), fields, name);
    assert name in after && after[name] == v;
    assert after == (after - {name})[name := v];
    assert o[name := v] == (o - {name})[name := v];
    hide Recode;
    hide Settled;
  }

  /** Taking an optional field out of a record. */
  lemma DropSettled(fields: Fields, o: Object, name: string)
    requires IsRecoded(fields, o) && name in fields
    requires !IsWritten(fields[name].presence, JNull, Recode(JNull, fields[name].shape))
    ensures IsRecoded(fields, o - {name})
  {
    var after := Recode(JObject(o - {name}), Record(fields)).fields;
    assert o - {name} - {name} == o - {name};
    RecodeWithout(fields, o - {name}, o, name);
    RecordGet(JObject(o - {name}), fields, name);
    assert name !in after;
    assert after == after - {name};
    hide Recode;
    hide Settled;
  }

  lemma ResourceIsRecoded(kind: Kind, doc: Object)
    ensures IsResource(kind, doc) <==> IsRecoded(Attributes(kind), doc)
  {
    hide Attributes;
  }

  /** Documents that differ in one attribute only can be decoded alike if that attribute can. */
  lemma DecodeWithout(kind: Kind, d: Object, e: Object, name: string)
    requires d - {name} == e - {name} && name in Attributes(kind)
    requires Decodable(Get(d, name), Attributes(kind)[name].shape) <==> Decodable(Get(e, name), Attributes(kind)[name].shape)
    ensures CanDecode(kind, d) <==> CanDecode(kind, e)
  {
    hide Attributes;
    forall key | key in Attributes(kind)
      ensures Decodable(Get(d, key), Attributes(kind)[key].shape) <==> Decodable(Get(e, key), Attributes(kind)[key].shape)
    {
      if key != name {
        assert Get(d, key) == Get(d - {name}, key) && Get(e, key) == Get(e - {name}, key);
      }
    }
  }

  // ------------------------------------------------------------------ single attributes

  lemma UserAttributes()
    ensures var a := Attributes(UserKind);
            && "id" in a && a["id"] == TEXT && "userName" in a && a["userName"] == REQUIRED
            && "displayName" in a && a["displayName"] == TEXT && "title" in a && a["title"] == TEXT
            && "password" in a && a["password"] == TEXT && "meta" in a && a["meta"] == Field(MetaShape(), UnlessNull)
  {
  }

  lemma GroupAttributes()
    ensures var a := Attributes(GroupKind);
            && "id" in a && a["id"] == TEXT && "displayName" in a && a["displayName"] == REQUIRED
            && "meta" in a && a["meta"] == Field(MetaShape(), UnlessNull)
            && "members" in a && a["members"] == Field(ListOf(MemberRefShape()), UnlessZero)
  {
  }

  lemma TextSettled(fields: Fields, name: string, v: Json)
    requires name in fields && fields[name] in {TEXT, REQUIRED}
    ensures TextOf(Settled(fields, name, v)) == TextOf(v)
  {
  }

  /** A text attribute keeps its text, whether or not it is written. */
  lemma TextKept(kind: Kind, doc: Object, name: string)
    requires name in Attributes(kind) && Attributes(kind)[name] in {TEXT, REQUIRED}
    ensures TextOf(Get(Encode(kind, doc), name)) == TextOf(Get(doc, name))
  {
    EncodedOnce(kind, doc, name);
    hide Attributes;
    hide Encode;
  }

  lemma MetaFields()
    ensures MetaShape().Record?
    ensures var f := MetaShape().fields;
            && (forall name :: name in f ==> f[name] in {TEXT, TIME})
            && "version" in f && f["version"] == TEXT && "resourceType" in f && f["resourceType"] == TEXT
  {
  }

  lemma MemberFields()
    ensures MemberRefShape().Record? && "value" in MemberRefShape().fields && MemberRefShape().fields["value"] == REQUIRED
    ensures "display" in MemberRefShape().fields && "type" in MemberRefShape().fields
    ensures forall name :: name in MemberRefShape().fields && name != "value" ==> MemberRefShape().fields[name] == TEXT
  {
  }

  lemma MetaAttribute(kind: Kind)
    ensures "meta" in Attributes(kind) && Attributes(kind)["meta"] == Field(MetaShape(), UnlessNull)
  {
  }

  lemma TextRecoded(v: Json)
    ensures Recode(v, TextShape) == JString(TextOf(v))
  {
  }

  lemma RecordText(v: Json, fields: Fields, name: string)
    requires v.JObject? && name in fields && fields[name] in {TEXT, REQUIRED}
    ensures var r := Recode(v, Record(fields)); r.JObject? && TextOf(Get(r.fields, name)) == TextOf(Get(v.fields, name))
  {
    RecordGet(v, fields, name);
    TextSettled(fields, name, Get(v.fields, name));
    hide Recode;
    hide Settled;
  }

  /** The encoded form of a `meta` object keeps the version. */
  lemma MetaKept(kind: Kind, meta: Json)
    requires meta.JObject?
    ensures var kept := Settled(Attributes(kind), "meta", meta);
            kept.JObject? && TextOf(Get(kept.fields, "version")) == TextOf(Get(meta.fields, "version"))
  {
    hide *;
    MetaFields();
    MetaAttribute(kind);
    RecordText(meta, MetaShape().fields, "version");
    assert Record(MetaShape().fields) == MetaShape();
    PointerSettled(Attributes(kind), "meta", meta);
  }

  lemma PointerSettled(fields: Fields, name: string, v: Json)
    requires name in fields && fields[name].presence == UnlessNull && fields[name].shape.Record? && v.JObject?
    ensures Settled(fields, name, v) == Recode(v, fields[name].shape)
  {
  }

  lemma MetaSettled(kind: Kind, resourceType: string, version: string)
    requires resourceType != "" && version != ""
    ensures var meta := JObject(map["resourceType" := JString(resourceType), "version" := JString(version)]);
            Settled(Attributes(kind), "meta", meta) == meta
  {
    MetaFields();
    MetaAttribute(kind);
    hide Attributes;
    hide MetaShape;
    var o: Object := map["resourceType" := JString(resourceType), "version" := JString(version)];
    var recoded := Recode(JObject(o), MetaShape()).fields;
    hide Recode;
    forall name ensures (name in recoded <==> name in o) && Get(recoded, name) == Get(o, name) {
      RecordGet(JObject(o), MetaShape().fields, name);
      assert name in o <==> Get(o, name) != JNull;
      if name in MetaShape().fields {
        TextRecoded(Get(o, name));
      }
    }
    assert recoded == o;
  }

  // ------------------------------------------------------------------ what is kept

  /** A value that a field does not write: nothing, or the zero value of an optional one. */
  predicate GoesUnwritten(field: Field, v: Json) {
    match field.presence
    case Always => false
    case UnlessNull => v == JNull
    case UnlessZero => !field.shape.Record? && v in {JNull, JString(""), JBool(false), JArray([])}
  }

  /**
   * `r` holds what `v` holds of the type: texts and truth values are the same, lists are as long
   * and hold the same in the same order, and of an object all declared attributes are there that
   * are worth writing, and no others.
   */
  predicate Preserves(v: Json, r: Json, shape: Shape)
    decreases shape
  {
    match shape
    case TextShape => r == JString(if v.JString? then v.text else "")
    case FlagShape => r == JBool(v == JBool(true))
    case ListOf(element) =>
      if v.JArray? then r.JArray? && |r.items| == |v.items| && forall i :: 0 <= i < |v.items| ==> Preserves(v.items[i], r.items[i], element)
      else r == JNull
    case Record(fields) =>
      var o := if v.JObject? then v.fields else map[];
      && r.JObject? && (forall name :: name in r.fields ==> name in fields)
      && (forall name :: name in fields ==>
            if GoesUnwritten(fields[name], Get(o, name)) then name !in r.fields
            else name in r.fields && Preserves(Get(o, name), r.fields[name], fields[name].shape))
  }

  /** What can be decoded is preserved. */
  lemma {:induction false} RecodePreserves(v: Json, shape: Shape)
    requires Decodable(v, shape)
    ensures Preserves(v, Recode(v, shape), shape)
    decreases shape
  {
    match shape
    case TextShape =>
    case FlagShape =>
    case ListOf(element) =>
      if v.JArray? {
        forall i | 0 <= i < |v.items| ensures Preserves(v.items[i], Recode(v.items[i], element), element) {
          RecodePreserves(v.items[i], element);
        }
      }
    case Record(fields) =>
      var o := if v.JObject? then v.fields else map[];
      forall name | name in fields
        ensures Preserves(Get(o, name), Recode(Get(o, name), fields[name].shape), fields[name].shape)
        ensures IsWritten(fields[name].presence, Get(o, name), Recode(Get(o, name), fields[name].shape))
                <==> !GoesUnwritten(fields[name], Get(o, name))
      {
        RecodePreserves(Get(o, name), fields[name].shape);
        UnwrittenExactly(fields[name], Get(o, name));
      }
  }

  lemma UnwrittenExactly(field: Field, v: Json)
    requires Decodable(v, field.shape)
    ensures IsWritten(field.presence, v, Recode(v, field.shape)) <==> !GoesUnwritten(field, v)
  {
  }

  /** Nothing else preserves it: the description is complete. */
  lemma {:induction false} PreservedOnce(v: Json, r: Json, s: Json, shape: Shape)
    requires Preserves(v, r, shape) && Preserves(v, s, shape)
    ensures r == s
    decreases shape
  {
    match shape
    case TextShape =>
    case FlagShape =>
    case ListOf(element) =>
      if v.JArray? {
        forall i | 0 <= i < |v.items| ensures r.items[i] == s.items[i] {
          PreservedOnce(v.items[i], r.items[i], s.items[i], element);
        }
        assert r.items == s.items;
      }
    case Record(fields) =>
      var o := if v.JObject? then v.fields else map[];
      forall name ensures (name in r.fields <==> name in s.fields) && (name in r.fields ==> r.fields[name] == s.fields[name]) {
        if name in fields && !GoesUnwritten(fields[name], Get(o, name)) {
          PreservedOnce(Get(o, name), r.fields[name], s.fields[name], fields[name].shape);
        }
      }
      assert r.fields == s.fields;
  }

  /** The value is an encoding: of the type, with the required attributes and nothing unknown or left empty. */
  predicate IsEncoding(v: Json, shape: Shape)
    decreases shape
  {
    match shape
    case TextShape => v.JString?
    case FlagShape => v.JBool?
    case ListOf(element) => v.JNull? || (v.JArray? && forall i :: 0 <= i < |v.items| ==> IsEncoding(v.items[i], element))
    case Record(fields) =>
      && v.JObject?
      && (forall name :: name in v.fields ==>
            name in fields && IsEncoding(v.fields[name], fields[name].shape) && !GoesUnwritten(fields[name], v.fields[name]))
      && (forall name :: name in fields ==> name in v.fields || GoesUnwritten(fields[name], JNull))
  }

  lemma {:induction false} EncodingPreserved(v: Json, shape: Shape)
    requires IsEncoding(v, shape)
    ensures Preserves(v, v, shape) && Decodable(v, shape)
    decreases shape
  {
    match shape
    case TextShape =>
    case FlagShape =>
    case ListOf(element) =>
      if v.JArray? {
        forall i | 0 <= i < |v.items| ensures Preserves(v.items[i], v.items[i], element) && Decodable(v.items[i], element) {
          EncodingPreserved(v.items[i], element);
        }
      }
    case Record(fields) =>
      forall name | name in fields
        ensures Decodable(Get(v.fields, name), fields[name].shape)
        ensures name in v.fields ==> Preserves(v.fields[name], v.fields[name], fields[name].shape)
      {
        if name in v.fields {
          EncodingPreserved(v.fields[name], fields[name].shape);
        }
      }
  }

  lemma {:induction false} RecodedIsEncoding(v: Json, shape: Shape)
    ensures IsEncoding(Recode(v, shape), shape)
    decreases shape
  {
    match shape
    case TextShape =>
    case FlagShape =>
    case ListOf(element) =>
      if v.JArray? {
        forall i | 0 <= i < |v.items| ensures IsEncoding(Recode(v.items[i], element), element) {
          RecodedIsEncoding(v.items[i], element);
        }
      }
    case Record(fields) =>
      var o := if v.JObject? then v.fields else map[];
      var r := Recode(v, shape).fields;
      forall name | name in fields
        ensures IsEncoding(Recode(Get(o, name), fields[name].shape), fields[name].shape)
        ensures name in r ==> !GoesUnwritten(fields[name], r[name])
        ensures name in r || GoesUnwritten(fields[name], JNull)
      {
        RecodedIsEncoding(Get(o, name), fields[name].shape);
      }
  }

  /** Decoding and encoding changes nothing exactly for encodings. */
  lemma {:induction false} FixedExactly(v: Json, shape: Shape)
    ensures Recode(v, shape) == v <==> IsEncoding(v, shape)
  {
    RecodedIsEncoding(v, shape);
    if IsEncoding(v, shape) {
      EncodingPreserved(v, shape);
      RecodePreserves(v, shape);
      PreservedOnce(v, v, Recode(v, shape), shape);
    }
  }

  /** What an attribute holds of a value that can be decoded. */
  predicate HoldsWhatWasSent(kind: Kind, held: Object, name: string, sent: Json) {
    var fields := Attributes(kind);
    if name !in fields || GoesUnwritten(fields[name], sent) then name !in held
    else name in held && Preserves(sent, held[name], fields[name].shape)
  }

  lemma EncodedHolds(kind: Kind, doc: Object, name: string)
    requires name in Attributes(kind) ==> Decodable(Get(doc, name), Attributes(kind)[name].shape)
    ensures HoldsWhatWasSent(kind, Encode(kind, doc), name, Get(doc, name))
  {
    EncodedOnce(kind, doc, name);
    hide Attributes;
    if name in Attributes(kind) {
      var field := Attributes(kind)[name];
      UnwrittenExactly(field, Get(doc, name));
      RecodePreserves(Get(doc, name), field.shape);
    }
    hide Encode;
    hide Preserves;
    hide Recode;
  }

  /** A value that is an encoding is held as it is. */
  lemma HeldAsSent(kind: Kind, held: Object, name: string, sent: Json)
    requires HoldsWhatWasSent(kind, held, name, sent)
    requires name in Attributes(kind) && IsEncoding(sent, Attributes(kind)[name].shape) && !GoesUnwritten(Attributes(kind)[name], sent)
    ensures name in held && held[name] == sent
  {
    hide Attributes;
    var shape := Attributes(kind)[name].shape;
    EncodingPreserved(sent, shape);
    PreservedOnce(sent, sent, held[name], shape);
  }
}
