/**
 * What a PATCH request does to two documents of one group that differ only in members that are
 * not users any more.
 */
module ScimGroupEdits {
  import opened Wrappers
  import opened Json
  import opened ScimPatch
  import opened ScimPatchLaws
  import opened ScimResource
  import opened ScimStore
  import FilterLexer

  // ------------------------------------------------------------------ documents that name the same members

  /** The named members that are users. */
  function MemberSet(doc: Object, users: set<string>): set<string> {
    set user | user in MemberIds(doc) && user in users
  }

  function Named(members: Json, users: set<string>): set<string> {
    MemberSet(map["members" := members], users)
  }

  lemma NamedMembers(doc: Object, users: set<string>)
    ensures MemberSet(doc, users) == Named(Get(doc, "members"), users)
  {
    assert MemberIds(doc) == MemberIds(map["members" := Get(doc, "members")]);
    hide MemberIds;
  }

  predicate ListsSome(members: Json) {
    members.JArray? && members.items != []
  }

  predicate MembersDecode(members: Json) {
    Decodable(members, ListOf(MemberRefShape()))
  }

  /** The documents differ in nothing but their members. */
  predicate SameOthers(d: Object, e: Object) {
    d - {"members"} == e - {"members"}
  }

  /** The members are the same, but for members that are not users, and how members are described. */
  predicate SameMembers(users: set<string>, x: Json, y: Json) {
    x == y || (ListsSome(x) && ListsSome(y) && Named(x, users) == Named(y, users) && (MembersDecode(x) <==> MembersDecode(y)))
  }

  /** Members that are not users any more on one side, none on the other. */
  predicate Deserted(users: set<string>, x: Json, y: Json) {
    ListsSome(x) && MembersDecode(x) && Named(x, users) == {} && (y == JNull || y == JArray([]))
  }

  predicate Alike(users: set<string>, d: Object, e: Object) {
    SameOthers(d, e) && SameMembers(users, Get(d, "members"), Get(e, "members"))
  }

  predicate Apart(users: set<string>, d: Object, e: Object) {
    SameOthers(d, e) && Deserted(users, Get(d, "members"), Get(e, "members")) && Get(e, "members") == JNull
  }

  /** The operation does not search the members with a value filter. */
  predicate Unfiltered(operation: PatchOperation) {
    operation.path != "" ==> PathUnfiltered(operation.path)
  }

  predicate PathUnfiltered(path: string) {
    ParsePath(path).Ok? ==> ParsePath(path).value.0[0] != "members" || ParsePath(path).value.1 == ""
  }

  /** The request leaves `meta` alone and does not search the members. */
  predicate Plain(request: PatchRequest) {
    forall i :: 0 <= i < |request.operations| ==> SparesMeta(request.operations[i]) && Unfiltered(request.operations[i])
  }

  /** The operation is about the list of members itself. */
  predicate OnMembers(operation: PatchOperation) {
    operation.path != "" && ParsePath(operation.path).Ok? && ParsePath(operation.path).value.0 == ["members"]
  }

  /** It fails on a group without members, and not on one with members. */
  predicate Demanding(operation: PatchOperation) {
    OnMembers(operation) &&
    var op := FilterLexer.ToLower(operation.op);
    op == "remove" || (op == "add" && !operation.value.JArray? && operation.value != JNull)
  }

  /** After it the group has members, or has none, whatever was before. */
  predicate Settling(operation: PatchOperation) {
    var op := FilterLexer.ToLower(operation.op);
    if operation.path == "" then
      op == "replace" || (op == "add" && operation.value.JObject? && "members" in operation.value.fields)
    else
      OnMembers(operation) && (op == "replace" || (op == "add" && ListsSome(operation.value)))
  }

  /** An operation demands members before any has settled whether there are some. */
  predicate Demands(operations: seq<PatchOperation>)
    decreases |operations|
  {
    operations != [] && (Demanding(operations[0]) || (!Settling(operations[0]) && Demands(operations[1..])))
  }

  lemma OthersGet(d: Object, e: Object, key: string)
    requires SameOthers(d, e) && key != "members"
    ensures Get(d, key) == Get(e, key) && (key in d <==> key in e)
  {
    assert key in d <==> key in d - {"members"};
    assert key in e <==> key in e - {"members"};
    if key in d {
      assert (d - {"members"})[key] == (e - {"members"})[key];
    }
  }

  lemma OthersWith(d: Object, e: Object, key: string, value: Json)
    requires SameOthers(d, e)
    ensures SameOthers(d[key := value], e[key := value])
  {
    if key == "members" {
      assert d[key := value] - {"members"} == d - {"members"};
      assert e[key := value] - {"members"} == e - {"members"};
    } else {
      assert d[key := value] - {"members"} == (d - {"members"})[key := value];
      assert e[key := value] - {"members"} == (e - {"members"})[key := value];
    }
  }

  lemma OthersWithout(d: Object, e: Object, key: string)
    requires SameOthers(d, e)
    ensures SameOthers(d - {key}, e - {key})
  {
    assert d - {key} - {"members"} == d - {"members"} - {key};
    assert e - {key} - {"members"} == e - {"members"} - {key};
  }

  // ------------------------------------------------------------------ edits elsewhere

  /** Both edits leave the members, or end in the same array, or fail. */
  predicate SameNavigation(d: Object, e: Object, m: Navigation, n: Navigation) {
    match m
    case Edited(fields) =>
      && n.Edited? && SameOthers(fields, n.fields)
      && Get(fields, "members") == Get(d, "members") && Get(n.fields, "members") == Get(e, "members")
    case InArray(items) => n == InArray(items)
    case Failed(_) => n.Failed?
  }

  lemma OthersEdited(d: Object, e: Object, key: string, value: Json)
    requires SameOthers(d, e) && key != "members"
    ensures SameNavigation(d, e, Edited(d[key := value]), Edited(e[key := value]))
  {
    OthersWith(d, e, key, value);
  }

  lemma SameEnd(d: Object, e: Object, n: Navigation)
    requires !n.Edited?
    ensures SameNavigation(d, e, n, n)
  {
  }

  lemma SetElsewhere(d: Object, e: Object, path: seq<string>, filtered: bool, value: Json, isAdd: bool)
    requires SameOthers(d, e) && path != [] && path[0] != "members"
    ensures SameNavigation(d, e, SetAt(d, path, filtered, value, isAdd), SetAt(e, path, filtered, value, isAdd))
  {
    hide SameOthers;
    hide SameNavigation;
    hide Merged;
    var key := path[0];
    OthersGet(d, e, key);
    if |path| == 1 {
      OthersEdited(d, e, key, Merged(Get(d, key), value, isAdd));
    } else {
      var inner := if Get(d, key).JObject? then Get(d, key).fields else map[];
      var n := SetAt(inner, path[1..], filtered, value, isAdd);
      if SetAt(d, path, filtered, value, isAdd).Edited? {
        OthersEdited(d, e, key, JObject(n.fields));
      } else {
        assert SetAt(d, path, filtered, value, isAdd) == SetAt(e, path, filtered, value, isAdd);
        SameEnd(d, e, SetAt(d, path, filtered, value, isAdd));
      }
    }
  }

  lemma RemoveElsewhere(d: Object, e: Object, path: seq<string>, filtered: bool)
    requires SameOthers(d, e) && path != [] && path[0] != "members"
    ensures SameNavigation(d, e, RemoveAt(d, path, filtered), RemoveAt(e, path, filtered))
  {
    hide SameOthers;
    var key := path[0];
    OthersGet(d, e, key);
    OthersWithout(d, e, key);
    assert Get(d - {key}, "members") == Get(d, "members") && Get(e - {key}, "members") == Get(e, "members");
    if |path| > 1 && Get(d, key).JObject? {
      var n := RemoveAt(Get(d, key).fields, path[1..], filtered);
      if n.Edited? {
        OthersWith(d, e, key, JObject(n.fields));
      }
    }
  }

  // ------------------------------------------------------------------ edits of the members

  lemma AppendedMembers(items: seq<Json>, extra: seq<Json>, users: set<string>)
    ensures Named(JArray(items + extra), users) == Named(JArray(items), users) + Named(JArray(extra), users)
    ensures MembersDecode(JArray(items + extra)) <==> MembersDecode(JArray(items)) && MembersDecode(JArray(extra))
  {
    var more := items + extra;
    var a, b, c: Object := map["members" := JArray(items)], map["members" := JArray(extra)], map["members" := JArray(more)];
    assert MemberIds(c) == MemberIds(a) + MemberIds(b);
    hide MemberId;
    assert forall i :: 0 <= i < |items| ==> more[i] == items[i];
    assert forall i :: 0 <= i < |extra| ==> more[|items| + i] == extra[i];
    assert MembersDecode(JArray(more)) ==> MembersDecode(JArray(extra)) by {
      if MembersDecode(JArray(more)) {
        forall i | 0 <= i < |extra| ensures Decodable(extra[i], MemberRefShape()) {
          assert Decodable(more[|items| + i], MemberRefShape());
        }
      }
    }
    assert MembersDecode(JArray(items)) && MembersDecode(JArray(extra)) ==> MembersDecode(JArray(more)) by {
      if MembersDecode(JArray(items)) && MembersDecode(JArray(extra)) {
        forall i | 0 <= i < |more| ensures Decodable(more[i], MemberRefShape()) {
          if i >= |items| { assert more[i] == extra[i - |items|]; }
        }
      }
    }
  }

  /** Merging keeps the members the same. */
  lemma MergedSame(users: set<string>, x: Json, y: Json, value: Json, isAdd: bool)
    requires SameMembers(users, x, y)
    ensures SameMembers(users, Merged(x, value, isAdd), Merged(y, value, isAdd))
  {
    if x != y && isAdd {
      var extra := if value.JArray? then value.items else [value];
      AppendedMembers(x.items, extra, users);
      AppendedMembers(y.items, extra, users);
    }
    hide Named;
    hide MembersDecode;
  }

  /** A single value without a user in it. */
  lemma NobodyNamed(users: set<string>)
    requires "" !in users
    ensures Named(JArray([JNull]), users) == {} && MembersDecode(JArray([JNull]))
  {
    var doc: Object := map["members" := JArray([JNull])];
    assert MemberIds(doc) == [""];
    hide MemberIds;
  }

  /** What `add` makes of deserted members. */
  lemma MergedDeserted(users: set<string>, x: Json, y: Json, value: Json)
    requires Deserted(users, x, y) && y == JNull && "" !in users
    ensures var m, n := Merged(x, value, true), Merged(y, value, true);
            if ListsSome(value) then SameMembers(users, m, n)
            else if value.JArray? || value == JNull then Deserted(users, m, n)
            else !MembersDecode(n)
  {
    var extra := if value.JArray? then value.items else [value];
    AppendedMembers(x.items, extra, users);
    if value == JNull {
      NobodyNamed(users);
    } else if value == JArray([]) {
      assert x.items + [] == x.items;
    } else if value.JArray? {
      assert value == JArray(extra);
    }
    hide Named;
  }

  // ------------------------------------------------------------------ decoding

  predicate AlikeOutcome(users: set<string>, m: Result<Object, PatchError>, n: Result<Object, PatchError>) {
    match m
    case Ok(d) => n.Ok? && Alike(users, d, n.value)
    case Err(_) => n.Err?
  }

  predicate ApartOutcome(users: set<string>, m: Result<Object, PatchError>, n: Result<Object, PatchError>) {
    match m
    case Ok(d) => n.Ok? && Apart(users, d, n.value)
    case Err(_) => n.Err?
  }

  /** Decoding and encoding again does not change who is named. */
  lemma NamedRecoded(members: Json, users: set<string>)
    requires members.JArray?
    ensures var r := Recode(members, ListOf(MemberRefShape()));
            && r.JArray? && |r.items| == |members.items| && Named(r, users) == Named(members, users) && MembersDecode(r)
  {
    var r := Recode(members, ListOf(MemberRefShape()));
    RecodeTwice(members, ListOf(MemberRefShape()));
    forall i | 0 <= i < |members.items| ensures MemberId(r.items[i]) == MemberId(members.items[i]) {
      assert r.items[i] == Recode(members.items[i], MemberRefShape());
      MemberIdKept(members.items[i]);
    }
    var a, b: Object := map["members" := members], map["members" := r];
    assert MemberIds(a) == MemberIds(b) by {
      hide MemberId;
      hide Recode;
    }
    hide MemberIds;
    hide Decodable;
  }

  lemma MembersSettled(members: Json, users: set<string>)
    ensures var r := Settled(Attributes(GroupKind), "members", members);
            && (ListsSome(members) ==> ListsSome(r) && Named(r, users) == Named(members, users) && MembersDecode(r))
            && (members == JNull || members == JArray([]) ==> r == JNull)
  {
    GroupAttributes();
    hide Attributes;
    if members.JArray? {
      NamedRecoded(members, users);
    }
    hide MembersDecode;
    hide Named;
  }

  lemma MappedOthers(d: Object, e: Object)
    requires SameOthers(d, e) && (MembersDecode(Get(d, "members")) <==> MembersDecode(Get(e, "members")))
    ensures var m, n := MapToResource(GroupKind, d), MapToResource(GroupKind, e);
            && (m.Ok? <==> n.Ok?)
            && (m.Ok? ==> SameOthers(m.value, n.value)
                          && Get(m.value, "members") == Settled(Attributes(GroupKind), "members", Get(d, "members"))
                          && Get(n.value, "members") == Settled(Attributes(GroupKind), "members", Get(e, "members")))
    ensures MapToResource(GroupKind, d).Ok? ==> MembersDecode(Get(d, "members"))
  {
    GroupAttributes();
    assert MapToResource(GroupKind, d).Ok? ==> MembersDecode(Get(d, "members"));
    hide Attributes;
    hide Settled;
    hide Encode;
    hide CanDecode;
    DecodeWithout(GroupKind, d, e, "members");
    EncodeWithout(GroupKind, d, e, "members");
    GetEncoded(GroupKind, d, "members");
    GetEncoded(GroupKind, e, "members");
  }

  lemma MappedAlike(users: set<string>, d: Object, e: Object)
    requires Alike(users, d, e)
    ensures AlikeOutcome(users, MapToResource(GroupKind, d), MapToResource(GroupKind, e))
  {
    hide MembersDecode;
    hide Named;
    hide Settled;
    hide Attributes;
    hide MapToResource;
    MappedOthers(d, e);
    MembersSettled(Get(d, "members"), users);
    MembersSettled(Get(e, "members"), users);
  }

  lemma MappedApart(users: set<string>, d: Object, e: Object)
    requires SameOthers(d, e) && Deserted(users, Get(d, "members"), Get(e, "members"))
    ensures ApartOutcome(users, MapToResource(GroupKind, d), MapToResource(GroupKind, e))
  {
    assert MembersDecode(JNull) && MembersDecode(JArray([]));
    hide MembersDecode;
    hide Named;
    hide Settled;
    hide Attributes;
    hide MapToResource;
    MappedOthers(d, e);
    MembersSettled(Get(d, "members"), users);
    MembersSettled(Get(e, "members"), users);
  }

  // ------------------------------------------------------------------ operations

  lemma SetMembers(users: set<string>, d: Object, e: Object, value: Json, isAdd: bool)
    requires Alike(users, d, e)
    ensures Alike(users, d["members" := Merged(Get(d, "members"), value, isAdd)], e["members" := Merged(Get(e, "members"), value, isAdd)])
  {
    OthersWith(d, e, "members", Merged(Get(d, "members"), value, isAdd));
    assert e["members" := Merged(Get(e, "members"), value, isAdd)] - {"members"} == e - {"members"};
    MergedSame(users, Get(d, "members"), Get(e, "members"), value, isAdd);
    assert d["members" := Merged(Get(d, "members"), value, isAdd)] - {"members"} == d - {"members"};
    hide Merged;
    hide SameMembers;
  }

  /** Below `members` both edits have the same object to work on, or fail. */
  lemma BelowMembers(users: set<string>, d: Object, e: Object, path: seq<string>, value: Json, isAdd: bool)
    requires Alike(users, d, e) && |path| > 1 && path[0] == "members"
    ensures var m, n := SetAt(d, path, false, value, isAdd), SetAt(e, path, false, value, isAdd);
            !m.InArray? && !n.InArray? && (m.Edited? <==> n.Edited?) && (m.Edited? ==> Alike(users, m.fields, n.fields))
    ensures var m, n := RemoveAt(d, path, false), RemoveAt(e, path, false);
            !m.InArray? && !n.InArray? && (m.Edited? <==> n.Edited?) && (m.Edited? ==> Alike(users, m.fields, n.fields))
  {
    var x, y := Get(d, "members"), Get(e, "members");
    SetSucceeds(d, path, value, isAdd);
    SetSucceeds(e, path, value, isAdd);
    RemoveSucceeds(d, path);
    RemoveSucceeds(e, path);
    if x == y {
      var inner := if x.JObject? then x.fields else map[];
      var n, m := SetAt(inner, path[1..], false, value, isAdd), RemoveAt(inner, path[1..], false);
      if n.Edited? {
        OthersWith(d, e, "members", JObject(n.fields));
      }
      if m.Edited? {
        OthersWith(d, e, "members", JObject(m.fields));
      }
    }
    hide Named;
    hide MembersDecode;
    hide SameOthers;
  }

  /** Both edits give documents alike, or end in the same array, or fail. */
  predicate AlikeNavigation(users: set<string>, m: Navigation, n: Navigation) {
    match m
    case Edited(fields) => n.Edited? && Alike(users, fields, n.fields)
    case InArray(items) => n == InArray(items)
    case Failed(_) => n.Failed?
  }

  lemma NavigationAlike(users: set<string>, d: Object, e: Object, m: Navigation, n: Navigation)
    requires Alike(users, d, e) && SameNavigation(d, e, m, n)
    ensures AlikeNavigation(users, m, n)
  {
    hide SameMembers;
    hide SameOthers;
  }

  lemma SettingSame(users: set<string>, d: Object, e: Object, path: seq<string>, filtered: bool, value: Json, isAdd: bool)
    requires Alike(users, d, e) && path != [] && (path[0] == "members" ==> !filtered)
    ensures AlikeNavigation(users, SetAt(d, path, filtered, value, isAdd), SetAt(e, path, filtered, value, isAdd))
  {
    if path[0] != "members" {
      SetElsewhere(d, e, path, filtered, value, isAdd);
      NavigationAlike(users, d, e, SetAt(d, path, filtered, value, isAdd), SetAt(e, path, filtered, value, isAdd));
      hide *;
    } else if |path| == 1 {
      SetMembers(users, d, e, value, isAdd);
      hide Alike;
      hide Merged;
    } else {
      BelowMembers(users, d, e, path, value, isAdd);
      hide SetAt;
      hide Alike;
    }
  }

  lemma RemovingSame(users: set<string>, d: Object, e: Object, path: seq<string>, filtered: bool)
    requires Alike(users, d, e) && path != [] && (path[0] == "members" ==> !filtered)
    ensures AlikeNavigation(users, RemoveAt(d, path, filtered), RemoveAt(e, path, filtered))
  {
    if path[0] != "members" {
      RemoveElsewhere(d, e, path, filtered);
      NavigationAlike(users, d, e, RemoveAt(d, path, filtered), RemoveAt(e, path, filtered));
      hide *;
    } else if |path| == 1 {
      OthersWithout(d, e, "members");
      assert Get(d - {"members"}, "members") == Get(e - {"members"}, "members");
      hide SameOthers;
      hide Named;
      hide MembersDecode;
    } else {
      BelowMembers(users, d, e, path, JNull, false);
      hide RemoveAt;
      hide Alike;
    }
  }

  lemma SettingAlike(users: set<string>, d: Object, e: Object, path: string, value: Json, isAdd: bool, leaf: LeafTest)
    requires Alike(users, d, e) && PathUnfiltered(path)
    ensures AlikeOutcome(users, SetValue(GroupKind, d, path, value, isAdd, leaf), SetValue(GroupKind, e, path, value, isAdd, leaf))
  {
    hide ParsePath;
    hide Select;
    hide MapToResource;
    hide SetAt;
    hide Alike;
    if ParsePath(path).Ok? {
      var (components, filter) := ParsePath(path).value;
      var m, n := SetAt(d, components, filter != "", value, isAdd), SetAt(e, components, filter != "", value, isAdd);
      SettingSame(users, d, e, components, filter != "", value, isAdd);
      if m.Edited? {
        MappedAlike(users, m.fields, n.fields);
      }
    }
  }

  lemma RemovingAlike(users: set<string>, d: Object, e: Object, path: string, leaf: LeafTest)
    requires Alike(users, d, e) && PathUnfiltered(path)
    ensures AlikeOutcome(users, RemoveValue(GroupKind, d, path, leaf), RemoveValue(GroupKind, e, path, leaf))
  {
    hide ParsePath;
    hide Select;
    hide MapToResource;
    hide RemoveAt;
    hide Alike;
    if ParsePath(path).Ok? {
      var (components, filter) := ParsePath(path).value;
      var m, n := RemoveAt(d, components, filter != ""), RemoveAt(e, components, filter != "");
      RemovingSame(users, d, e, components, filter != "");
      if m.Edited? {
        MappedAlike(users, m.fields, n.fields);
      }
    }
  }

  lemma RootEdits(d: Object, e: Object, f: Object)
    requires SameOthers(d, e)
    ensures SameOthers(d + f, e + f) && SameOthers(Replacement(d, f), Replacement(e, f))
    ensures Get(Replacement(d, f), "members") == Get(Replacement(e, f), "members")
    ensures Get(d + f, "members") == (if "members" in f then f["members"] else Get(d, "members"))
    ensures Get(e + f, "members") == (if "members" in f then f["members"] else Get(e, "members"))
  {
    assert d + f - {"members"} == (d - {"members"}) + (f - {"members"});
    assert e + f - {"members"} == (e - {"members"}) + (f - {"members"});
    forall key | key in {"id", "meta", "schemas"} ensures Get(d, key) == Get(e, key) && (key in d <==> key in e) {
      OthersGet(d, e, key);
    }
    hide SameOthers;
    assert (map key | key in d && key in {"id", "meta", "schemas"} :: d[key])
           == (map key | key in e && key in {"id", "meta", "schemas"} :: e[key]) by {
      forall key | key in d && key in {"id", "meta", "schemas"} ensures key in e && d[key] == e[key] {
        assert Get(d, key) == d[key];
      }
    }
    assert Replacement(d, f) == Replacement(e, f);
    assert SameOthers(Replacement(d, f), Replacement(d, f)) by { Itself(Replacement(d, f)); }
  }

  lemma Itself(d: Object)
    ensures SameOthers(d, d)
  {
  }

  lemma RootAlike(users: set<string>, d: Object, e: Object, value: Json)
    requires Alike(users, d, e)
    ensures AlikeOutcome(users, AddToRoot(GroupKind, d, value), AddToRoot(GroupKind, e, value))
    ensures AlikeOutcome(users, ReplaceRoot(GroupKind, d, value), ReplaceRoot(GroupKind, e, value))
  {
    hide MapToResource;
    hide SameOthers;
    hide Named;
    hide MembersDecode;
    hide Replacement;
    if value.JObject? {
      RootEdits(d, e, value.fields);
      MappedAlike(users, d + value.fields, e + value.fields);
      MappedAlike(users, Replacement(d, value.fields), Replacement(e, value.fields));
    }
  }

  lemma OperationAlike(users: set<string>, d: Object, e: Object, operation: PatchOperation, leaf: LeafTest)
    requires Alike(users, d, e) && Unfiltered(operation)
    ensures AlikeOutcome(users, ApplyOperation(GroupKind, d, operation, leaf), ApplyOperation(GroupKind, e, operation, leaf))
  {
    hide Alike;
    hide PathUnfiltered;
    hide AddToRoot;
    hide ReplaceRoot;
    hide SetValue;
    hide RemoveValue;
    if operation.path == "" {
      RootAlike(users, d, e, operation.value);
    } else {
      SettingAlike(users, d, e, operation.path, operation.value, true, leaf);
      SettingAlike(users, d, e, operation.path, operation.value, false, leaf);
      RemovingAlike(users, d, e, operation.path, leaf);
    }
  }

  /** Documents alike stay alike under operations that do not search the members. */
  lemma {:induction false} OperationsAlike(users: set<string>, d: Object, e: Object, operations: seq<PatchOperation>, leaf: LeafTest)
    requires Alike(users, d, e) && forall i :: 0 <= i < |operations| ==> Unfiltered(operations[i])
    ensures AlikeOutcome(users, ApplyAll(GroupKind, d, operations, leaf), ApplyAll(GroupKind, e, operations, leaf))
    decreases |operations|
  {
    hide ApplyOperation;
    hide Alike;
    hide Unfiltered;
    if operations != [] {
      OperationAlike(users, d, e, operations[0], leaf);
      var m, n := ApplyOperation(GroupKind, d, operations[0], leaf), ApplyOperation(GroupKind, e, operations[0], leaf);
      if m.Ok? {
        OperationsAlike(users, m.value, n.value, operations[1..], leaf);
      }
    }
  }

  // ------------------------------------------------------------------ operations on a deserted group

  lemma MappedElsewhere(users: set<string>, d: Object, e: Object, m: Object, n: Object)
    requires Apart(users, d, e) && SameOthers(m, n)
    requires Get(m, "members") == Get(d, "members") && Get(n, "members") == Get(e, "members")
    ensures ApartOutcome(users, MapToResource(GroupKind, m), MapToResource(GroupKind, n))
  {
    hide SameOthers;
    hide Named;
    hide MembersDecode;
    hide MapToResource;
    MappedApart(users, m, n);
  }

  lemma ElsewhereApart(users: set<string>, d: Object, e: Object, path: string, value: Json, isAdd: bool, leaf: LeafTest)
    requires Apart(users, d, e) && ParsePath(path).Ok? && ParsePath(path).value.0[0] != "members"
    ensures ApartOutcome(users, SetValue(GroupKind, d, path, value, isAdd, leaf), SetValue(GroupKind, e, path, value, isAdd, leaf))
    ensures ApartOutcome(users, RemoveValue(GroupKind, d, path, leaf), RemoveValue(GroupKind, e, path, leaf))
  {
    hide ParsePath;
    hide Select;
    hide MapToResource;
    hide SetAt;
    hide RemoveAt;
    hide SameOthers;
    hide Deserted;
    var (components, filter) := ParsePath(path).value;
    SetElsewhere(d, e, components, filter != "", value, isAdd);
    RemoveElsewhere(d, e, components, filter != "");
    var m, n := SetAt(d, components, filter != "", value, isAdd), SetAt(e, components, filter != "", value, isAdd);
    if m.Edited? {
      MappedElsewhere(users, d, e, m.fields, n.fields);
    }
    var k, l := RemoveAt(d, components, filter != ""), RemoveAt(e, components, filter != "");
    if k.Edited? {
      MappedElsewhere(users, d, e, k.fields, l.fields);
    }
  }

  lemma BelowList(o: Object, path: seq<string>, value: Json, isAdd: bool)
    requires |path| > 1 && Get(o, path[0]).JArray?
    ensures SetAt(o, path, false, value, isAdd) == RemoveAt(o, path, false) == Failed(InvalidPath)
  {
  }

  /** Below the list of members no path leads anywhere. */
  lemma BelowDeserted(users: set<string>, d: Object, e: Object, path: string, value: Json, isAdd: bool, leaf: LeafTest)
    requires Apart(users, d, e) && PathUnfiltered(path) && ParsePath(path).Ok?
    requires ParsePath(path).value.0[0] == "members" && ParsePath(path).value.0 != ["members"]
    ensures SetValue(GroupKind, d, path, value, isAdd, leaf).Err? && RemoveValue(GroupKind, d, path, leaf).Err?
  {
    hide ParsePath;
    hide Select;
    hide MapToResource;
    hide SameOthers;
    hide Named;
    hide MembersDecode;
    hide SetAt;
    hide RemoveAt;
    var (components, filter) := ParsePath(path).value;
    assert |components| == 1 ==> components == ["members"];
    BelowList(d, components, value, isAdd);
  }

  /** What an `add`, a `replace` and a `remove` of the members do. */
  lemma MembersApart(users: set<string>, d: Object, e: Object, path: string, value: Json, leaf: LeafTest)
    requires Apart(users, d, e) && "" !in users && ParsePath(path) == Ok((["members"], ""))
    ensures AlikeOutcome(users, SetValue(GroupKind, d, path, value, false, leaf), SetValue(GroupKind, e, path, value, false, leaf))
    ensures var m, n := SetValue(GroupKind, d, path, value, true, leaf), SetValue(GroupKind, e, path, value, true, leaf);
            if ListsSome(value) then AlikeOutcome(users, m, n)
            else if value.JArray? || value == JNull then ApartOutcome(users, m, n)
            else n == Err(WrongType)
    ensures RemoveValue(GroupKind, e, path, leaf) == Err(NoTarget)
  {
    hide ParsePath;
    hide Select;
    hide MapToResource;
    hide Named;
    hide MembersDecode;
    var x, y := Get(d, "members"), Get(e, "members");
    MergedDeserted(users, x, y, value);
    PutMembers(d, e, value, value);
    PutMembers(d, e, Merged(x, value, true), Merged(y, value, true));
    hide SameOthers;
    assert SetAt(d, ["members"], false, value, false) == Edited(d["members" := value]);
    assert SetAt(e, ["members"], false, value, false) == Edited(e["members" := value]);
    assert SetAt(d, ["members"], false, value, true) == Edited(d["members" := Merged(x, value, true)]);
    assert SetAt(e, ["members"], false, value, true) == Edited(e["members" := Merged(y, value, true)]);
    assert RemoveAt(e, ["members"], false) == Failed(NoTarget);
    hide SetAt;
    hide RemoveAt;
    hide Merged;
    MappedAlike(users, d["members" := value], e["members" := value]);
    var m, n := d["members" := Merged(x, value, true)], e["members" := Merged(y, value, true)];
    if ListsSome(value) {
      MappedAlike(users, m, n);
    } else if value.JArray? || value == JNull {
      MappedApart(users, m, n);
    } else {
      UndecodableMembers(n);
    }
  }

  lemma PutMembers(d: Object, e: Object, x: Json, y: Json)
    requires SameOthers(d, e)
    ensures SameOthers(d["members" := x], e["members" := y])
    ensures Get(d["members" := x], "members") == x && Get(e["members" := y], "members") == y
  {
    assert d["members" := x] - {"members"} == d - {"members"};
    assert e["members" := y] - {"members"} == e - {"members"};
  }

  lemma UndecodableMembers(doc: Object)
    requires !MembersDecode(Get(doc, "members"))
    ensures MapToResource(GroupKind, doc) == Err(WrongType)
  {
    MappedOthers(doc, doc);
    hide MapToResource;
    hide MembersDecode;
    assert MapToResource(GroupKind, doc).Err? ==> MapToResource(GroupKind, doc) == Err(WrongType) by { OnlyWrongType(doc); }
  }

  lemma OnlyWrongType(doc: Object)
    ensures MapToResource(GroupKind, doc).Err? ==> MapToResource(GroupKind, doc) == Err(WrongType)
  {
    hide CanDecode;
    hide Encode;
  }

  lemma RootApart(users: set<string>, d: Object, e: Object, value: Json)
    requires Apart(users, d, e)
    ensures AlikeOutcome(users, ReplaceRoot(GroupKind, d, value), ReplaceRoot(GroupKind, e, value))
    ensures var m, n := AddToRoot(GroupKind, d, value), AddToRoot(GroupKind, e, value);
            if value.JObject? && "members" in value.fields then AlikeOutcome(users, m, n) else ApartOutcome(users, m, n)
  {
    hide MapToResource;
    hide SameOthers;
    hide Named;
    hide MembersDecode;
    hide Replacement;
    if value.JObject? {
      RootEdits(d, e, value.fields);
      MappedAlike(users, Replacement(d, value.fields), Replacement(e, value.fields));
      if "members" in value.fields {
        MappedAlike(users, d + value.fields, e + value.fields);
      } else {
        MappedElsewhere(users, d, e, d + value.fields, e + value.fields);
      }
    }
  }

  /**
   * One operation on a deserted group: it fails on the group without members if it demands
   * some, brings the two together if it settles the question, and otherwise leaves them apart.
   */
  lemma OperationApart(users: set<string>, d: Object, e: Object, operation: PatchOperation, leaf: LeafTest)
    requires Apart(users, d, e) && "" !in users && Unfiltered(operation) && ApplyOperation(GroupKind, d, operation, leaf).Ok?
    ensures var m, n := ApplyOperation(GroupKind, d, operation, leaf), ApplyOperation(GroupKind, e, operation, leaf);
            if Demanding(operation) then n == Err(NoTarget) || n == Err(WrongType)
            else if Settling(operation) then AlikeOutcome(users, m, n)
            else ApartOutcome(users, m, n)
  {
    hide Apart;
    hide AlikeOutcome;
    hide ApartOutcome;
    hide AddToRoot;
    hide ReplaceRoot;
    hide SetValue;
    hide RemoveValue;
    var path, value := operation.path, operation.value;
    if path == "" {
      RootApart(users, d, e, value);
    } else if ParsePath(path).Err? {
      UnparsedPath(d, path, value, leaf);
      hide ParsePath;
    } else {
      var components := ParsePath(path).value.0;
      if components == ["members"] {
        assert ParsePath(path) == Ok((["members"], ""));
        hide ParsePath;
        MembersApart(users, d, e, path, value, leaf);
      } else if components[0] == "members" {
        BelowDeserted(users, d, e, path, value, true, leaf);
        BelowDeserted(users, d, e, path, value, false, leaf);
        hide ParsePath;
      } else {
        ElsewhereApart(users, d, e, path, value, true, leaf);
        ElsewhereApart(users, d, e, path, value, false, leaf);
        hide ParsePath;
      }
    }
  }

  lemma UnparsedPath(d: Object, path: string, value: Json, leaf: LeafTest)
    requires ParsePath(path).Err?
    ensures SetValue(GroupKind, d, path, value, true, leaf).Err? && SetValue(GroupKind, d, path, value, false, leaf).Err?
    ensures RemoveValue(GroupKind, d, path, leaf).Err?
  {
    hide ParsePath;
  }

  /** A request that succeeds on the deserted document fails without the members exactly if it demands some. */
  lemma {:induction false} OperationsApart(users: set<string>, d: Object, e: Object, operations: seq<PatchOperation>, leaf: LeafTest)
    requires Apart(users, d, e) && "" !in users && forall i :: 0 <= i < |operations| ==> Unfiltered(operations[i])
    requires ApplyAll(GroupKind, d, operations, leaf).Ok?
    ensures var m, n := ApplyAll(GroupKind, d, operations, leaf), ApplyAll(GroupKind, e, operations, leaf);
            if Demands(operations) then n == Err(NoTarget) || n == Err(WrongType)
            else AlikeOutcome(users, m, n) || ApartOutcome(users, m, n)
    decreases |operations|
  {
    hide ApplyOperation;
    hide Alike;
    hide Apart;
    hide Unfiltered;
    hide Demanding;
    hide Settling;
    if operations != [] {
      OperationApart(users, d, e, operations[0], leaf);
      var m, n := ApplyOperation(GroupKind, d, operations[0], leaf), ApplyOperation(GroupKind, e, operations[0], leaf);
      if !Demanding(operations[0]) {
        if Settling(operations[0]) {
          OperationsAlike(users, m.value, n.value, operations[1..], leaf);
        } else {
          OperationsApart(users, m.value, n.value, operations[1..], leaf);
        }
      }
    }
  }
}
