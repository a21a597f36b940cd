/** The SCIM PATCH engine (section 3.5.2 of RFC 7644) on the JSON form of a resource. */
module ScimPatch {
  import opened Wrappers
  import opened Json
  import opened FilterSyntax
  import opened ScimResource
  import FilterLexer
  import FilterMeaning
  import FilterParser

  /** `value` is null when the request has none. */
  datatype PatchOperation = PatchOperation(op: string, path: string, value: Json)

  datatype PatchRequest = PatchRequest(schemas: seq<string>, operations: seq<PatchOperation>)

  const PATCH_SCHEMA := "urn:ietf:params:scim:api:messages:2.0:PatchOp"

  /**
   * `WrongType` is the error of decoding the edited document; `SliceOutOfRange` is a run-time
   * panic of the path parser, not an error value.
   */
  datatype PatchError =
    | InvalidSyntax
    | InvalidPath
    | InvalidValue
    | NoTarget
    | UnsupportedOperation
    | WrongType
    | SliceOutOfRange

  /** The answer of an attribute expression of a value filter on an array element. */
  type LeafTest = (Object, FilterNode) -> bool

  // ------------------------------------------------------------------ paths

  function IndexOf(s: string, c: char): (r: Option<nat>)
    ensures r.Some? ==> r.value < |s| && s[r.value] == c && c !in s[..r.value]
    ensures r.None? ==> c !in s
  {
    if s == "" then None
    else if s[0] == c then Some(0)
    else
      match IndexOf(s[1..], c)
      case None => None
      case Some(i) =>
        assert s[..i + 1] == [s[0]] + s[1..][..i];
        Some(i + 1)
  }

  function Split(s: string, c: char): (parts: seq<string>)
    ensures parts != []
  {
    match IndexOf(s, c)
    case None => [s]
    case Some(i) => [s[..i]] + Split(s[i + 1..], c)
  }

  function NonEmpty(parts: seq<string>): seq<string> {
    if parts == [] then []
    else (if parts[0] == "" then [] else [parts[0]]) + NonEmpty(parts[1..])
  }

  /** The components of a path and its value filter ("" when there is none). */
  function ParsePath(path: string): (r: Result<(seq<string>, string), PatchError>)
    ensures r.Ok? ==> r.value.0 != []
  {
    match IndexOf(path, '[')
    case None => Components(path, "")
    case Some(open) =>
      match IndexOf(path, ']')
      case None => Err(InvalidPath)
      case Some(close) =>
        if close < open then Err(SliceOutOfRange)
        else Components(path[..open] + path[close + 1..], path[open + 1..close])
  }

  function Components(path: string, filter: string): (r: Result<(seq<string>, string), PatchError>)
    ensures r.Ok? ==> r.value.0 != []
  {
    var components := NonEmpty(Split(path, '.'));
    if components == [] then Err(InvalidPath) else Ok((components, filter))
  }

  // ------------------------------------------------------------------ navigation

  /**
   * Where an edit ends: in a new object for the one it started from, in an array that a
   * value filter has to search, or in an error.
   */
  datatype Navigation = Edited(fields: Object) | InArray(items: seq<Json>) | Failed(error: PatchError)

  function Within(o: Object, key: string, n: Navigation): Navigation {
    match n
    case Edited(fields) => Edited(o[key := JObject(fields)])
    case _ => n
  }

  /** `add` extends an array; everything else is overwritten. */
  function Merged(previous: Json, value: Json, isAdd: bool): Json {
    if isAdd && previous.JArray? then
      JArray(previous.items + if value.JArray? then value.items else [value])
    else value
  }

  function SetAt(o: Object, path: seq<string>, filtered: bool, value: Json, isAdd: bool): Navigation
    requires path != []
    decreases |path|
  {
    var key := path[0];
    if |path| == 1 then Edited(o[key := Merged(Get(o, key), value, isAdd)])
    else
      match Get(o, key)
      case JObject(fields) => Within(o, key, SetAt(fields, path[1..], filtered, value, isAdd))
      case JArray(items) => if filtered && |path| == 2 then InArray(items) else Failed(InvalidPath)
      case _ =>
        if isAdd then Within(o, key, SetAt(map[], path[1..], filtered, value, isAdd))
        else Failed(NoTarget)
  }

  function RemoveAt(o: Object, path: seq<string>, filtered: bool): Navigation
    requires path != []
    decreases |path|
  {
    var key := path[0];
    var v := Get(o, key);
    if |path| == 1 then
      if filtered && v.JArray? then InArray(v.items)
      else if v == JNull then Failed(NoTarget)
      else Edited(o - {key})
    else
      match v
      case JObject(fields) => Within(o, key, RemoveAt(fields, path[1..], filtered))
      case JArray(items) => if filtered then InArray(items) else Failed(InvalidPath)
      case _ => Failed(NoTarget)
  }

  // ------------------------------------------------------------------ arrays

  /** The element is an object that matches the filter; no filter matches every object. */
  predicate Matches(element: Json, filter: Option<FilterNode>, leaf: LeafTest) {
    element.JObject? && (filter.None? || FilterMeaning.EvalMemory(filter.value, t => leaf(element.fields, t)))
  }

  function Select(items: seq<Json>, filter: Option<FilterNode>, leaf: LeafTest, matching: bool): seq<Json> {
    if items == [] then []
    else
      Select(items[..|items| - 1], filter, leaf, matching)
      + if Matches(items[|items| - 1], filter, leaf) == matching then [items[|items| - 1]] else []
  }

  /** `setInArray`: sets a sub-attribute of each matching element of the array. */
  method SetInArray(items: seq<Json>, filter: Option<FilterNode>, key: string, value: Json, leaf: LeafTest)
      returns (edited: seq<Json>, matched: bool)
    ensures |edited| == |items|
    ensures forall i :: 0 <= i < |items| ==>
      edited[i] == if Matches(items[i], filter, leaf) then JObject(items[i].fields[key := value]) else items[i]
    ensures matched <==> exists i :: 0 <= i < |items| && Matches(items[i], filter, leaf)
  {
    edited, matched := items, false;
    for n := 0 to |items|
      invariant |edited| == |items|
      invariant forall i :: 0 <= i < n ==>
        edited[i] == if Matches(items[i], filter, leaf) then JObject(items[i].fields[key := value]) else items[i]
      invariant forall i :: n <= i < |items| ==> edited[i] == items[i]
      invariant matched <==> exists i :: 0 <= i < n && Matches(items[i], filter, leaf)
    {
      if Matches(edited[n], filter, leaf) {
        matched := true;
        edited := edited[n := JObject(edited[n].fields[key := value])];
      }
    }
  }

  /** `removeFromArray`: the elements that stay and those that go, each in their order. */
  method RemoveFromArray(items: seq<Json>, filter: Option<FilterNode>, leaf: LeafTest)
      returns (kept: seq<Json>, removed: seq<Json>)
    ensures kept == Select(items, filter, leaf, false)
    ensures removed == Select(items, filter, leaf, true)
  {
    kept, removed := [], [];
    for n := 0 to |items|
      invariant kept == Select(items[..n], filter, leaf, false)
      invariant removed == Select(items[..n], filter, leaf, true)
    {
      assert items[..n + 1][..n] == items[..n];
      if Matches(items[n], filter, leaf) {
        removed := removed + [items[n]];
      } else {
        kept := kept + [items[n]];
      }
    }
    assert items[..|items|] == items;
  }

  predicate IsSubsequence(a: seq<Json>, b: seq<Json>) {
    if a == [] then true
    else if b == [] then false
    else if a[|a| - 1] == b[|b| - 1] then IsSubsequence(a[..|a| - 1], b[..|b| - 1])
    else IsSubsequence(a, b[..|b| - 1])
  }

  lemma {:induction false} SubsequenceSkips(a: seq<Json>, b: seq<Json>, x: Json)
    requires IsSubsequence(a, b)
    ensures IsSubsequence(a, b + [x])
    decreases |b|, 1
  {
    assert (b + [x])[..|b|] == b;
    if a != [] && a[|a| - 1] == x {
      SubsequenceDropsLast(a, b);
    }
  }

  lemma {:induction false} SubsequenceDropsLast(a: seq<Json>, b: seq<Json>)
    requires a != [] && IsSubsequence(a, b)
    ensures IsSubsequence(a[..|a| - 1], b)
    decreases |b|, 0
  {
    var c := b[..|b| - 1];
    assert b == c + [b[|b| - 1]];
    if a[|a| - 1] == b[|b| - 1] {
      SubsequenceSkips(a[..|a| - 1], c, b[|b| - 1]);
    } else {
      SubsequenceDropsLast(a, c);
      SubsequenceSkips(a[..|a| - 1], c, b[|b| - 1]);
    }
  }

  /** Both parts of a filtered removal keep the order of the array. */
  lemma {:induction false} SelectKeepsOrder(items: seq<Json>, filter: Option<FilterNode>, leaf: LeafTest, matching: bool)
    ensures IsSubsequence(Select(items, filter, leaf, matching), items)
  {
    hide Matches;
    if items != [] {
      var front, last := items[..|items| - 1], items[|items| - 1];
      var part := Select(front, filter, leaf, matching);
      SelectKeepsOrder(front, filter, leaf, matching);
      assert items == front + [last];
      if Matches(last, filter, leaf) == matching {
        assert (part + [last])[..|part|] == part;
      } else {
        assert part + [] == part;
        SubsequenceSkips(part, front, last);
      }
    }
  }

  /** Exactly the elements that match, or exactly those that do not. */
  lemma {:induction false} SelectMembers(items: seq<Json>, filter: Option<FilterNode>, leaf: LeafTest, matching: bool)
    ensures forall x :: x in Select(items, filter, leaf, matching) <==> x in items && Matches(x, filter, leaf) == matching
  {
    hide Matches;
    if items != [] {
      var front := items[..|items| - 1];
      SelectMembers(front, filter, leaf, matching);
      assert items == front + [items[|items| - 1]];
    }
  }

  /** Nothing is selected exactly when no element matches. */
  lemma {:induction false} NothingSelected(items: seq<Json>, filter: Option<FilterNode>, leaf: LeafTest)
    ensures Select(items, filter, leaf, true) == [] <==> forall i :: 0 <= i < |items| ==> !Matches(items[i], filter, leaf)
  {
    hide Matches;
    hide Select;
    SelectMembers(items, filter, leaf, true);
    var selected := Select(items, filter, leaf, true);
    if selected != [] {
      assert selected[0] in selected;
    }
  }

  /** Together the two parts hold every element of the array as often as it does. */
  lemma {:induction false} SelectCounts(items: seq<Json>, filter: Option<FilterNode>, leaf: LeafTest)
    ensures multiset(Select(items, filter, leaf, false)) + multiset(Select(items, filter, leaf, true)) == multiset(items)
  {
    hide Matches;
    if items != [] {
      var front := items[..|items| - 1];
      SelectCounts(front, filter, leaf);
      assert items == front + [items[|items| - 1]];
    }
  }

  /**
   * A filtered removal splits the array in two order-preserving parts that together hold
   * every element once: the removed elements are exactly the objects that match, and there
   * is nothing to remove exactly when no element matches.
   */
  lemma {:induction false} RemovalPartitions(items: seq<Json>, filter: Option<FilterNode>, leaf: LeafTest)
    ensures var kept, removed := Select(items, filter, leaf, false), Select(items, filter, leaf, true);
            && IsSubsequence(kept, items) && IsSubsequence(removed, items)
            && multiset(kept) + multiset(removed) == multiset(items)
            && (forall x :: x in removed <==> x in items && Matches(x, filter, leaf))
            && (forall x :: x in kept <==> x in items && !Matches(x, filter, leaf))
            && (removed == [] <==> forall i :: 0 <= i < |items| ==> !Matches(items[i], filter, leaf))
  {
    hide Matches;
    hide Select;
    hide IsSubsequence;
    SelectKeepsOrder(items, filter, leaf, false);
    SelectKeepsOrder(items, filter, leaf, true);
    SelectMembers(items, filter, leaf, false);
    SelectMembers(items, filter, leaf, true);
    SelectCounts(items, filter, leaf);
    NothingSelected(items, filter, leaf);
  }

  // ------------------------------------------------------------------ operations

  /** The edited document decoded into the resource; later operations see it encoded again. */
  function MapToResource(kind: Kind, edited: Object): Result<Object, PatchError> {
    if CanDecode(kind, edited) then Ok(Encode(kind, edited)) else Err(WrongType)
  }

  /** The resource after one operation. An edit inside an array leaves the resource as it was. */
  function ApplyOperation(kind: Kind, resource: Object, operation: PatchOperation, leaf: LeafTest): Result<Object, PatchError> {
    var op := FilterLexer.ToLower(operation.op);
    if op == "add" then
      if operation.path == "" then AddToRoot(kind, resource, operation.value)
      else SetValue(kind, resource, operation.path, operation.value, true, leaf)
    else if op == "remove" then
      if operation.path == "" then Err(NoTarget) else RemoveValue(kind, resource, operation.path, leaf)
    else if op == "replace" then
      if operation.path == "" then ReplaceRoot(kind, resource, operation.value)
      else SetValue(kind, resource, operation.path, operation.value, false, leaf)
    else Err(UnsupportedOperation)
  }

  function AddToRoot(kind: Kind, resource: Object, value: Json): Result<Object, PatchError> {
    if !value.JObject? then Err(InvalidValue) else MapToResource(kind, resource + value.fields)
  }

  function Replacement(resource: Object, fields: Object): Object {
    fields + map key | key in resource && key in {"id", "meta", "schemas"} :: resource[key]
  }

  /** `id`, `meta` and `schemas` survive the replacement of the whole resource. */
  function ReplaceRoot(kind: Kind, resource: Object, value: Json): Result<Object, PatchError> {
    if !value.JObject? then Err(InvalidValue) else MapToResource(kind, Replacement(resource, value.fields))
  }

  function SetValue(kind: Kind, resource: Object, path: string, value: Json, isAdd: bool, leaf: LeafTest): Result<Object, PatchError> {
    match ParsePath(path)
    case Err(e) => Err(e)
    case Ok((components, filter)) =>
      match SetAt(resource, components, filter != "", value, isAdd)
      case Edited(fields) => MapToResource(kind, fields)
      case Failed(e) => Err(e)
      case InArray(items) =>
        match FilterParser.ParseFilterSpec(filter)
        case Err(_) => Err(InvalidPath)
        case Ok(f) =>
          if !isAdd && Select(items, f, leaf, true) == [] then Err(NoTarget) else Ok(resource)
  }

  function RemoveValue(kind: Kind, resource: Object, path: string, leaf: LeafTest): Result<Object, PatchError> {
    match ParsePath(path)
    case Err(e) => Err(e)
    case Ok((components, filter)) =>
      match RemoveAt(resource, components, filter != "")
      case Edited(fields) => MapToResource(kind, fields)
      case Failed(e) => Err(e)
      case InArray(items) =>
        match FilterParser.ParseFilterSpec(filter)
        case Err(_) => Err(InvalidPath)
        case Ok(f) =>
          if Select(items, f, leaf, true) == [] then Err(NoTarget) else Ok(resource)
  }

  /** All operations in order; the first error ends the request. */
  function ApplyAll(kind: Kind, resource: Object, operations: seq<PatchOperation>, leaf: LeafTest): Result<Object, PatchError>
    decreases |operations|
  {
    if operations == [] then Ok(resource)
    else
      match ApplyOperation(kind, resource, operations[0], leaf)
      case Err(e) => Err(e)
      case Ok(next) => ApplyAll(kind, next, operations[1..], leaf)
  }

  /** `ApplyPatchToUser` and `ApplyPatchToGroup`. */
  function ApplyPatch(kind: Kind, resource: Object, request: PatchRequest, leaf: LeafTest): Result<Object, PatchError> {
    if request.schemas != [] && request.schemas[0] != PATCH_SCHEMA then Err(InvalidSyntax)
    else ApplyAll(kind, resource, request.operations, leaf)
  }

  class PatchExecutor {
    var resource: Object
    const kind: Kind
    const leaf: LeafTest

    constructor (kind: Kind, resource: Object, leaf: LeafTest)
      ensures this.kind == kind && this.resource == resource && this.leaf == leaf
    {
      this.kind := kind;
      this.resource := resource;
      this.leaf := leaf;
    }

    /** Runs the operations in order and stops at the first error. */
    method Execute(operations: seq<PatchOperation>) returns (r: Result<(), PatchError>)
      modifies this
      ensures match ApplyAll(kind, old(resource), operations, leaf)
              case Ok(final) => r == Ok(()) && resource == final
              case Err(e) => r == Err(e)
    {
      for n := 0 to |operations|
        invariant ApplyAll(kind, old(resource), operations, leaf) == ApplyAll(kind, resource, operations[n..], leaf)
      {
        assert operations[n..][1..] == operations[n + 1..];
        var step := ExecuteOp(operations[n]);
        if step.Err? {
          return step;
        }
      }
      return Ok(());
    }

    /** One operation; a failing one leaves the resource unchanged. */
    method ExecuteOp(operation: PatchOperation) returns (r: Result<(), PatchError>)
      modifies this
      ensures match ApplyOperation(kind, old(resource), operation, leaf)
              case Ok(next) => r == Ok(()) && resource == next
              case Err(e) => r == Err(e) && resource == old(resource)
    {
      var op := FilterLexer.ToLower(operation.op);
      if op == "add" {
        if operation.path == "" {
          r := AddToRootResource(operation.value);
        } else {
          r := SetValueAtPath(operation.path, operation.value, true);
        }
      } else if op == "remove" {
        if operation.path == "" {
          return Err(NoTarget);
        }
        r := RemoveValueAtPath(operation.path);
      } else if op == "replace" {
        if operation.path == "" {
          if !operation.value.JObject? {
            return Err(InvalidValue);
          }
          r := MapBack(Replacement(resource, operation.value.fields));
          return;
        }
        r := SetValueAtPath(operation.path, operation.value, false);
      } else {
        return Err(UnsupportedOperation);
      }
    }

    /** `mapToResource`: a document that cannot be decoded leaves the resource as it was. */
    method MapBack(edited: Object) returns (r: Result<(), PatchError>)
      modifies this
      ensures match MapToResource(kind, edited)
              case Ok(next) => r == Ok(()) && resource == next
              case Err(e) => r == Err(e) && resource == old(resource)
    {
      hide CanDecode;
      hide Encode;
      if !CanDecode(kind, edited) {
        return Err(WrongType);
      }
      resource := Encode(kind, edited);
      return Ok(());
    }

    method AddToRootResource(value: Json) returns (r: Result<(), PatchError>)
      modifies this
      ensures match AddToRoot(kind, old(resource), value)
              case Ok(next) => r == Ok(()) && resource == next
              case Err(e) => r == Err(e) && resource == old(resource)
    {
      hide MapToResource;
      if !value.JObject? {
        return Err(InvalidValue);
      }
      var merged := resource;
      var keys := value.fields.Keys;
      while keys != {}
        invariant keys <= value.fields.Keys
        invariant merged == resource + map key | key in value.fields.Keys - keys :: value.fields[key]
        decreases keys
      {
        var key :| key in keys;
        merged := merged[key := value.fields[key]];
        keys := keys - {key};
      }
      assert merged == resource + value.fields;
      r := MapBack(merged);
    }

    method SetValueAtPath(path: string, value: Json, isAdd: bool) returns (r: Result<(), PatchError>)
      modifies this
      ensures match SetValue(kind, old(resource), path, value, isAdd, leaf)
              case Ok(next) => r == Ok(()) && resource == next
              case Err(e) => r == Err(e) && resource == old(resource)
    {
      hide Matches;
      hide Merged;
      hide MapToResource;
      var parsed := ParsePatchPath(path);
      if parsed.Err? {
        return Err(parsed.error);
      }
      var (components, filter) := parsed.value;
      match SetAt(resource, components, filter != "", value, isAdd)
      case Failed(e) => return Err(e);
      case Edited(fields) => r := MapBack(fields);
      case InArray(items) =>
        var f := FilterParser.ParseFilter(filter);
        if f.Err? {
          return Err(InvalidPath);
        }
        var edited, matched := SetInArray(items, f.value, components[|components| - 1], value, leaf);
        NothingSelected(items, f.value, leaf);
        if !matched && !isAdd {
          return Err(NoTarget);
        }
        // The edited array is dropped: nothing writes it back to the resource.
        return Ok(());
    }

    method RemoveValueAtPath(path: string) returns (r: Result<(), PatchError>)
      modifies this
      ensures match RemoveValue(kind, old(resource), path, leaf)
              case Ok(next) => r == Ok(()) && resource == next
              case Err(e) => r == Err(e) && resource == old(resource)
    {
      var parsed := ParsePatchPath(path);
      if parsed.Err? {
        return Err(parsed.error);
      }
      var (components, filter) := parsed.value;
      match RemoveAt(resource, components, filter != "")
      case Failed(e) => return Err(e);
      case Edited(fields) => r := MapBack(fields);
      case InArray(items) =>
        var f := FilterParser.ParseFilter(filter);
        if f.Err? {
          return Err(InvalidPath);
        }
        var kept, removed := RemoveFromArray(items, f.value, leaf);
        if removed == [] {
          return Err(NoTarget);
        }
        // The shortened array is dropped: nothing writes it back to the resource.
        return Ok(());
    }
  }

  /** `parsePatchPath`: cuts out the value filter, splits at the dots and drops empty components. */
  method ParsePatchPath(path: string) returns (r: Result<(seq<string>, string), PatchError>)
    ensures r == ParsePath(path)
  {
    var filter, plain := "", path;
    var open := IndexOf(path, '[');
    if open.Some? {
      var close := IndexOf(path, ']');
      if close.None? {
        return Err(InvalidPath);
      }
      if close.value < open.value {
        return Err(SliceOutOfRange);
      }
      filter := path[open.value + 1..close.value];
      plain := path[..open.value] + path[close.value + 1..];
    }
    var components := DropEmpty(Split(plain, '.'));
    if components == [] {
      return Err(InvalidPath);
    }
    return Ok((components, filter));
  }

  method DropEmpty(components: seq<string>) returns (filtered: seq<string>)
    ensures filtered == NonEmpty(components)
  {
    filtered := [];
    for n := 0 to |components|
      invariant NonEmpty(components) == filtered + NonEmpty(components[n..])
    {
      assert components[n..][1..] == components[n + 1..];
      if components[n] != "" {
        filtered := filtered + [components[n]];
      }
    }
  }
}
