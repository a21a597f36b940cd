/** Laws of PATCH paths and operations. */
module ScimPatchLaws {
  import opened Wrappers
  import opened FilterSyntax
  import opened Json
  import opened ScimPatch
  import opened ScimResource
  import FilterLexer
  import FilterParser
  import QuickFilter

  // ------------------------------------------------------------------ path syntax

  /** A component that can be written in a path. */
  predicate IsPlain(name: string) {
    name != "" && '.' !in name && '[' !in name && ']' !in name
  }

  function JoinDots(names: seq<string>): string
    requires names != []
  {
    if |names| == 1 then names[0] else names[0] + ("." + JoinDots(names[1..]))
  }

  lemma {:induction false} IndexOfExact(a: string, c: char, b: string)
    requires c !in a
    ensures IndexOf(a + ([c] + b), c) == Some(|a|)
  {
    var s := a + ([c] + b);
    if a != "" {
      IndexOfExact(a[1..], c, b);
      assert s[1..] == a[1..] + ([c] + b);
    }
  }

  lemma IndexOfAbsent(s: string, c: char)
    requires c !in s
    ensures IndexOf(s, c) == None
  {
  }

  lemma {:induction false} SplitAt(a: string, c: char, b: string)
    requires c !in a
    ensures Split(a + ([c] + b), c) == [a] + Split(b, c)
  {
    hide IndexOf;
    var s := a + ([c] + b);
    IndexOfExact(a, c, b);
    assert s[..|a|] == a && s[|a| + 1..] == b;
  }

  lemma {:induction false} SplitJoin(names: seq<string>)
    requires names != [] && forall i :: 0 <= i < |names| ==> IsPlain(names[i])
    ensures Split(JoinDots(names), '.') == names && NonEmpty(names) == names
  {
    if |names| == 1 {
      IndexOfAbsent(names[0], '.');
      assert NonEmpty(names[1..]) == [];
    } else {
      hide Split;
      SplitJoin(names[1..]);
      SplitAt(names[0], '.', JoinDots(names[1..]));
    }
  }

  lemma {:induction false} JoinHasNo(names: seq<string>, c: char)
    requires names != [] && c in {'[', ']'} && forall i :: 0 <= i < |names| ==> IsPlain(names[i])
    ensures c !in JoinDots(names)
  {
    if |names| > 1 {
      JoinHasNo(names[1..], c);
    }
  }

  /** Writing components and reading the path back gives the components, without a filter. */
  lemma PlainPathRoundTrip(names: seq<string>)
    requires names != [] && forall i :: 0 <= i < |names| ==> IsPlain(names[i])
    ensures ParsePath(JoinDots(names)) == Ok((names, ""))
  {
    JoinHasNo(names, '[');
    IndexOfAbsent(JoinDots(names), '[');
    SplitJoin(names);
  }

  lemma Regroup<T>(a: seq<T>, b: seq<T>, c: seq<T>)
    ensures a + (b + c) == (a + b) + c
  {
  }

  lemma {:induction false} SplitConcat(a: string, c: char, b: string)
    ensures Split(a + ([c] + b), c) == Split(a, c) + Split(b, c)
  {
    hide Split;
    if c in a {
      var i := IndexOf(a, c).value;
      SplitConcat(a[i + 1..], c, b);
      assert a == a[..i] + ([c] + a[i + 1..]);
      SplitLonger(a[..i], c, a[i + 1..], b);
    } else {
      SplitAt(a, c, b);
      SplitWhole(a, c);
    }
  }

  lemma SplitWhole(a: string, c: char)
    requires c !in a
    ensures Split(a, c) == [a]
  {
    IndexOfAbsent(a, c);
  }

  lemma SplitLonger(head: string, c: char, tail: string, b: string)
    requires c !in head && Split(tail + ([c] + b), c) == Split(tail, c) + Split(b, c)
    ensures Split((head + ([c] + tail)) + ([c] + b), c) == Split(head + ([c] + tail), c) + Split(b, c)
  {
    hide *;
    SplitAt(head, c, tail);
    SplitAt(head, c, tail + ([c] + b));
    Regroup(head, [c] + tail, [c] + b);
    Regroup([c], tail, [c] + b);
    Regroup([head], Split(tail, c), Split(b, c));
  }

  lemma {:induction false} NonEmptyConcat(a: seq<string>, b: seq<string>)
    ensures NonEmpty(a + b) == NonEmpty(a) + NonEmpty(b)
  {
    if a == [] {
      assert a + b == b;
    } else {
      NonEmptyConcat(a[1..], b);
      assert (a + b)[1..] == a[1..] + b;
      var first, x, y := if a[0] == "" then [] else [a[0]], NonEmpty(a[1..]), NonEmpty(b);
      assert NonEmpty(a + b) == first + (x + y) == (first + x) + y;
    }
  }

  /** The components of a path without brackets: none if it cannot be read. */
  function PathComponents(path: string): seq<string> {
    match ParsePath(path)
    case Ok((components, _)) => components
    case Err(_) => []
  }

  /**
   * A path without brackets has the components before a dot and those after it, and those of a
   * path without dots are the path itself, if it is not empty. So dots at the ends and dots in a
   * row do not count. It is refused exactly when no components are left.
   */
  lemma DotsSeparate(a: string, b: string)
    requires '[' !in a && '[' !in b
    ensures PathComponents(a + ("." + b)) == PathComponents(a) + PathComponents(b)
    ensures '.' !in a ==> PathComponents(a) == if a == "" then [] else [a]
    ensures ParsePath(a) == if PathComponents(a) == [] then Err(InvalidPath) else Ok((PathComponents(a), ""))
  {
    ComponentsAre(a);
    ComponentsAre(b);
    ComponentsAre(a + ("." + b));
    hide IndexOf;
    SplitConcat(a, '.', b);
    NonEmptyConcat(Split(a, '.'), Split(b, '.'));
    if '.' !in a {
      IndexOfAbsent(a, '.');
      assert NonEmpty([a][1..]) == [];
    }
  }

  lemma ComponentsAre(path: string)
    requires '[' !in path
    ensures PathComponents(path) == NonEmpty(Split(path, '.'))
    ensures ParsePath(path) == if PathComponents(path) == [] then Err(InvalidPath) else Ok((PathComponents(path), ""))
  {
    IndexOfAbsent(path, '[');
    hide IndexOf;
    hide Split;
    hide NonEmpty;
  }

  /** The text between the first brackets is the filter, and the components are those of the rest; an opening bracket alone is refused. */
  lemma BracketsAreCutOut(head: string, filter: string, tail: string)
    requires '[' !in head && ']' !in head && ']' !in filter && '[' !in tail
    ensures ParsePath(head + ("[" + (filter + ("]" + tail))))
            == if PathComponents(head + tail) == [] then Err(InvalidPath) else Ok((PathComponents(head + tail), filter))
    ensures ParsePath(head + ("[" + filter)) == Err(InvalidPath)
  {
    hide IndexOf;
    hide Components;
    var path := head + ("[" + (filter + ("]" + tail)));
    IndexOfExact(head, '[', filter + ("]" + tail));
    var front := head + ("[" + filter);
    assert path == front + ("]" + tail);
    IndexOfExact(front, ']', tail);
    assert path[..|head|] + path[|front| + 1..] == head + tail;
    assert path[|head| + 1..|front|] == filter;
    assert ParsePath(path) == Components(head + tail, filter);
    ComponentsAre(head + tail);
    ComponentsCut(head + tail, filter);
    IndexOfExact(head, '[', filter);
    IndexOfAbsent(front, ']');
  }

  lemma ComponentsCut(plain: string, filter: string)
    ensures Components(plain, filter) == if NonEmpty(Split(plain, '.')) == [] then Err(InvalidPath) else Ok((NonEmpty(Split(plain, '.')), filter))
  {
    hide Split;
    hide NonEmpty;
  }

  /** The same for `attr[filter].sub`, for every filter without a closing bracket. */
  lemma FilteredPathRoundTrip(attr: string, filter: string, sub: string)
    requires IsPlain(attr) && IsPlain(sub) && ']' !in filter
    ensures ParsePath(attr + ("[" + (filter + ("]" + ("." + sub))))) == Ok(([attr, sub], filter))
  {
    hide IndexOf;
    hide Components;
    var tail := "." + sub;
    var path := attr + ("[" + (filter + ("]" + tail)));
    IndexOfExact(attr, '[', filter + ("]" + tail));
    var head := attr + ("[" + filter);
    assert path == head + ("]" + tail);
    IndexOfExact(head, ']', tail);
    assert path[..|attr|] + path[|head| + 1..] == attr + tail;
    assert path[|attr| + 1..|head|] == filter;
    assert ParsePath(path) == Components(attr + tail, filter);
    SubPath(attr, sub, filter);
  }

  lemma SubPath(attr: string, sub: string, filter: string)
    requires IsPlain(attr) && IsPlain(sub)
    ensures Components(attr + ("." + sub), filter) == Ok(([attr, sub], filter))
  {
    hide Split;
    hide NonEmpty;
    SplitJoin([attr, sub]);
    assert JoinDots([attr, sub][1..]) == sub;
    assert JoinDots([attr, sub]) == attr + ("." + sub);
  }

  /** The path parser slices out of range exactly when a closing bracket comes before any opening one. */
  lemma {:induction false} PathPanicsExactly(path: string)
    ensures ParsePath(path) == Err(SliceOutOfRange) <==>
            exists i, j :: 0 <= j < i < |path| && path[i] == '[' && path[j] == ']' && '[' !in path[..i]
  {
    hide IndexOf;
    hide Split;
    hide NonEmpty;
    var open, close := IndexOf(path, '['), IndexOf(path, ']');
    if ParsePath(path) == Err(SliceOutOfRange) {
      assert 0 <= close.value < open.value && '[' !in path[..open.value];
    }
    if i, j :| 0 <= j < i < |path| && path[i] == '[' && path[j] == ']' && '[' !in path[..i] {
      IndexOfExact(path[..i], '[', path[i + 1..]);
      assert path == path[..i] + (['['] + path[i + 1..]);
      IndexOfAtMost(path, ']', j);
    }
  }

  /** Such a path. */
  lemma PathPanics()
    ensures ParsePath("]emails[type") == Err(SliceOutOfRange)
  {
    hide ParsePath;
    PathPanicsExactly("]emails[type");
    var path := "]emails[type";
    assert path[0] == ']' && path[7] == '[' && '[' !in path[..7];
  }

  lemma {:induction false} IndexOfAtMost(s: string, c: char, i: nat)
    requires i < |s| && s[i] == c
    ensures IndexOf(s, c).Some? && IndexOf(s, c).value <= i
  {
    if s[0] != c {
      IndexOfAtMost(s[1..], c, i - 1);
    }
  }

  // ------------------------------------------------------------------ set

  /** Every step before the last one reaches an object. */
  predicate Reaches(o: Object, path: seq<string>)
    requires path != []
    decreases |path|
  {
    |path| > 1 ==> Get(o, path[0]).JObject? && Reaches(Get(o, path[0]).fields, path[1..])
  }

  /** Some step before the last one reaches an array. */
  predicate MeetsArray(o: Object, path: seq<string>)
    requires path != []
    decreases |path|
  {
    |path| > 1 &&
    match Get(o, path[0])
    case JArray(_) => true
    case JObject(fields) => MeetsArray(fields, path[1..])
    case _ => false
  }

  /** A filter-free `replace` succeeds exactly when its parents are there; `add` unless an array is in the way. */
  lemma {:induction false} SetSucceeds(o: Object, path: seq<string>, value: Json, isAdd: bool)
    requires path != []
    ensures SetAt(o, path, false, value, isAdd).Edited? <==> if isAdd then !MeetsArray(o, path) else Reaches(o, path)
    ensures !SetAt(o, path, false, value, isAdd).InArray?
    decreases |path|
  {
    if |path| > 1 {
      match Get(o, path[0])
      case JObject(fields) => SetSucceeds(fields, path[1..], value, isAdd);
      case JArray(_) =>
      case _ => SetSucceeds(map[], path[1..], value, isAdd);
    }
  }

  /** After a successful `add` or `replace` the path leads to the new value, arrays extended. */
  lemma {:induction false} SetThenLookup(o: Object, path: seq<string>, filtered: bool, value: Json, isAdd: bool)
    requires path != [] && SetAt(o, path, filtered, value, isAdd).Edited?
    ensures var next := SetAt(o, path, filtered, value, isAdd).fields;
            Lookup(next, path) ==
              if isAdd && Lookup(o, path).JArray?
              then JArray(Lookup(o, path).items + if value.JArray? then value.items else [value])
              else value
    decreases |path|
  {
    if |path| > 1 {
      match Get(o, path[0])
      case JObject(fields) => SetThenLookup(fields, path[1..], filtered, value, isAdd);
      case JArray(_) =>
      case _ =>
        SetThenLookup(map[], path[1..], filtered, value, isAdd);
        LookupEmpty(path[1..]);
    }
  }

  lemma LookupEmpty(path: seq<string>)
    requires path != []
    ensures Lookup(map[], path) == JNull
  {
  }

  /** A successful `add` or `replace` changes nothing along any path that parts ways with its own. */
  lemma {:induction false} SetKeepsOthers(o: Object, path: seq<string>, filtered: bool, value: Json, isAdd: bool, other: seq<string>)
    requires path != [] && SetAt(o, path, filtered, value, isAdd).Edited? && Diverge(path, other)
    ensures Lookup(SetAt(o, path, filtered, value, isAdd).fields, other) == Lookup(o, other)
    decreases |path|
  {
    if |path| > 1 && path[0] == other[0] {
      match Get(o, path[0])
      case JObject(fields) => SetKeepsOthers(fields, path[1..], filtered, value, isAdd, other[1..]);
      case JArray(_) =>
      case _ =>
        SetKeepsOthers(map[], path[1..], filtered, value, isAdd, other[1..]);
        LookupEmpty(other[1..]);
    }
  }

  // ------------------------------------------------------------------ remove

  /** A filter-free removal succeeds exactly when there is a value to remove. */
  lemma {:induction false} RemoveSucceeds(o: Object, path: seq<string>)
    requires path != []
    ensures RemoveAt(o, path, false).Edited? <==> Lookup(o, path) != JNull
    ensures !RemoveAt(o, path, false).InArray?
    decreases |path|
  {
    if |path| > 1 && Get(o, path[0]).JObject? {
      RemoveSucceeds(Get(o, path[0]).fields, path[1..]);
    }
  }

  /** A removed value is gone, and every path that parts ways is unchanged. */
  lemma {:induction false} RemoveThenLookup(o: Object, path: seq<string>, filtered: bool, other: seq<string>)
    requires path != [] && RemoveAt(o, path, filtered).Edited?
    ensures Lookup(RemoveAt(o, path, filtered).fields, path) == JNull
    ensures Diverge(path, other) ==> Lookup(RemoveAt(o, path, filtered).fields, other) == Lookup(o, other)
    decreases |path|
  {
    if Diverge(path, other) {
      DivergeStep(path, other);
    }
    if |path| > 1 {
      var tail := if other != [] && path[0] == other[0] then other[1..] else [];
      RemoveThenLookup(Get(o, path[0]).fields, path[1..], filtered, tail);
    } else if Diverge(path, other) {
      assert Get(o - {path[0]}, other[0]) == Get(o, other[0]);
    }
  }

  lemma DivergeStep(p: seq<string>, q: seq<string>)
    requires Diverge(p, q)
    ensures p[0] != q[0] || (|p| > 1 && |q| > 1 && Diverge(p[1..], q[1..]))
  {
  }

  /** Whether the last key of a reachable path is taken. */
  predicate IsPresent(o: Object, path: seq<string>)
    requires path != [] && Reaches(o, path)
    decreases |path|
  {
    if |path| == 1 then path[0] in o else IsPresent(Get(o, path[0]).fields, path[1..])
  }

  /** Removing what was just added at a free place restores the resource exactly. */
  lemma {:induction false} RemoveUndoesAdd(o: Object, path: seq<string>, value: Json)
    requires path != [] && Reaches(o, path) && !IsPresent(o, path) && value != JNull
    ensures var added := SetAt(o, path, false, value, true);
            added.Edited? && RemoveAt(added.fields, path, false) == Edited(o)
    decreases |path|
  {
    var key := path[0];
    if |path| == 1 {
      assert o[key := value] - {key} == o;
    } else {
      var fields := Get(o, key).fields;
      RemoveUndoesAdd(fields, path[1..], value);
      var added := SetAt(fields, path[1..], false, value, true).fields;
      assert SetAt(o, path, false, value, true) == Edited(o[key := JObject(added)]);
      assert o[key := JObject(added)][key := JObject(fields)] == o;
    }
  }

  // ------------------------------------------------------------------ whole operations

  /** After a successful edit the path leads through objects. */
  lemma {:induction false} EditReaches(o: Object, path: seq<string>, filtered: bool, value: Json, isAdd: bool)
    requires path != []
    ensures var n := SetAt(o, path, filtered, value, isAdd); n.Edited? ==> Reaches(n.fields, path)
    ensures var n := RemoveAt(o, path, filtered); n.Edited? ==> Reaches(n.fields, path)
    decreases |path|
  {
    if |path| > 1 {
      var inner := if Get(o, path[0]).JObject? then Get(o, path[0]).fields else map[];
      EditReaches(inner, path[1..], filtered, value, isAdd);
    }
  }

  /** What is found along a path after decoding and encoding. */
  lemma {:induction false} LookupRecoded(fields: Fields, o: Object, path: seq<string>)
    requires path != [] && Reaches(o, path) && Decodable(JObject(o), Record(fields))
    ensures Lookup(Recode(JObject(o), Record(fields)).fields, path) == Held(fields, path, Lookup(o, path))
    decreases |path|
  {
    var key := path[0];
    RecordGet(JObject(o), fields, key);
    if |path| > 1 && key in fields {
      assert Decodable(Get(o, key), fields[key].shape);
      LookupRecoded(fields[key].shape.fields, Get(o, key).fields, path[1..]);
    }
  }

  lemma LookupMapped(kind: Kind, edited: Object, path: seq<string>)
    requires path != [] && Reaches(edited, path) && MapToResource(kind, edited).Ok?
    ensures Lookup(MapToResource(kind, edited).value, path) == Held(Attributes(kind), path, Lookup(edited, path))
  {
    LookupRecoded(Attributes(kind), edited, path);
    hide Attributes;
    hide Recode;
    hide Decodable;
  }

  /** What an `add` or `replace` is to leave at its path. */
  function Expected(previous: Json, value: Json, isAdd: bool): Json {
    if isAdd && previous.JArray? then JArray(previous.items + if value.JArray? then value.items else [value]) else value
  }

  /**
   * A successful `add` or `replace` makes its path lead to the new value exactly when the path
   * does not go through an array, and the attribute at its end holds such a value: attributes
   * the resource does not have drop it, and so do most of them with "", false and [].
   */
  lemma EditTakesEffectExactly(kind: Kind, resource: Object, path: string, value: Json, isAdd: bool, leaf: LeafTest)
    requires ParsePath(path).Ok? && SetValue(kind, resource, path, value, isAdd, leaf).Ok? && value != JNull
    ensures var components := ParsePath(path).value.0;
            var expected := Expected(Lookup(resource, components), value, isAdd);
            Lookup(SetValue(kind, resource, path, value, isAdd, leaf).value, components) == expected
            <==> !MeetsArray(resource, components) && Held(Attributes(kind), components, expected) == expected
  {
    hide SetAt;
    hide MapToResource;
    hide Held;
    hide Attributes;
    hide ParsePath;
    hide Lookup;
    hide MeetsArray;
    hide Select;
    var (components, filter) := ParsePath(path).value;
    SetThroughArray(resource, components, filter != "", value, isAdd);
    var n := SetAt(resource, components, filter != "", value, isAdd);
    if n.Edited? {
      SetThenLookup(resource, components, filter != "", value, isAdd);
      EditReaches(resource, components, filter != "", value, isAdd);
      LookupMapped(kind, n.fields, components);
    } else {
      LookupThroughArray(resource, components);
    }
  }

  /**
   * A successful `remove` whose path neither goes through an array nor ends in one that its
   * filter searches leaves what the attribute holds without a value, which is nothing but for
   * required attributes; otherwise it leaves the resource as it was.
   */
  lemma RemovalTakesEffectExactly(kind: Kind, resource: Object, path: string, leaf: LeafTest)
    requires ParsePath(path).Ok? && RemoveValue(kind, resource, path, leaf).Ok?
    ensures var (components, filter) := ParsePath(path).value;
            var next := RemoveValue(kind, resource, path, leaf).value;
            if MeetsArray(resource, components) || (filter != "" && Lookup(resource, components).JArray?) then next == resource
            else Lookup(next, components) == Held(Attributes(kind), components, JNull) && Lookup(resource, components) != JNull
  {
    hide RemoveAt;
    hide MapToResource;
    hide Held;
    hide Attributes;
    hide ParsePath;
    hide Lookup;
    hide MeetsArray;
    hide Select;
    var (components, filter) := ParsePath(path).value;
    RemoveShape(resource, components, filter != "");
    var n := RemoveAt(resource, components, filter != "");
    if n.Edited? {
      RemoveThenLookup(resource, components, filter != "", components);
      EditReaches(resource, components, filter != "", JNull, false);
      LookupMapped(kind, n.fields, components);
    }
  }

  /** An optional text attribute holds every text but the empty one, and nothing else. */
  lemma TextHeld(fields: Fields, name: string, v: Json)
    requires name in fields && fields[name] == TEXT
    ensures Held(fields, [name], v) == v <==> v == JNull || (v.JString? && v.text != "")
  {
  }

  /** Where a removal ends: at a value it takes out, or in an array. */
  lemma {:induction false} RemoveShape(o: Object, path: seq<string>, filtered: bool)
    requires path != []
    ensures var v, n := Lookup(o, path), RemoveAt(o, path, filtered);
            && (n.Edited? <==> v != JNull && !(filtered && v.JArray?))
            && (n.InArray? <==> filtered && (MeetsArray(o, path) || v.JArray?))
            && (MeetsArray(o, path) ==> v == JNull)
    decreases |path|
  {
    if |path| > 1 && Get(o, path[0]).JObject? {
      RemoveShape(Get(o, path[0]).fields, path[1..], filtered);
    }
  }

  /** An edit whose path meets an array fails, or reports success with the resource unchanged. */
  lemma FilteredEditIsDropped(kind: Kind, resource: Object, path: string, value: Json, isAdd: bool, leaf: LeafTest)
    requires ParsePath(path).Ok? && MeetsArray(resource, ParsePath(path).value.0)
    ensures var edited := SetValue(kind, resource, path, value, isAdd, leaf); edited.Ok? ==> edited.value == resource
    ensures var removed := RemoveValue(kind, resource, path, leaf); removed.Ok? ==> removed.value == resource
  {
    hide SetAt;
    hide RemoveAt;
    hide MapToResource;
    hide Select;
    hide ParsePath;
    hide MeetsArray;
    var (components, filter) := ParsePath(path).value;
    SetThroughArray(resource, components, filter != "", value, isAdd);
    RemoveShape(resource, components, filter != "");
  }

  const WORK_FILTER := "type" + (" " + ("eq" + (" " + ("\"" + ("work" + "\"")))))

  /** `emails[type eq "work"].value` */
  const WORK_EMAIL := "emails" + ("[" + (WORK_FILTER + ("]" + ("." + "value"))))

  const IS_WORK := Compare(AttrPath("", "type", "", None), EqOp, Str("work"))

  /**
   * The path every client writes to change a work address: whatever the addresses are, an
   * `add` along it answers success, and a `replace` or a `remove` does so exactly when some
   * address matches; the resource stays as it was in every case.
   */
  lemma WorkEmailStays(kind: Kind, resource: Object, addresses: seq<Json>, value: Json, leaf: LeafTest)
    requires Get(resource, "emails") == JArray(addresses)
    ensures var matching := exists i :: 0 <= i < |addresses| && Matches(addresses[i], Some(IS_WORK), leaf);
            && SetValue(kind, resource, WORK_EMAIL, value, true, leaf) == Ok(resource)
            && SetValue(kind, resource, WORK_EMAIL, value, false, leaf) == (if matching then Ok(resource) else Err(NoTarget))
            && RemoveValue(kind, resource, WORK_EMAIL, leaf) == if matching then Ok(resource) else Err(NoTarget)
  {
    hide Matches;
    hide Select;
    hide ParsePath;
    hide FilterParser.ParseFilterSpec;
    WorkPath();
    WorkFilter();
    hide SetAt;
    hide RemoveAt;
    hide MapToResource;
    IntoArray(resource, ["emails", "value"], addresses, value);
    NothingSelected(addresses, Some(IS_WORK), leaf);
  }

  lemma IntoArray(resource: Object, path: seq<string>, items: seq<Json>, value: Json)
    requires |path| == 2 && Get(resource, path[0]) == JArray(items)
    ensures SetAt(resource, path, true, value, true) == SetAt(resource, path, true, value, false) == InArray(items)
    ensures RemoveAt(resource, path, true) == InArray(items)
  {
  }

  lemma WorkPath()
    ensures ParsePath(WORK_EMAIL) == Ok((["emails", "value"], WORK_FILTER)) && WORK_FILTER != ""
  {
    hide ParsePath;
    assert ']' !in "type" && ']' !in "work";
    FilteredPathRoundTrip("emails", WORK_FILTER, "value");
  }

  lemma WorkFilter()
    ensures FilterParser.ParseFilterSpec(WORK_FILTER) == Ok(Some(IS_WORK))
  {
    hide FilterParser.ParseFilterSpec;
    hide FilterLexer.Unescape;
    hide QuickFilter.LiteralText;
    var m := QuickFilter.QuickMatch("type", EqOp, "work");
    TypeIsName();
    hide QuickFilter.IsAttributeName;
    QuickFilter.ParseShaped("", WORK_FILTER, "", " ", " ", m);
    QuickFilter.LiteralValue("work", "");
    assert "" + (WORK_FILTER + "") == WORK_FILTER;
  }

  lemma TypeIsName()
    ensures QuickFilter.IsAttributeName("type")
  {
    var lower := FilterLexer.ToLower("type");
    assert |lower| == 4 && lower[1] == 'y';
    forall word | word in FilterLexer.KEYWORDS ensures |word| < 2 || word[1] != 'y' {
    }
  }

  lemma {:induction false} SetThroughArray(o: Object, path: seq<string>, filtered: bool, value: Json, isAdd: bool)
    requires path != []
    ensures SetAt(o, path, filtered, value, isAdd).Edited? ==> !MeetsArray(o, path)
    ensures SetAt(o, path, filtered, value, isAdd).InArray? ==> MeetsArray(o, path)
    decreases |path|
  {
    if |path| > 1 {
      match Get(o, path[0])
      case JObject(fields) => SetThroughArray(fields, path[1..], filtered, value, isAdd);
      case JArray(_) =>
      case _ => SetThroughArray(map[], path[1..], filtered, value, isAdd);
    }
  }

  lemma {:induction false} LookupThroughArray(o: Object, path: seq<string>)
    requires path != [] && MeetsArray(o, path)
    ensures Lookup(o, path) == JNull
    decreases |path|
  {
    if Get(o, path[0]).JObject? {
      LookupThroughArray(Get(o, path[0]).fields, path[1..]);
    }
  }

  // ------------------------------------------------------------------ whole requests

  /**
   * The operation does not touch the attribute: neither as the start of its path nor among the
   * attributes of a root `add`, nor by a root `replace` that would drop it.
   */
  predicate SparesKey(operation: PatchOperation, key: string) {
    var op := FilterLexer.ToLower(operation.op);
    if operation.path == "" then
      && (op == "add" && operation.value.JObject? ==> key !in operation.value.fields)
      && (op == "replace" ==> key in {"id", "meta", "schemas"})
    else PathSpares(operation.path, key)
  }

  predicate PathSpares(path: string, key: string) {
    ParsePath(path).Ok? ==> ParsePath(path).value.0[0] != key
  }

  predicate SparesMeta(operation: PatchOperation) {
    SparesKey(operation, "meta")
  }

  lemma {:induction false} SetSparesKey(o: Object, path: seq<string>, filtered: bool, value: Json, isAdd: bool, key: string)
    requires path != [] && path[0] != key
    ensures var n := SetAt(o, path, filtered, value, isAdd);
            n.Edited? ==> Get(n.fields, key) == Get(o, key)
    ensures var n := RemoveAt(o, path, filtered);
            n.Edited? ==> Get(n.fields, key) == Get(o, key)
  {
  }

  /** An edit that leaves a settled attribute alone leaves it alone in the resource. */
  lemma MappedKeeps(kind: Kind, resource: Object, edited: Object, key: string)
    requires IsSettled(kind, resource, key) && Get(edited, key) == Get(resource, key) && MapToResource(kind, edited).Ok?
    ensures Get(MapToResource(kind, edited).value, key) == Get(resource, key)
  {
    GetEncoded(kind, edited, key);
    hide Encode;
    hide CanDecode;
    hide Settled;
  }

  lemma ValueSparesKey(kind: Kind, resource: Object, path: string, value: Json, isAdd: bool, leaf: LeafTest, key: string)
    requires IsSettled(kind, resource, key) && PathSpares(path, key)
    ensures var r := SetValue(kind, resource, path, value, isAdd, leaf); r.Ok? ==> Get(r.value, key) == Get(resource, key)
    ensures var r := RemoveValue(kind, resource, path, leaf); r.Ok? ==> Get(r.value, key) == Get(resource, key)
  {
    hide IsSettled;
    hide MapToResource;
    hide Select;
    if ParsePath(path).Ok? {
      var (components, filter) := ParsePath(path).value;
      hide ParsePath;
      SetSparesKey(resource, components, filter != "", value, isAdd, key);
      var n, m := SetAt(resource, components, filter != "", value, isAdd), RemoveAt(resource, components, filter != "");
      hide SetAt;
      hide RemoveAt;
      if n.Edited? && MapToResource(kind, n.fields).Ok? {
        MappedKeeps(kind, resource, n.fields, key);
      }
      if m.Edited? && MapToResource(kind, m.fields).Ok? {
        MappedKeeps(kind, resource, m.fields, key);
      }
    }
  }

  lemma OperationSparesKey(kind: Kind, resource: Object, operation: PatchOperation, leaf: LeafTest, key: string)
    requires SparesKey(operation, key) && IsSettled(kind, resource, key)
    requires key in {"id", "meta", "schemas"} ==> Get(resource, key) != JNull
    requires ApplyOperation(kind, resource, operation, leaf).Ok?
    ensures Get(ApplyOperation(kind, resource, operation, leaf).value, key) == Get(resource, key)
  {
    hide IsSettled;
    hide SetValue;
    hide RemoveValue;
    hide ParsePath;
    if operation.path == "" {
      RootSparesKey(kind, resource, operation, leaf, key);
    } else {
      ValueSparesKey(kind, resource, operation.path, operation.value, true, leaf, key);
      ValueSparesKey(kind, resource, operation.path, operation.value, false, leaf, key);
    }
    hide AddToRoot;
    hide ReplaceRoot;
  }

  lemma RootSparesKey(kind: Kind, resource: Object, operation: PatchOperation, leaf: LeafTest, key: string)
    requires operation.path == "" && SparesKey(operation, key) && IsSettled(kind, resource, key)
    requires key in {"id", "meta", "schemas"} ==> Get(resource, key) != JNull
    requires ApplyOperation(kind, resource, operation, leaf).Ok?
    ensures Get(ApplyOperation(kind, resource, operation, leaf).value, key) == Get(resource, key)
  {
    var op := FilterLexer.ToLower(operation.op);
    var fields := operation.value.fields;
    if op == "add" {
      assert Get(resource + fields, key) == Get(resource, key);
      MappedKeeps(kind, resource, resource + fields, key);
    } else {
      assert Get(Replacement(resource, fields), key) == Get(resource, key);
      MappedKeeps(kind, resource, Replacement(resource, fields), key);
    }
    hide MapToResource;
    hide IsSettled;
  }

  /** A request whose operations do not touch an attribute leaves it as it was. */
  lemma {:induction false} RequestSparesKey(kind: Kind, resource: Object, operations: seq<PatchOperation>, leaf: LeafTest, key: string)
    requires forall i :: 0 <= i < |operations| ==> SparesKey(operations[i], key)
    requires IsSettled(kind, resource, key) && (key in {"id", "meta", "schemas"} ==> Get(resource, key) != JNull)
    requires ApplyAll(kind, resource, operations, leaf).Ok?
    ensures Get(ApplyAll(kind, resource, operations, leaf).value, key) == Get(resource, key)
    decreases |operations|
  {
    hide ApplyOperation;
    hide SparesKey;
    hide Settled;
    if operations != [] {
      OperationSparesKey(kind, resource, operations[0], leaf, key);
      RequestSparesKey(kind, ApplyOperation(kind, resource, operations[0], leaf).value, operations[1..], leaf, key);
    }
  }

  /** A request whose operations do not name `meta` leaves it alone. */
  lemma RequestSparesMeta(kind: Kind, resource: Object, operations: seq<PatchOperation>, leaf: LeafTest)
    requires forall i :: 0 <= i < |operations| ==> SparesMeta(operations[i])
    requires IsSettled(kind, resource, "meta") && Get(resource, "meta") != JNull
    requires ApplyAll(kind, resource, operations, leaf).Ok?
    ensures Get(ApplyAll(kind, resource, operations, leaf).value, "meta") == Get(resource, "meta")
  {
    hide ApplyOperation;
    hide SparesKey;
    hide IsSettled;
    RequestSparesKey(kind, resource, operations, leaf, "meta");
  }

  // ------------------------------------------------------------------ requests of one operation

  lemma OneOperation(kind: Kind, doc: Object, operation: PatchOperation, leaf: LeafTest)
    ensures ApplyPatch(kind, doc, PatchRequest([], [operation]), leaf) == ApplyOperation(kind, doc, operation, leaf)
  {
    hide ApplyOperation;
    var r := ApplyOperation(kind, doc, operation, leaf);
    if r.Ok? {
      assert ApplyAll(kind, r.value, [operation][1..], leaf) == r;
    }
  }

  /** A single operation on a path of attribute names. */
  lemma EditOperation(kind: Kind, doc: Object, op: string, path: string, components: seq<string>, value: Json, edited: Object, leaf: LeafTest)
    requires ParsePath(path) == Ok((components, "")) && path != "" && op in {"replace", "remove"} && components != []
    requires (if op == "remove" then RemoveAt(doc, components, false) else SetAt(doc, components, false, value, false)) == Edited(edited)
    ensures ApplyPatch(kind, doc, PatchRequest([], [PatchOperation(op, path, value)]), leaf) == MapToResource(kind, edited)
  {
    assert FilterLexer.ToLower("remove") == "remove" && FilterLexer.ToLower("replace") == "replace";
    OneOperation(kind, doc, PatchOperation(op, path, value), leaf);
    hide ApplyPatch;
    hide ParsePath;
    hide SetAt;
    hide RemoveAt;
    hide MapToResource;
    hide FilterLexer.ToLower;
  }

  // ------------------------------------------------------------------ operations by name

  /** What an operation without a path puts at an attribute: the value sent, or what was there before. */
  function RootPut(op: string, resource: Object, sent: Object, name: string): Json {
    if op == "add" then if name in sent then sent[name] else Get(resource, name)
    else if name in {"id", "meta", "schemas"} && name in resource then resource[name]
    else Get(sent, name)
  }

  /** Every declared attribute can be decoded after the operation. */
  predicate RootDecodes(kind: Kind, op: string, resource: Object, sent: Object) {
    forall name :: name in Attributes(kind) ==> Decodable(RootPut(op, resource, sent, name), Attributes(kind)[name].shape)
  }

  /**
   * An `add` without a path sets the attributes sent and keeps all others; a `replace` sets every
   * attribute to what was sent, or to nothing, but for `id`, `meta` and `schemas` that were there.
   * It succeeds exactly with an object that leaves every attribute of its type. `remove` needs a path.
   */
  lemma RootOperation(kind: Kind, resource: Object, operation: PatchOperation, leaf: LeafTest)
    requires operation.path == "" && FilterLexer.ToLower(operation.op) in {"add", "replace", "remove"}
    ensures var op, value, r := FilterLexer.ToLower(operation.op), operation.value, ApplyOperation(kind, resource, operation, leaf);
            if op == "remove" then r == Err(NoTarget)
            else if !value.JObject? then r == Err(InvalidValue)
            else if !RootDecodes(kind, op, resource, value.fields) then r == Err(WrongType)
            else r.Ok? && forall name :: Get(r.value, name) == Settled(Attributes(kind), name, RootPut(op, resource, value.fields, name))
  {
    hide Attributes;
    hide Decodable;
    hide Settled;
    hide Encode;
    hide CanDecode;
    hide FilterLexer.ToLower;
    var op, value := FilterLexer.ToLower(operation.op), operation.value;
    if op != "remove" && value.JObject? {
      var edited := if op == "add" then resource + value.fields else Replacement(resource, value.fields);
      forall name ensures Get(edited, name) == RootPut(op, resource, value.fields, name) {
      }
      hide Replacement;
      hide RootPut;
      DecodesByAttribute(kind, edited);
      forall name ensures Get(Encode(kind, edited), name) == Settled(Attributes(kind), name, RootPut(op, resource, value.fields, name)) {
        GetEncoded(kind, edited, name);
      }
    }
  }

  lemma DecodesByAttribute(kind: Kind, doc: Object)
    ensures CanDecode(kind, doc) <==> forall name :: name in Attributes(kind) ==> Decodable(Get(doc, name), Attributes(kind)[name].shape)
  {
    hide Attributes;
  }

  /** The name of an operation is not case-sensitive, and every other one is refused. */
  lemma UnsupportedExactly(kind: Kind, resource: Object, operation: PatchOperation, leaf: LeafTest)
    ensures ApplyOperation(kind, resource, operation, leaf) == Err(UnsupportedOperation)
            <==> FilterLexer.ToLower(operation.op) !in {"add", "remove", "replace"}
  {
    hide FilterLexer.ToLower;
    SupportedErrors(kind, resource, operation.path, operation.value, true, leaf);
    SupportedErrors(kind, resource, operation.path, operation.value, false, leaf);
    hide SetValue;
    hide RemoveValue;
    hide CanDecode;
    hide Encode;
    hide Replacement;
  }

  lemma SupportedErrors(kind: Kind, resource: Object, path: string, value: Json, isAdd: bool, leaf: LeafTest)
    ensures SetValue(kind, resource, path, value, isAdd, leaf) != Err(UnsupportedOperation)
    ensures RemoveValue(kind, resource, path, leaf) != Err(UnsupportedOperation)
  {
    hide Select;
    hide CanDecode;
    hide Encode;
    PathErrors(path);
    hide ParsePath;
    if ParsePath(path).Ok? {
      var (components, filter) := ParsePath(path).value;
      EditErrors(resource, components, filter != "", value, isAdd);
    }
    hide SetAt;
    hide RemoveAt;
  }

  lemma PathErrors(path: string)
    ensures ParsePath(path).Err? ==> ParsePath(path).error in {InvalidPath, SliceOutOfRange}
  {
    hide IndexOf;
    hide Split;
    hide NonEmpty;
  }

  /** An edit without a value filter fails with `InvalidPath` on an array in the way, and otherwise for want of a target. */
  lemma {:induction false} EditErrors(o: Object, path: seq<string>, filtered: bool, value: Json, isAdd: bool)
    requires path != []
    ensures var n := SetAt(o, path, filtered, value, isAdd);
            n.Failed? ==> n.error == if MeetsArray(o, path) then InvalidPath else NoTarget
    ensures var n := RemoveAt(o, path, filtered);
            n.Failed? ==> n.error == if MeetsArray(o, path) then InvalidPath else NoTarget
    decreases |path|
  {
    if |path| > 1 {
      match Get(o, path[0])
      case JObject(fields) => EditErrors(fields, path[1..], filtered, value, isAdd);
      case JArray(_) =>
      case _ => EditErrors(map[], path[1..], filtered, value, isAdd); NoArrayInNothing(path[1..]);
    }
  }

  lemma NoArrayInNothing(path: seq<string>)
    requires path != []
    ensures !MeetsArray(map[], path)
  {
  }

  /** The effect of `add`, `replace` and `remove` along a path, for the operation as it is sent. */
  lemma OperationTakesEffectExactly(kind: Kind, resource: Object, operation: PatchOperation, leaf: LeafTest)
    requires operation.path != "" && ParsePath(operation.path).Ok? && ApplyOperation(kind, resource, operation, leaf).Ok?
    ensures var op, components := FilterLexer.ToLower(operation.op), ParsePath(operation.path).value.0;
            var before, after := Lookup(resource, components), Lookup(ApplyOperation(kind, resource, operation, leaf).value, components);
            var expected := Expected(before, operation.value, op == "add");
            && op in {"add", "replace", "remove"}
            && (op != "remove" && operation.value != JNull ==>
                  (after == expected <==> !MeetsArray(resource, components) && Held(Attributes(kind), components, expected) == expected))
            && (op == "remove" && ParsePath(operation.path).value.1 == "" ==>
                  before != JNull && after == Held(Attributes(kind), components, JNull))
  {
    hide FilterLexer.ToLower;
    hide ParsePath;
    hide SetValue;
    hide RemoveValue;
    hide Held;
    hide Attributes;
    hide Lookup;
    hide MeetsArray;
    hide Expected;
    UnsupportedExactly(kind, resource, operation, leaf);
    var op := FilterLexer.ToLower(operation.op);
    if op == "remove" {
      PlainRemoval(kind, resource, operation.path, leaf);
    } else if operation.value != JNull {
      EditTakesEffectExactly(kind, resource, operation.path, operation.value, op == "add", leaf);
    }
  }

  lemma PlainRemoval(kind: Kind, resource: Object, path: string, leaf: LeafTest)
    requires ParsePath(path).Ok? && RemoveValue(kind, resource, path, leaf).Ok?
    ensures var (components, filter) := ParsePath(path).value;
            filter == "" ==> Lookup(resource, components) != JNull
                             && Lookup(RemoveValue(kind, resource, path, leaf).value, components) == Held(Attributes(kind), components, JNull)
  {
    hide ParsePath;
    hide Held;
    hide Attributes;
    hide MapToResource;
    hide Select;
    RemovalTakesEffectExactly(kind, resource, path, leaf);
    var (components, filter) := ParsePath(path).value;
    RemoveShape(resource, components, filter != "");
    hide Lookup;
    hide MeetsArray;
    hide RemoveAt;
  }

  /** A request runs its operations one after the other and ends at the first that fails. */
  lemma {:induction false} RequestsCompose(kind: Kind, resource: Object, first: seq<PatchOperation>, later: seq<PatchOperation>, leaf: LeafTest)
    ensures var r := ApplyAll(kind, resource, first, leaf);
            ApplyAll(kind, resource, first + later, leaf) == if r.Ok? then ApplyAll(kind, r.value, later, leaf) else r
    decreases |first|
  {
    hide ApplyOperation;
    if first == [] {
      assert first + later == later;
    } else {
      assert (first + later)[1..] == first[1..] + later;
      var r := ApplyOperation(kind, resource, first[0], leaf);
      if r.Ok? {
        RequestsCompose(kind, r.value, first[1..], later, leaf);
      }
    }
  }

  /** What a successful operation leaves is an encoding again. */
  lemma OperationKeepsResource(kind: Kind, resource: Object, operation: PatchOperation, leaf: LeafTest)
    requires IsResource(kind, resource)
    ensures var r := ApplyOperation(kind, resource, operation, leaf); r.Ok? ==> IsResource(kind, r.value)
  {
    hide Encode;
    hide CanDecode;
    hide Replacement;
    hide FilterLexer.ToLower;
    hide ParsePath;
    hide SetAt;
    hide RemoveAt;
    hide Select;
    forall edited ensures IsResource(kind, Encode(kind, edited)) {
      EncodeTwice(kind, edited);
    }
  }

  /** And so is what a request leaves. */
  lemma {:induction false} RequestKeepsResource(kind: Kind, resource: Object, operations: seq<PatchOperation>, leaf: LeafTest)
    requires IsResource(kind, resource)
    ensures var r := ApplyAll(kind, resource, operations, leaf); r.Ok? ==> IsResource(kind, r.value)
    decreases |operations|
  {
    hide ApplyOperation;
    hide IsResource;
    if operations != [] {
      OperationKeepsResource(kind, resource, operations[0], leaf);
      var r := ApplyOperation(kind, resource, operations[0], leaf);
      if r.Ok? {
        RequestKeepsResource(kind, r.value, operations[1..], leaf);
      }
    }
  }

  /** A request is that of its operations, if the first of its schemas is the PATCH schema or it has none. */
  lemma SchemaChecked(kind: Kind, resource: Object, request: PatchRequest, leaf: LeafTest)
    ensures ApplyPatch(kind, resource, request, leaf)
            == if request.schemas == [] || request.schemas[0] == "urn:ietf:params:scim:api:messages:2.0:PatchOp"
               then ApplyAll(kind, resource, request.operations, leaf) else Err(InvalidSyntax)
    ensures forall operation :: request.operations == [operation] ==>
              ApplyAll(kind, resource, request.operations, leaf) == ApplyOperation(kind, resource, operation, leaf)
  {
    hide ApplyOperation;
    if |request.operations| == 1 {
      var r := ApplyOperation(kind, resource, request.operations[0], leaf);
      if r.Ok? {
        assert ApplyAll(kind, r.value, request.operations[1..], leaf) == r;
      }
    }
  }
}
