/**
 * What a filter asks of a stored resource, operator by operator and attribute by attribute, and
 * that the clause the database reads asks the same.
 */
module SqlMeaning {
  import opened Wrappers
  import opened Json
  import opened FilterSyntax
  import opened FilterLexer
  import opened FilterSql
  import opened SqlReading
  import opened SqlLike
  import Laws = ScimPatchLaws
  import ScimPatch
  import Decimal

  // ------------------------------------------------------------------ stored resources

  /** A value as the database holds it; booleans are 0 and 1. */
  datatype Cell = NullCell | TextCell(text: string) | IntCell(i: int) | RealCell(literal: string)

  /** A row of either table: its columns by what they hold, and the JSON document. */
  datatype Stored = Stored(
    id: Cell, externalId: Cell, userName: Cell, displayName: Cell, created: Cell, lastModified: Cell, data: Object)

  /** `below` is the order of the database, `json` how it writes an array or object it is asked for. */
  datatype Database = Database(row: Stored, below: (Cell, Cell) -> bool, json: Json -> string)

  /** Of two values exactly one is below the other, or they are equal. */
  ghost predicate IsOrder(below: (Cell, Cell) -> bool) {
    forall a, b :: (below(a, b) <==> a != b && !below(b, a))
  }

  function JsonCell(v: Json, json: Json -> string): Cell {
    match v
    case JNull => NullCell
    case JBool(b) => IntCell(if b then 1 else 0)
    case JNumber(literal) => RealCell(literal)
    case JString(text) => TextCell(text)
    case _ => TextCell(json(v))
  }

  /** How a comparison value is bound. */
  function ValueCell(v: Value): Cell {
    match v
    case Str(text) => TextCell(text)
    case Int(i) => IntCell(i)
    case Float(literal) => RealCell(literal)
    case Bool(b) => IntCell(if b then 1 else 0)
    case Null => NullCell
  }

  function CellText(c: Cell): string {
    match c
    case NullCell => ""
    case TextCell(text) => text
    case IntCell(i) => Decimal.IntText(i)
    case RealCell(literal) => literal
  }

  // ------------------------------------------------------------------ the database

  /** The columns of the tables; a column a table does not have holds nothing here. */
  function NamedCell(row: Stored, name: string): Cell {
    match name
    case "id" => row.id
    case "external_id" => row.externalId
    case "user_name" => row.userName
    case "display_name" => row.displayName
    case "created_at" => row.created
    case "updated_at" => row.lastModified
    case _ => NullCell
  }

  /** `json_extract(data, path)`: a path is `$` and names behind points. */
  function ExtractedCell(db: Database, path: string): Cell {
    if "$." <= path then JsonCell(Lookup(db.row.data, ScimPatch.Split(path[2..], '.')), db.json) else NullCell
  }

  function ColumnCell(db: Database, c: SqlColumn): Cell {
    match c
    case Named(name) => NamedCell(db.row, name)
    case JsonPath(path) => ExtractedCell(db, path)
  }

  function Known(b: bool): Truth {
    if b then True else False
  }

  /** The SQL operators: NULL on either side gives NULL. */
  function SqlAnswer(a: Cell, cmp: SqlCompare, b: Cell, below: (Cell, Cell) -> bool): Truth {
    if a == NullCell || b == NullCell then Unknown
    else
      match cmp
      case SqlEq => Known(a == b)
      case SqlNe => Known(a != b)
      case SqlGt => Known(below(b, a))
      case SqlLt => Known(below(a, b))
      case SqlGe => Known(!below(a, b))
      case SqlLe => Known(!below(b, a))
      case SqlLike => Known(Like(CellText(a), CellText(b)))
  }

  function BoundCell(p: Param): Cell {
    match p
    case Exact(v) => ValueCell(v)
    case Pattern(text) => TextCell(text)
  }

  function RowOf(db: Database): Row {
    Row((c: SqlColumn, cmp: SqlCompare, p: Param) => SqlAnswer(ColumnCell(db, c), cmp, BoundCell(p), db.below),
        (c: SqlColumn) => Known(ColumnCell(db, c) != NullCell),
        (c: SqlColumn) => SqlAnswer(ColumnCell(db, c), SqlNe, TextCell(""), db.below))
  }

  // ------------------------------------------------------------------ what a filter asks

  function PathNames(p: AttrPath): seq<string> {
    if p.subAttr == "" then [p.attribute] else [p.attribute, p.subAttr]
  }

  /** The value of an attribute of the stored resource. */
  function AttributeCell(db: Database, p: AttrPath): Cell {
    var (name, sub) := (ToLower(p.attribute), ToLower(p.subAttr));
    match name
    case "id" => db.row.id
    case "externalid" => db.row.externalId
    case "username" => db.row.userName
    case "displayname" => db.row.displayName
    case "meta" =>
      if sub == "created" then db.row.created
      else if sub == "lastmodified" then db.row.lastModified
      else JsonCell(Lookup(db.row.data, ["meta", p.subAttr]), db.json)
    case _ => JsonCell(Lookup(db.row.data, PathNames(p)), db.json)
  }

  /** The SCIM operators (table 3 of RFC 7644) on a value that is there. */
  ghost predicate Satisfies(c: Cell, cmp: CompareOp, v: Value, below: (Cell, Cell) -> bool) {
    match cmp
    case EqOp => c == ValueCell(v)
    case NeOp => c != ValueCell(v)
    case CoOp => Contains(CellText(c), ValueText(v))
    case SwOp => HasPrefix(CellText(c), ValueText(v))
    case EwOp => HasSuffix(CellText(c), ValueText(v))
    case GtOp => below(ValueCell(v), c)
    case GeOp => c == ValueCell(v) || below(ValueCell(v), c)
    case LtOp => below(c, ValueCell(v))
    case LeOp => c == ValueCell(v) || below(c, ValueCell(v))
  }

  /** A comparison with a missing value, or of order or equality with null, is neither true nor false. */
  predicate IsDecided(db: Database, p: AttrPath, cmp: CompareOp, v: Value) {
    AttributeCell(db, p) != NullCell && (v != Null || cmp in {CoOp, SwOp, EwOp})
  }

  /** `wanted` true: the resource matches. `wanted` false: it certainly does not. */
  ghost predicate Answers(t: FilterNode, db: Database, wanted: bool) {
    match t
    case Compare(path, cmp, v) =>
      IsDecided(db, path, cmp, v) && (Satisfies(AttributeCell(db, path), cmp, v, db.below) <==> wanted)
    case Present(path) =>
      (AttributeCell(db, path) != NullCell && AttributeCell(db, path) != TextCell("")) <==> wanted
    case Logic(l, AndOp, r) =>
      if wanted then Answers(l, db, true) && Answers(r, db, true) else Answers(l, db, false) || Answers(r, db, false)
    case Logic(l, OrOp, r) =>
      if wanted then Answers(l, db, true) || Answers(r, db, true) else Answers(l, db, false) && Answers(r, db, false)
    case Negation(inner) => Answers(inner, db, !wanted)
  }

  // ------------------------------------------------------------------ the attributes

  predicate IsMapped(p: AttrPath) {
    var name := ToLower(p.attribute);
    || name in {"id", "externalid", "username", "displayname"}
    || (name == "meta" && ToLower(p.subAttr) in {"created", "lastmodified"})
  }

  /** Names as the parser gives them, which can stand in a JSON path; `meta` is not asked for as a whole. */
  predicate IsNamed(p: AttrPath) {
    IsMapped(p) || (Laws.IsPlain(p.attribute) && (Laws.IsPlain(p.subAttr) || (p.subAttr == "" && ToLower(p.attribute) != "meta")))
  }

  /** The sub-attributes of `meta` are written in lower case into the JSON path, whatever they are. */
  predicate KeepsCase(p: AttrPath) {
    IsMapped(p) || ToLower(p.attribute) != "meta" || ToLower(p.subAttr) == p.subAttr
  }

  lemma OneName(name: string)
    requires Laws.IsPlain(name)
    ensures ScimPatch.Split(name, '.') == [name]
  {
    Laws.SplitJoin([name]);
    hide ScimPatch.Split;
  }

  lemma TwoNames(a: string, b: string)
    requires Laws.IsPlain(a) && Laws.IsPlain(b)
    ensures ScimPatch.Split(a + "." + b, '.') == [a, b]
  {
    OneName(b);
    Laws.SplitAt(a, '.', b);
    assert a + ("." + b) == a + "." + b;
    hide ScimPatch.Split;
  }

  lemma LowerPlain(name: string)
    requires Laws.IsPlain(name)
    ensures Laws.IsPlain(ToLower(name))
  {
    var lower := ToLower(name);
    forall c | c in {'.', '[', ']'} ensures c !in lower {
      forall i | 0 <= i < |lower| ensures lower[i] != c {
        assert name[i] != c;
      }
    }
  }

  lemma PathCell(db: Database, names: string)
    ensures ExtractedCell(db, "$." + names) == JsonCell(Lookup(db.row.data, ScimPatch.Split(names, '.')), db.json)
  {
    assert ("$." + names)[2..] == names;
    hide ScimPatch.Split;
    hide JsonCell;
  }

  /** What the database reads for an attribute that is no column. */
  lemma PathAttribute(db: Database, p: AttrPath)
    requires IsNamed(p) && !IsMapped(p)
    ensures var sub := if ToLower(p.attribute) == "meta" then ToLower(p.subAttr) else p.subAttr;
            var name := if ToLower(p.attribute) == "meta" then "meta" else p.attribute;
            && AttrToColumn(p).JsonPath?
            && ColumnCell(db, AttrToColumn(p))
               == JsonCell(Lookup(db.row.data, if sub == "" then [name] else [name, sub]), db.json)
  {
    hide ExtractedCell;
    hide JsonCell;
    hide Lookup;
    hide ScimPatch.Split;
    if ToLower(p.attribute) == "meta" {
      var sub := ToLower(p.subAttr);
      LowerPlain(p.subAttr);
      hide ToLower;
      assert Laws.IsPlain("meta");
      TwoNames("meta", sub);
      assert "$.meta." + sub == "$." + ("meta" + "." + sub);
      PathCell(db, "meta" + "." + sub);
    } else {
      hide ToLower;
      if p.subAttr == "" {
        OneName(p.attribute);
        assert p.attribute + "" == p.attribute;
        PathCell(db, p.attribute);
      } else {
        TwoNames(p.attribute, p.subAttr);
        assert p.attribute + ("." + p.subAttr) == p.attribute + "." + p.subAttr;
        PathCell(db, p.attribute + "." + p.subAttr);
      }
    }
  }

  /** The column a mapped attribute is translated to holds the attribute. */
  lemma MappedAttribute(db: Database, p: AttrPath)
    requires IsMapped(p)
    ensures ColumnCell(db, AttrToColumn(p)) == AttributeCell(db, p)
  {
    hide ToLower;
    hide Lookup;
    hide JsonCell;
  }

  /** The translated column holds the attribute, when its case is kept. */
  lemma ColumnHoldsAttribute(db: Database, p: AttrPath)
    requires IsNamed(p) && KeepsCase(p)
    ensures ColumnCell(db, AttrToColumn(p)) == AttributeCell(db, p)
  {
    if IsMapped(p) {
      MappedAttribute(db, p);
    } else {
      PathAttribute(db, p);
      hide ToLower;
      hide Lookup;
      hide JsonCell;
      hide AttrToColumn;
      hide ColumnCell;
    }
  }

  const NO_CELLS := Stored(NullCell, NullCell, NullCell, NullCell, NullCell, NullCell, map[])

  /** A resource with just one sub-attribute of `meta`. */
  function MetaOnly(sub: string): Database {
    Database(NO_CELLS.(data := map["meta" := JObject(map[sub := JString("x")])]), (_, _) => false, _ => "")
  }

  /** The translated column holds the attribute in every stored resource exactly when its case is kept. */
  lemma ReadsAttributeExactly(p: AttrPath)
    requires IsNamed(p)
    ensures (forall db :: ColumnCell(db, AttrToColumn(p)) == AttributeCell(db, p)) <==> KeepsCase(p)
  {
    if KeepsCase(p) {
      forall db ensures ColumnCell(db, AttrToColumn(p)) == AttributeCell(db, p) {
        ColumnHoldsAttribute(db, p);
      }
    } else {
      var db := MetaOnly(p.subAttr);
      PathAttribute(db, p);
      MetaOnlyHolds(p.subAttr, ToLower(p.subAttr));
      hide ToLower;
      hide Lookup;
      hide AttrToColumn;
      hide ColumnCell;
      assert AttributeCell(db, p) == TextCell("x");
    }
  }

  lemma MetaOnlyHolds(sub: string, other: string)
    requires sub != other
    ensures Lookup(MetaOnly(sub).row.data, ["meta", sub]) == JString("x")
    ensures Lookup(MetaOnly(sub).row.data, ["meta", other]) == JNull
  {
    assert ["meta", sub][1..] == [sub] && ["meta", other][1..] == [other];
  }

  /** So the type of a resource, which is declared as `resourceType`, is never found. */
  lemma ResourceTypeIsNotRead()
    ensures var p := AttrPath("", "meta", "resourceType", None); IsNamed(p) && !KeepsCase(p)
  {
    var sub := "resourceType";
    assert ToLower("meta") == "meta";
    assert ToLower(sub)[8] == 't' && sub[8] == 'T' && |ToLower(sub)| == 12;
    hide ToLower;
  }

  // ------------------------------------------------------------------ the clause

  /** Patterns mean containment, prefix and suffix only for values without wildcards. */
  predicate HasPlainPattern(cmp: CompareOp, v: Value) {
    cmp in {CoOp, SwOp, EwOp} ==> !HasWildcard(ValueText(v))
  }

  /** The operator and parameter a comparison is translated to decide what it asks. */
  lemma OperatorAnswers(c: Cell, cmp: CompareOp, v: Value, below: (Cell, Cell) -> bool)
    requires IsOrder(below) && HasPlainPattern(cmp, v)
    ensures var answer := SqlAnswer(c, CompareSql(cmp, v).0, BoundCell(CompareSql(cmp, v).1), below);
            var decided := c != NullCell && (v != Null || cmp in {CoOp, SwOp, EwOp});
            && (answer.True? <==> decided && Satisfies(c, cmp, v, below))
            && (answer.False? <==> decided && !Satisfies(c, cmp, v, below))
  {
    var text, value := CellText(c), ValueText(v);
    match cmp
    case CoOp => LikeContains(text, value);
    case SwOp => LikePrefix(text, value);
    case EwOp => LikeSuffix(text, value);
    case _ =>
      assert below(c, ValueCell(v)) <==> c != ValueCell(v) && !below(ValueCell(v), c);
    hide Like;
    hide Contains;
    hide HasPrefix;
    hide HasSuffix;
    hide ValueText;
    hide CellText;
  }

  /** Every name can be read from the database as it was meant, and every pattern means what it says. */
  predicate IsAnswerable(t: FilterNode) {
    match t
    case Present(path) => IsNamed(path) && KeepsCase(path)
    case Compare(path, cmp, v) => IsNamed(path) && KeepsCase(path) && HasPlainPattern(cmp, v)
    case Logic(l, _, r) => IsAnswerable(l) && IsAnswerable(r)
    case Negation(inner) => IsAnswerable(inner)
  }

  lemma PresenceAnswers(db: Database, c: SqlColumn)
    ensures var truth := Both(RowOf(db).notNull(c), RowOf(db).notEmpty(c));
            var there := ColumnCell(db, c) != NullCell && ColumnCell(db, c) != TextCell("");
            truth == Known(there)
  {
    hide ColumnCell;
  }

  /** The truth of a filter on a row is what the filter asks of the resource. */
  lemma {:induction false} FilterAnswers(t: FilterNode, db: Database)
    requires IsOrder(db.below) && IsAnswerable(t)
    ensures EvalFilter(t, RowOf(db)).True? <==> Answers(t, db, true)
    ensures EvalFilter(t, RowOf(db)).False? <==> Answers(t, db, false)
  {
    hide AttributeCell;
    hide AttrToColumn;
    hide ColumnCell;
    hide IsNamed;
    hide KeepsCase;
    hide Satisfies;
    hide SqlAnswer;
    hide HasPlainPattern;
    hide IsOrder;
    hide CompareSql;
    match t
    case Compare(path, cmp, v) =>
      ColumnHoldsAttribute(db, path);
      OperatorAnswers(AttributeCell(db, path), cmp, v, db.below);
    case Present(path) =>
      ColumnHoldsAttribute(db, path);
      PresenceAnswers(db, AttrToColumn(path));
    case Logic(l, _, r) => FilterAnswers(l, db); FilterAnswers(r, db);
    case Negation(inner) => FilterAnswers(inner, db);
  }

  /**
   * The clause the database reads from the emitted text, evaluated with the bound parameters,
   * selects a stored resource exactly when the resource matches the filter, and rejects it
   * exactly when it certainly does not: for all operators, `and`, `or`, `not`, and every attribute.
   */
  lemma ClauseMeansFilter(t: FilterNode, db: Database)
    requires IsOrder(db.below) && IsAnswerable(t) && WrittenCleanly(t)
    ensures ReadOr(SqlText(t), 0).Read? && ReadOr(SqlText(t), 0).rest == ""
    ensures EvalSql(ReadOr(SqlText(t), 0).expr, Params(t), RowOf(db)).True? <==> Answers(t, db, true)
    ensures EvalSql(ReadOr(SqlText(t), 0).expr, Params(t), RowOf(db)).False? <==> Answers(t, db, false)
  {
    hide *;
    TranslationPreservesMeaning(t, RowOf(db));
    FilterAnswers(t, db);
  }

  /** Below a list nothing is found: no comparison with a sub-attribute of `emails`, say, selects anyone. */
  lemma ListsAreNotSearched(db: Database, p: AttrPath, cmp: CompareOp, v: Value)
    requires IsNamed(p) && !IsMapped(p) && ToLower(p.attribute) != "meta"
    requires p.subAttr != "" && Get(db.row.data, p.attribute).JArray?
    ensures EvalFilter(Compare(p, cmp, v), RowOf(db)).Unknown? && EvalFilter(Present(p), RowOf(db)).False?
  {
    PathAttribute(db, p);
    assert [p.attribute, p.subAttr][0] == p.attribute;
    assert Lookup(db.row.data, [p.attribute, p.subAttr]) == JNull;
    hide ToLower;
    hide AttrToColumn;
    hide ColumnCell;
    hide CompareSql;
    hide Lookup;
  }

  /** The filter without the value filters of its paths. */
  function WithoutValueFilters(t: FilterNode): FilterNode {
    match t
    case Present(path) => Present(path.(valuePath := None))
    case Compare(path, cmp, v) => Compare(path.(valuePath := None), cmp, v)
    case Logic(l, op, r) => Logic(WithoutValueFilters(l), op, WithoutValueFilters(r))
    case Negation(inner) => Negation(WithoutValueFilters(inner))
  }

  /** Value filters are not translated. */
  lemma {:induction false} ValueFiltersAreIgnored(t: FilterNode)
    ensures SqlText(WithoutValueFilters(t)) == SqlText(t) && Params(WithoutValueFilters(t)) == Params(t)
  {
    hide ColumnText;
    hide CompareSql;
    hide OperatorText;
    hide JoinText;
    match t
    case Present(path) => SameColumn(path);
    case Compare(path, _, _) => SameColumn(path);
    case Logic(l, _, r) => ValueFiltersAreIgnored(l); ValueFiltersAreIgnored(r);
    case Negation(inner) => ValueFiltersAreIgnored(inner);
  }

  lemma SameColumn(p: AttrPath)
    ensures AttrToColumn(p.(valuePath := None)) == AttrToColumn(p)
  {
  }
}
