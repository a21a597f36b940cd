/** Translation of filters to parameterised SQL text, a reader of that text, and its three-valued meaning. */
module FilterSql {
  import opened Wrappers
  import opened FilterSyntax
  import opened FilterLexer
  import Decimal

  datatype SqlCompare = SqlEq | SqlNe | SqlLike | SqlGt | SqlLt | SqlGe | SqlLe

  /** A column of the table, or a value in the JSON document of its `data` column. */
  datatype SqlColumn = Named(name: string) | JsonPath(path: string)

  datatype Param = Exact(value: Value) | Pattern(text: string)

  /** `fmt.Sprintf("%v", value)`; a float is printed as its literal. */
  function ValueText(v: Value): string {
    match v
    case Str(text) => text
    case Int(i) => Decimal.IntText(i)
    case Float(literal) => literal
    case Bool(b) => if b then "true" else "false"
    case Null => "<nil>"
  }

  /** The SQL operator and the bound parameter of a comparison. */
  function CompareSql(cmp: CompareOp, v: Value): (SqlCompare, Param) {
    match cmp
    case EqOp => (SqlEq, Exact(v))
    case NeOp => (SqlNe, Exact(v))
    case CoOp => (SqlLike, Pattern("%" + ValueText(v) + "%"))
    case SwOp => (SqlLike, Pattern(ValueText(v) + "%"))
    case EwOp => (SqlLike, Pattern("%" + ValueText(v)))
    case GtOp => (SqlGt, Exact(v))
    case LtOp => (SqlLt, Exact(v))
    case GeOp => (SqlGe, Exact(v))
    case LeOp => (SqlLe, Exact(v))
  }

  /** The database column or JSON path of an attribute; the value filter of the path plays no part. */
  function AttrToColumn(p: AttrPath): SqlColumn {
    var attr := ToLower(p.attribute);
    var subAttr := ToLower(p.subAttr);
    if attr == "id" then Named("id")
    else if attr == "externalid" then Named("external_id")
    else if attr == "username" then Named("user_name")
    else if attr == "displayname" then Named("display_name")
    else if attr == "meta" then
      if subAttr == "created" then Named("created_at")
      else if subAttr == "lastmodified" then Named("updated_at")
      else JsonPath("$.meta." + subAttr)
    else
      JsonPath("$." + (p.attribute + if p.subAttr == "" then "" else "." + p.subAttr))
  }

  const EXTRACT := "json_extract"

  /** Nothing is escaped in the path. */
  function ColumnText(c: SqlColumn): string {
    match c
    case Named(name) => name
    case JsonPath(path) => EXTRACT + ("(" + ("data" + ("," + (" " + ("'" + (path + ("'" + ")")))))))
  }

  function OperatorText(cmp: SqlCompare): string {
    match cmp
    case SqlEq => "="
    case SqlNe => "!="
    case SqlLike => "LIKE"
    case SqlGt => ">"
    case SqlLt => "<"
    case SqlGe => ">="
    case SqlLe => "<="
  }

  function LogicWord(op: LogicOp): string {
    match op
    case AndOp => "AND"
    case OrOp => "OR"
  }

  function CompareText(c: SqlColumn, cmp: SqlCompare): string {
    ColumnText(c) + (" " + (OperatorText(cmp) + (" " + "?")))
  }

  function NotNullText(c: SqlColumn): string {
    ColumnText(c) + (" " + ("IS" + (" " + ("NOT" + (" " + "NULL")))))
  }

  function NotEmptyText(c: SqlColumn): string {
    ColumnText(c) + (" " + ("!=" + (" " + ("'" + "'"))))
  }

  function JoinText(left: string, op: LogicOp, right: string): string {
    "(" + (left + (" " + (LogicWord(op) + (" " + (right + ")")))))
  }

  /** The clause of a filter; every binary expression and every negated one stands in parentheses. */
  function SqlText(t: FilterNode): string {
    match t
    case Present(path) => JoinText(NotNullText(AttrToColumn(path)), AndOp, NotEmptyText(AttrToColumn(path)))
    case Compare(path, cmp, v) => CompareText(AttrToColumn(path), CompareSql(cmp, v).0)
    case Logic(l, op, r) => JoinText(SqlText(l), op, SqlText(r))
    case Negation(inner) => "NOT" + (" " + ("(" + (SqlText(inner) + ")")))
  }

  /** The parameters of `t`, in the order of its comparisons. */
  function Params(t: FilterNode): seq<Param> {
    match t
    case Present(_) => []
    case Compare(_, cmp, v) => [CompareSql(cmp, v).1]
    case Logic(l, _, r) => Params(l) + Params(r)
    case Negation(inner) => Params(inner)
  }

  class SQLTranslator {
    var params: seq<Param>
    var paramIndex: nat

    constructor ()
      ensures params == [] && paramIndex == 0
    {
      params, paramIndex := [], 0;
    }

    /** No filter gives an empty clause without parameters. */
    method Translate(filter: Option<FilterNode>) returns (sql: string, bound: seq<Param>)
      requires params == [] && paramIndex == 0
      modifies this
      ensures filter.None? ==> sql == "" && bound == []
      ensures filter.Some? ==> sql == SqlText(filter.value) && bound == Params(filter.value)
      ensures paramIndex == |bound|
    {
      if filter.None? {
        return "", [];
      }
      sql := TranslateNode(filter.value);
      bound := params;
    }

    method TranslateNode(node: FilterNode) returns (sql: string)
      modifies this
      ensures sql == SqlText(node)
      ensures params == old(params) + Params(node) && paramIndex == old(paramIndex) + |Params(node)|
    {
      hide AttrToColumn;
      hide CompareSql;
      hide ColumnText;
      hide OperatorText;
      hide JoinText;
      match node
      case Present(path) =>
        var column := AttrToColumn(path);
        sql := JoinText(NotNullText(column), AndOp, NotEmptyText(column));
      case Compare(path, cmp, v) =>
        paramIndex := paramIndex + 1;
        var (operator, param) := CompareSql(cmp, v);
        params := params + [param];
        sql := CompareText(AttrToColumn(path), operator);
      case Logic(l, op, r) =>
        var left := TranslateNode(l);
        var right := TranslateNode(r);
        sql := JoinText(left, op, right);
      case Negation(inner) =>
        var clause := TranslateNode(inner);
        sql := "NOT" + (" " + ("(" + (clause + ")")));
    }
  }

  // ------------------------------------------------------------------ the database's reader

  /** A WHERE clause as the database reads it; `index` counts the placeholders from the left. */
  datatype SqlExpr =
    | CompareParam(column: SqlColumn, cmp: SqlCompare, index: nat)
    | ColumnNotNull(column: SqlColumn)
    | ColumnNotEmpty(column: SqlColumn)
    | SqlAnd(left: SqlExpr, right: SqlExpr)
    | SqlOr(left: SqlExpr, right: SqlExpr)
    | SqlNot(inner: SqlExpr)

  /** The expression read, the text after it and the number of placeholders seen so far. */
  datatype Read = Read(expr: SqlExpr, rest: string, next: nat) | Malformed

  predicate IsBlank(c: char) {
    c == ' ' || c as int in {9, 10, 12, 13}
  }

  function Skip(s: string): (r: string)
    ensures |r| <= |s| && (r != "" ==> !IsBlank(r[0]))
  {
    if s != "" && IsBlank(s[0]) then Skip(s[1..]) else s
  }

  predicate IsWordChar(c: char) {
    'a' <= c <= 'z' || 'A' <= c <= 'Z' || '0' <= c <= '9' || c == '_'
  }

  /** The word at the front of the text after white space, and what follows it. */
  function ReadWord(s: string): (r: (string, string))
    ensures |r.0| + |r.1| <= |s|
  {
    var text := Skip(s);
    var n := SpanLength(text, IsWordChar);
    (text[..n], text[n..])
  }

  /** The text after one expected character. */
  function Expect(s: string, c: char): (r: Option<string>)
    ensures r.Some? ==> |r.value| < |s|
  {
    var text := Skip(s);
    if text != "" && text[0] == c then Some(text[1..]) else None
  }

  /**
   * A string literal from behind its opening quote: a doubled quote stands for one, and the
   * text of a statement ends at a NUL.
   */
  function ReadLiteral(s: string): (r: Option<(string, string)>)
    ensures r.Some? ==> |r.value.1| < |s|
  {
    if s == "" || s[0] == '\0' then None
    else if s[0] != '\'' then Prepend(s[0], ReadLiteral(s[1..]))
    else if |s| > 1 && s[1] == '\'' then Prepend('\'', ReadLiteral(s[2..]))
    else Some(("", s[1..]))
  }

  function Prepend(c: char, r: Option<(string, string)>): Option<(string, string)> {
    match r
    case None => None
    case Some((text, rest)) => Some(([c] + text, rest))
  }

  const RESERVED := {"AND", "OR", "NOT", "IS", "NULL", "LIKE"}

  /** column = name / "json_extract" "(" "data" "," literal ")" */
  function ReadColumn(s: string): (r: Option<(SqlColumn, string)>)
    ensures r.Some? ==> |r.value.1| < |s|
  {
    var (word, rest) := ReadWord(s);
    if word == EXTRACT then ReadPath(rest)
    else if word == "" || word in RESERVED then None
    else Some((Named(word), rest))
  }

  function ReadPath(s: string): (r: Option<(SqlColumn, string)>)
    ensures r.Some? ==> |r.value.1| < |s|
  {
    match Expect(s, '(')
    case None => None
    case Some(inside) =>
      var (word, rest) := ReadWord(inside);
      if word != "data" then None
      else
        match Expect(rest, ',')
        case None => None
        case Some(argument) =>
          match Expect(argument, '\'')
          case None => None
          case Some(literal) => ReadPathLiteral(literal)
  }

  function ReadPathLiteral(s: string): (r: Option<(SqlColumn, string)>)
    ensures r.Some? ==> |r.value.1| < |s|
  {
    match ReadLiteral(s)
    case None => None
    case Some((path, rest)) =>
      match Expect(rest, ')')
      case None => None
      case Some(after) => Some((JsonPath(path), after))
  }

  /** disjunction = conjunction *("OR" conjunction) */
  function ReadOr(s: string, next: nat): (r: Read)
    ensures r.Read? ==> |r.rest| < |s|
    decreases |s|, 5
  {
    match ReadAnd(s, next)
    case Malformed => Malformed
    case Read(e, rest, n) => ReadMoreOr(e, rest, n)
  }

  function ReadMoreOr(left: SqlExpr, s: string, next: nat): (r: Read)
    ensures r.Read? ==> |r.rest| <= |s|
    decreases |s|, 4
  {
    var (word, right) := ReadWord(s);
    if word != "OR" then Read(left, s, next)
    else
      match ReadAnd(right, next)
      case Malformed => Malformed
      case Read(e, rest, n) => ReadMoreOr(SqlOr(left, e), rest, n)
  }

  /** conjunction = unary *("AND" unary) */
  function ReadAnd(s: string, next: nat): (r: Read)
    ensures r.Read? ==> |r.rest| < |s|
    decreases |s|, 3
  {
    match ReadUnary(s, next)
    case Malformed => Malformed
    case Read(e, rest, n) => ReadMoreAnd(e, rest, n)
  }

  function ReadMoreAnd(left: SqlExpr, s: string, next: nat): (r: Read)
    ensures r.Read? ==> |r.rest| <= |s|
    decreases |s|, 2
  {
    var (word, right) := ReadWord(s);
    if word != "AND" then Read(left, s, next)
    else
      match ReadUnary(right, next)
      case Malformed => Malformed
      case Read(e, rest, n) => ReadMoreAnd(SqlAnd(left, e), rest, n)
  }

  /** unary = "NOT" unary / "(" disjunction ")" / column test */
  function ReadUnary(s: string, next: nat): (r: Read)
    ensures r.Read? ==> |r.rest| < |s|
    decreases |s|, 1
  {
    match Expect(s, '(')
    case Some(body) => Closed(ReadOr(body, next))
    case None =>
      var (word, rest) := ReadWord(s);
      if word == "NOT" then Negated(ReadUnary(rest, next)) else ReadComparison(s, next)
  }

  function Negated(r: Read): Read {
    match r
    case Malformed => Malformed
    case Read(e, rest, n) => Read(SqlNot(e), rest, n)
  }

  function Closed(r: Read): (closed: Read)
    ensures closed.Read? ==> r.Read? && |closed.rest| < |r.rest|
  {
    match r
    case Malformed => Malformed
    case Read(e, rest, n) =>
      match Expect(rest, ')')
      case None => Malformed
      case Some(after) => Read(e, after, n)
  }

  function ReadComparison(s: string, next: nat): (r: Read)
    ensures r.Read? ==> |r.rest| < |s|
  {
    match ReadColumn(s)
    case None => Malformed
    case Some((column, rest)) => ReadTest(column, rest, next)
  }

  /** test = operator "?" / "IS" "NOT" "NULL" / "!=" "''" */
  function ReadTest(column: SqlColumn, s: string, next: nat): (r: Read)
    ensures r.Read? ==> |r.rest| <= |s|
  {
    var text := Skip(s);
    if "=" <= text then ReadParam(column, SqlEq, text[1..], next)
    else if "!=" <= text then
      match Expect(text[2..], '\'')
      case Some(literal) => if "'" <= literal then Read(ColumnNotEmpty(column), literal[1..], next) else Malformed
      case None => ReadParam(column, SqlNe, text[2..], next)
    else if ">=" <= text then ReadParam(column, SqlGe, text[2..], next)
    else if "<=" <= text then ReadParam(column, SqlLe, text[2..], next)
    else if ">" <= text then ReadParam(column, SqlGt, text[1..], next)
    else if "<" <= text then ReadParam(column, SqlLt, text[1..], next)
    else ReadWordTest(column, text, next)
  }

  function ReadWordTest(column: SqlColumn, s: string, next: nat): (r: Read)
    ensures r.Read? ==> |r.rest| <= |s|
  {
    var (word, rest) := ReadWord(s);
    if word == "LIKE" then ReadParam(column, SqlLike, rest, next)
    else if word == "IS" && ReadWord(rest).0 == "NOT" && ReadWord(ReadWord(rest).1).0 == "NULL" then
      Read(ColumnNotNull(column), ReadWord(ReadWord(rest).1).1, next)
    else Malformed
  }

  function ReadParam(column: SqlColumn, cmp: SqlCompare, s: string, next: nat): (r: Read)
    ensures r.Read? ==> |r.rest| < |s|
  {
    match Expect(s, '?')
    case None => Malformed
    case Some(rest) => Read(CompareParam(column, cmp, next), rest, next + 1)
  }

  /** The expression a filter stands for, with placeholders numbered from `first`. */
  function SqlOf(t: FilterNode, first: nat): SqlExpr {
    match t
    case Present(path) =>
      SqlAnd(ColumnNotNull(AttrToColumn(path)), ColumnNotEmpty(AttrToColumn(path)))
    case Compare(path, cmp, v) => CompareParam(AttrToColumn(path), CompareSql(cmp, v).0, first)
    case Logic(l, op, r) => Join(SqlOf(l, first), op, SqlOf(r, first + |Params(l)|))
    case Negation(inner) => SqlNot(SqlOf(inner, first))
  }

  function Join(l: SqlExpr, op: LogicOp, r: SqlExpr): SqlExpr {
    match op
    case AndOp => SqlAnd(l, r)
    case OrOp => SqlOr(l, r)
  }

  /** SQL truth: unknown is what a NULL column gives. */
  datatype Truth = True | False | Unknown

  function Both(a: Truth, b: Truth): Truth {
    if a.False? || b.False? then False else if a.True? && b.True? then True else Unknown
  }

  function Either(a: Truth, b: Truth): Truth {
    if a.True? || b.True? then True else if a.False? && b.False? then False else Unknown
  }

  function Opposite(a: Truth): Truth {
    match a
    case True => False
    case False => True
    case Unknown => Unknown
  }

  /** A row: what each test on a column answers. */
  datatype Row = Row(
    compare: (SqlColumn, SqlCompare, Param) -> Truth,
    notNull: SqlColumn -> Truth,
    notEmpty: SqlColumn -> Truth)

  /** Evaluates a clause with the k-th placeholder bound to the k-th parameter. */
  function EvalSql(e: SqlExpr, params: seq<Param>, row: Row): Truth {
    match e
    case CompareParam(column, cmp, index) =>
      if index < |params| then row.compare(column, cmp, params[index]) else Unknown
    case ColumnNotNull(column) => row.notNull(column)
    case ColumnNotEmpty(column) => row.notEmpty(column)
    case SqlAnd(l, r) => Both(EvalSql(l, params, row), EvalSql(r, params, row))
    case SqlOr(l, r) => Either(EvalSql(l, params, row), EvalSql(r, params, row))
    case SqlNot(inner) => Opposite(EvalSql(inner, params, row))
  }

  /** The truth of one attribute expression on a row. */
  function AtomTruth(t: FilterNode, row: Row): Truth
    requires t.Compare? || t.Present?
  {
    match t
    case Compare(path, cmp, v) => row.compare(AttrToColumn(path), CompareSql(cmp, v).0, CompareSql(cmp, v).1)
    case Present(path) => Both(row.notNull(AttrToColumn(path)), row.notEmpty(AttrToColumn(path)))
  }

  /** The three-valued meaning of a filter on a row. */
  function EvalFilter(t: FilterNode, row: Row): Truth {
    match t
    case Compare(_, _, _) => AtomTruth(t, row)
    case Present(_) => AtomTruth(t, row)
    case Logic(l, AndOp, r) => Both(EvalFilter(l, row), EvalFilter(r, row))
    case Logic(l, OrOp, r) => Either(EvalFilter(l, row), EvalFilter(r, row))
    case Negation(inner) => Opposite(EvalFilter(inner, row))
  }

  lemma {:induction false} EvalSqlOf(t: FilterNode, before: seq<Param>, after: seq<Param>, row: Row)
    ensures EvalSql(SqlOf(t, |before|), before + Params(t) + after, row) == EvalFilter(t, row)
  {
    match t
    case Compare(_, cmp, v) =>
      assert (before + Params(t) + after)[|before|] == CompareSql(cmp, v).1;
    case Present(_) =>
    case Logic(l, op, r) =>
      EvalSqlOf(l, before, Params(r) + after, row);
      assert before + Params(t) + after == before + Params(l) + (Params(r) + after);
      EvalSqlOf(r, before + Params(l), after, row);
      assert before + Params(t) + after == (before + Params(l)) + Params(r) + after;
    case Negation(inner) =>
      EvalSqlOf(inner, before, after, row);
  }
}
