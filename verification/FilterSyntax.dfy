/** Tokens and syntax trees of the SCIM filter language (section 3.4.2.2 of RFC 7644). */
module FilterSyntax {
  import opened Wrappers
  import Decimal

  datatype TokenKind =
    | Eof
    | Ident
    | StringLit
    | Number
    | Boolean
    | NullLit
    | LParen
    | RParen
    | LBracket
    | RBracket
    | Dot
    | And
    | Or
    | Not
    | Eq
    | Ne
    | Co
    | Sw
    | Ew
    | Gt
    | Lt
    | Ge
    | Le
    | Pr

  datatype Token = Token(kind: TokenKind, value: string)

  const EOF_TOKEN := Token(Eof, "")

  datatype CompareOp = EqOp | NeOp | CoOp | SwOp | EwOp | GtOp | LtOp | GeOp | LeOp

  datatype LogicOp = AndOp | OrOp

  /** A comparison value. A float64 is represented by the literal it was read from. */
  datatype Value =
    | Str(text: string)
    | Int(i: int)
    | Float(literal: string)
    | Bool(b: bool)
    | Null

  /** `schema` and `subAttr` are empty when absent. */
  datatype AttrPath = AttrPath(schema: string, attribute: string, subAttr: string, valuePath: Option<FilterNode>)

  /** `Present` is an attribute expression whose operator is `pr`. */
  datatype FilterNode =
    | Compare(path: AttrPath, cmp: CompareOp, value: Value)
    | Present(path: AttrPath)
    | Logic(left: FilterNode, op: LogicOp, right: FilterNode)
    | Negation(inner: FilterNode)

  const PREC_LOWEST: nat := 0
  const PREC_OR: nat := 1
  const PREC_AND: nat := 2

  function Precedence(op: LogicOp): nat {
    match op
    case AndOp => PREC_AND
    case OrOp => PREC_OR
  }

  /** The name is read as a schema URN: it has a colon and the part before it starts with "urn". */
  predicate IsSchemaName(name: string) {
    ':' in name && "urn" <= name
  }

  /** A number text without its minus sign. */
  function Unsigned(text: string): string {
    if text != "" && text[0] == '-' then text[1..] else text
  }

  /** Digits, at least one, and at most one point. */
  predicate IsPointed(digits: string) {
    && (exists i :: 0 <= i < |digits| && Decimal.IsDigit(digits[i]))
    && (forall i :: 0 <= i < |digits| ==> Decimal.IsDigit(digits[i]) || digits[i] == '.')
    && (forall i, j :: 0 <= i < j < |digits| ==> digits[i] != '.' || digits[j] != '.')
  }

  /** The digits-and-points literals `strconv.ParseFloat` accepts. */
  predicate IsFloatLiteral(s: string) {
    IsPointed(Unsigned(s))
  }

  /** The value a number token denotes: an int64, else a float64, else the text itself. */
  function NumberValue(text: string): Value {
    match Decimal.ParseInt64(text)
    case Some(i) => Int(i)
    case None => if IsFloatLiteral(text) then Float(text) else Str(text)
  }

  /** What holds of the names and values of every tree the parser builds. */
  predicate WellFormed(t: FilterNode) {
    match t
    case Compare(path, _, value) => WellFormedPath(path) && WellFormedValue(value)
    case Present(path) => WellFormedPath(path)
    case Logic(l, _, r) => WellFormed(l) && WellFormed(r)
    case Negation(inner) => WellFormed(inner)
  }

  predicate WellFormedPath(p: AttrPath) {
    && (if p.schema == "" then !IsSchemaName(p.attribute) else IsSchemaName(p.schema))
    && (p.valuePath.Some? ==> WellFormed(p.valuePath.value))
  }

  predicate WellFormedValue(v: Value) {
    match v
    case Int(i) => Decimal.IsInt64(i)
    case Float(literal) => NumberValue(literal) == v
    case _ => true
  }

  /** No attribute of the tree, at any depth, carries a schema URN. */
  predicate SchemaFree(t: FilterNode) {
    match t
    case Compare(path, _, _) => SchemaFreePath(path)
    case Present(path) => SchemaFreePath(path)
    case Logic(l, _, r) => SchemaFree(l) && SchemaFree(r)
    case Negation(inner) => SchemaFree(inner)
  }

  predicate SchemaFreePath(p: AttrPath) {
    p.schema == "" && (p.valuePath.Some? ==> SchemaFree(p.valuePath.value))
  }
}
