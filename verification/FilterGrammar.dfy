/** What the filter parser computes, as functions on the tokens that are left before EOF. */
module FilterGrammar {
  import opened Wrappers
  import opened FilterSyntax

  datatype Expectation =
    | OpenParenAfterNot
    | CloseParen
    | AttributeName
    | SubAttributeName
    | CloseBracket
    | ComparisonOperator
    | ComparisonValue

  datatype ParseError = Expected(what: Expectation, got: Token)

  /** A failure-compatible type: the value read and the tokens after it, or the error. */
  datatype Parsed<+T> = Success(value: T, rest: seq<Token>) | Failure(error: ParseError) {
    predicate IsFailure() {
      Failure?
    }

    function PropagateFailure<U>(): Parsed<U>
      requires Failure?
    {
      Failure(error)
    }

    function Extract(): (T, seq<Token>)
      requires Success?
    {
      (value, rest)
    }
  }

  function Current(ts: seq<Token>): Token {
    if ts == [] then EOF_TOKEN else ts[0]
  }

  function Advance(ts: seq<Token>): seq<Token> {
    if ts == [] then [] else ts[1..]
  }

  function Fail<T>(what: Expectation, ts: seq<Token>): Parsed<T> {
    Failure(Expected(what, Current(ts)))
  }

  /** The binary operator in front, if there is one. */
  function LogicAhead(ts: seq<Token>): Option<LogicOp> {
    match Current(ts).kind
    case And => Some(AndOp)
    case Or => Some(OrOp)
    case _ => None
  }

  function ParseExpression(ts: seq<Token>, precedence: nat): (r: Parsed<FilterNode>)
    ensures r.Success? ==> |r.rest| < |ts|
    decreases |ts|, 4
  {
    var (left, rest) :- ParseOperand(ts);
    ParseBinary(left, rest, precedence)
  }

  function ParseOperand(ts: seq<Token>): (r: Parsed<FilterNode>)
    ensures r.Success? ==> |r.rest| < |ts|
    decreases |ts|, 3
  {
    if Current(ts).kind == Not then
      if Current(Advance(ts)).kind != LParen then Fail(OpenParenAfterNot, Advance(ts))
      else
        var (inner, rest) :- ParseExpression(Advance(Advance(ts)), PREC_LOWEST);
        if Current(rest).kind != RParen then Fail(CloseParen, rest)
        else Success(Negation(inner), Advance(rest))
    else if Current(ts).kind == LParen then
      var (inner, rest) :- ParseExpression(Advance(ts), PREC_LOWEST);
      if Current(rest).kind != RParen then Fail(CloseParen, rest)
      else Success(inner, Advance(rest))
    else
      ParseAttrExpr(ts)
  }

  /** Extends `left` by the operators that bind tighter than `precedence`. */
  function ParseBinary(left: FilterNode, ts: seq<Token>, precedence: nat): (r: Parsed<FilterNode>)
    ensures r.Success? ==> |r.rest| <= |ts|
    decreases |ts|, 0
  {
    match LogicAhead(ts)
    case None => Success(left, ts)
    case Some(op) =>
      if Precedence(op) <= precedence then Success(left, ts)
      else
        var (right, rest) :- ParseExpression(Advance(ts), Precedence(op));
        ParseBinary(Logic(left, op, right), rest, precedence)
  }

  function ParseAttrExpr(ts: seq<Token>): (r: Parsed<FilterNode>)
    ensures r.Success? ==> |r.rest| < |ts|
    decreases |ts|, 2
  {
    var (path, rest) :- ParseAttrPath(ts);
    if Current(rest).kind == Pr then Success(Present(path), Advance(rest))
    else
      var (cmp, rest) :- ParseCompareOp(rest);
      var (value, rest) :- ParseValue(rest);
      Success(Compare(path, cmp, value), rest)
  }

  function ParseAttrPath(ts: seq<Token>): (r: Parsed<AttrPath>)
    ensures r.Success? ==> |r.rest| < |ts|
    decreases |ts|, 1
  {
    if Current(ts).kind != Ident then Fail(AttributeName, ts)
    else
      var (schema, attribute, rest) := SplitName(ts[0].value, ts[1..]);
      var (subAttr, rest) :- ParseSubAttr("", rest);
      ParseValuePath(AttrPath(schema, attribute, subAttr, None), rest)
  }

  /** The bracketed value filter of a path, if there is one, and the sub-attribute after it. */
  function ParseValuePath(path: AttrPath, ts: seq<Token>): (r: Parsed<AttrPath>)
    ensures r.Success? ==> |r.rest| <= |ts|
    decreases |ts|, 0
  {
    if Current(ts).kind != LBracket then Success(path, ts)
    else
      var (filter, rest) :- ParseExpression(Advance(ts), PREC_LOWEST);
      if Current(rest).kind != RBracket then Fail(CloseBracket, rest)
      else
        var (subAttr, rest) :- ParseSubAttr(path.subAttr, Advance(rest));
        Success(AttrPath(path.schema, path.attribute, subAttr, Some(filter)), rest)
  }

  /** A schema URN is kept whole as the schema; the attribute is the next identifier, if any. */
  function SplitName(name: string, ts: seq<Token>): (r: (string, string, seq<Token>))
    ensures |r.2| <= |ts|
  {
    if !IsSchemaName(name) then ("", name, ts)
    else if Current(ts).kind == Ident then (name, ts[0].value, ts[1..])
    else (name, "", ts)
  }

  function ParseSubAttr(subAttr: string, ts: seq<Token>): (r: Parsed<string>)
    ensures r.Success? ==> |r.rest| <= |ts|
  {
    if Current(ts).kind != Dot then Success(subAttr, ts)
    else if Current(Advance(ts)).kind != Ident then Fail(SubAttributeName, Advance(ts))
    else Success(Current(Advance(ts)).value, Advance(Advance(ts)))
  }

  function ParseCompareOp(ts: seq<Token>): (r: Parsed<CompareOp>)
    ensures r.Success? ==> |r.rest| < |ts|
  {
    match Current(ts).kind
    case Eq => Success(EqOp, Advance(ts))
    case Ne => Success(NeOp, Advance(ts))
    case Co => Success(CoOp, Advance(ts))
    case Sw => Success(SwOp, Advance(ts))
    case Ew => Success(EwOp, Advance(ts))
    case Gt => Success(GtOp, Advance(ts))
    case Lt => Success(LtOp, Advance(ts))
    case Ge => Success(GeOp, Advance(ts))
    case Le => Success(LeOp, Advance(ts))
    case _ => Fail(ComparisonOperator, ts)
  }

  function ParseValue(ts: seq<Token>): (r: Parsed<Value>)
    ensures r.Success? ==> |r.rest| < |ts|
  {
    match Current(ts).kind
    case StringLit => Success(Str(ts[0].value), Advance(ts))
    case Number => Success(NumberValue(ts[0].value), Advance(ts))
    case Boolean => Success(Bool(ts[0].value == "true"), Advance(ts))
    case NullLit => Success(Null, Advance(ts))
    case _ => Fail(ComparisonValue, ts)
  }

  /** No tokens means no filter; what follows a complete expression is not looked at. */
  function ParseTokens(ts: seq<Token>): (r: Result<Option<FilterNode>, ParseError>) {
    if ts == [] then Ok(None)
    else
      match ParseExpression(ts, PREC_LOWEST)
      case Success(t, _) => Ok(Some(t))
      case Failure(e) => Err(e)
  }

  /** Every tree the parser returns is well formed. */
  lemma {:induction false} ExpressionWellFormed(ts: seq<Token>, precedence: nat)
    ensures var r := ParseExpression(ts, precedence); r.Success? ==> WellFormed(r.value)
    decreases |ts|, 4
  {
    OperandWellFormed(ts);
    var r := ParseOperand(ts);
    if r.Success? {
      BinaryWellFormed(r.value, r.rest, precedence);
    }
  }

  lemma {:induction false} OperandWellFormed(ts: seq<Token>)
    ensures var r := ParseOperand(ts); r.Success? ==> WellFormed(r.value)
    decreases |ts|, 3
  {
    hide ParseExpression;
    hide ParseAttrExpr;
    if Current(ts).kind == Not {
      if Current(Advance(ts)).kind == LParen {
        ExpressionWellFormed(Advance(Advance(ts)), PREC_LOWEST);
      }
    } else if Current(ts).kind == LParen {
      ExpressionWellFormed(Advance(ts), PREC_LOWEST);
    } else {
      AttrExprWellFormed(ts);
    }
  }

  lemma {:induction false} AttrExprWellFormed(ts: seq<Token>)
    ensures var r := ParseAttrExpr(ts); r.Success? ==> WellFormed(r.value)
    decreases |ts|, 2
  {
    hide ParseAttrPath;
    AttrPathWellFormed(ts);
  }

  lemma {:induction false} BinaryWellFormed(left: FilterNode, ts: seq<Token>, precedence: nat)
    requires WellFormed(left)
    ensures var r := ParseBinary(left, ts, precedence); r.Success? ==> WellFormed(r.value)
    decreases |ts|, 0
  {
    var ahead := LogicAhead(ts);
    if ahead.Some? && Precedence(ahead.value) > precedence {
      ExpressionWellFormed(Advance(ts), Precedence(ahead.value));
      var right := ParseExpression(Advance(ts), Precedence(ahead.value));
      if right.Success? {
        BinaryWellFormed(Logic(left, ahead.value, right.value), right.rest, precedence);
      }
    }
  }

  lemma {:induction false} AttrPathWellFormed(ts: seq<Token>)
    ensures var r := ParseAttrPath(ts); r.Success? ==> WellFormedPath(r.value)
    decreases |ts|, 1
  {
    if Current(ts).kind == Ident {
      var (_, _, rest) := SplitName(ts[0].value, ts[1..]);
      var sub := ParseSubAttr("", rest);
      if sub.Success? && Current(sub.rest).kind == LBracket {
        ExpressionWellFormed(Advance(sub.rest), PREC_LOWEST);
      }
    }
  }
}
