/** The printed form of a filter tree, as tokens, and how the parser reads it back. */
module FilterPrinter {
  import opened Wrappers
  import opened FilterSyntax
  import opened FilterGrammar
  import Decimal

  /** `Full` is the printer of the program; `Minimal` keeps only the parentheses that precedence needs. */
  datatype Parens = Full | Minimal

  function LogicToken(op: LogicOp): Token {
    match op
    case AndOp => Token(And, "and")
    case OrOp => Token(Or, "or")
  }

  function CompareToken(op: CompareOp): Token {
    match op
    case EqOp => Token(Eq, "eq")
    case NeOp => Token(Ne, "ne")
    case CoOp => Token(Co, "co")
    case SwOp => Token(Sw, "sw")
    case EwOp => Token(Ew, "ew")
    case GtOp => Token(Gt, "gt")
    case LtOp => Token(Lt, "lt")
    case GeOp => Token(Ge, "ge")
    case LeOp => Token(Le, "le")
  }

  function ValueToken(v: Value): Token {
    match v
    case Str(text) => Token(StringLit, text)
    case Int(i) => Token(Number, Decimal.IntText(i))
    case Float(literal) => Token(Number, literal)
    case Bool(b) => Token(Boolean, if b then "true" else "false")
    case Null => Token(NullLit, "null")
  }

  const OPEN := Token(LParen, "(")
  const CLOSE := Token(RParen, ")")

  /** Whether `t` is printed between parentheses where only operators tighter than `floor` may stand bare. */
  predicate Parenthesized(t: FilterNode, floor: nat, style: Parens) {
    t.Logic? && (style.Full? || Precedence(t.op) <= floor)
  }

  /** The tokens of `t` followed by the tokens `k`. */
  function Print(t: FilterNode, floor: nat, style: Parens, k: seq<Token>): seq<Token>
    decreases t, 1
  {
    if Parenthesized(t, floor, style) then Cons(OPEN, PrintBare(t, style, Cons(CLOSE, k)))
    else PrintBare(t, style, k)
  }

  function PrintBare(t: FilterNode, style: Parens, k: seq<Token>): seq<Token>
    decreases t, 0
  {
    match t
    case Compare(path, cmp, value) =>
      PrintPath(path, style, Cons(CompareToken(cmp), Cons(ValueToken(value), k)))
    case Present(path) =>
      PrintPath(path, style, Cons(Token(Pr, "pr"), k))
    case Logic(l, op, r) =>
      Print(l, Precedence(op) - 1, style, Cons(LogicToken(op), Print(r, Precedence(op), style, k)))
    case Negation(inner) =>
      Cons(Token(Not, "not"), Cons(OPEN, Print(inner, PREC_LOWEST, style, Cons(CLOSE, k))))
  }

  function PrintedName(p: AttrPath): string {
    if p.schema == "" then p.attribute else p.schema + ":" + p.attribute
  }

  function PrintPath(p: AttrPath, style: Parens, k: seq<Token>): seq<Token>
    decreases p, 1
  {
    var brackets := PrintBrackets(p, style, k);
    Cons(Token(Ident, PrintedName(p)),
         if p.subAttr == "" then brackets else Cons(Token(Dot, "."), Cons(Token(Ident, p.subAttr), brackets)))
  }

  function PrintBrackets(p: AttrPath, style: Parens, k: seq<Token>): seq<Token>
    decreases p, 0
  {
    match p.valuePath
    case None => k
    case Some(filter) =>
      Cons(Token(LBracket, "["), Print(filter, PREC_LOWEST, style, Cons(Token(RBracket, "]"), k)))
  }

  /** The tree that reading the printed form of `t` gives. */
  function Reread(t: FilterNode): FilterNode {
    match t
    case Compare(path, cmp, value) => Compare(RereadPath(path), cmp, value)
    case Present(path) => Present(RereadPath(path))
    case Logic(l, op, r) => Logic(Reread(l), op, Reread(r))
    case Negation(inner) => Negation(Reread(inner))
  }

  /** A schema swallows the attribute printed after it. */
  function RereadPath(p: AttrPath): AttrPath {
    var filter := if p.valuePath.Some? then Some(Reread(p.valuePath.value)) else None;
    if p.schema == "" then AttrPath("", p.attribute, p.subAttr, filter)
    else AttrPath(PrintedName(p), "", p.subAttr, filter)
  }

  /** Re-reading changes a tree exactly when some attribute carries a schema. */
  lemma {:induction false} RereadIsIdentity(t: FilterNode)
    ensures Reread(t) == t <==> SchemaFree(t)
    decreases t
  {
    match t
    case Compare(path, _, _) => RereadPathIsIdentity(path);
    case Present(path) => RereadPathIsIdentity(path);
    case Logic(l, _, r) => RereadIsIdentity(l); RereadIsIdentity(r);
    case Negation(inner) => RereadIsIdentity(inner);
  }

  lemma {:induction false} RereadPathIsIdentity(p: AttrPath)
    ensures RereadPath(p) == p <==> SchemaFreePath(p)
    decreases p
  {
    if p.valuePath.Some? {
      RereadIsIdentity(p.valuePath.value);
    }
    if p.schema != "" {
      assert |PrintedName(p)| > |p.schema|;
    }
  }

  /** The tightness of the binary operator in front of `k`, 0 when there is none. */
  function Pull(k: seq<Token>): nat {
    match LogicAhead(k)
    case None => PREC_LOWEST
    case Some(op) => Precedence(op)
  }

  /** The operator in front of `k` does not reach into a bare `t`. */
  predicate Closes(t: FilterNode, k: seq<Token>) {
    t.Logic? ==> Pull(k) <= Precedence(t.op)
  }

  /**
   * Reading a printed tree gives the re-read tree and goes on with what follows, in both
   * styles and at every precedence the printed form allows for.
   */
  lemma {:induction false} ParsePrint(t: FilterNode, floor: nat, style: Parens, k: seq<Token>, precedence: nat)
    requires WellFormed(t) && precedence <= floor
    requires Parenthesized(t, floor, style) || Closes(t, k)
    ensures ParseExpression(Print(t, floor, style, k), precedence) == ParseBinary(Reread(t), k, precedence)
    decreases t, 2
  {
    if Parenthesized(t, floor, style) {
      ParsePrintBare(t, style, Cons(CLOSE, k), PREC_LOWEST);
      assert ParseOperand(Print(t, floor, style, k)) == Success(Reread(t), k);
    } else {
      ParsePrintBare(t, style, k, precedence);
    }
  }

  lemma {:induction false} ParsePrintBare(t: FilterNode, style: Parens, k: seq<Token>, precedence: nat)
    requires WellFormed(t) && Closes(t, k)
    requires t.Logic? ==> precedence < Precedence(t.op)
    ensures ParseExpression(PrintBare(t, style, k), precedence) == ParseBinary(Reread(t), k, precedence)
    decreases t, 1
  {
    match t
    case Compare(_, _, _) => ParsePrintCompare(t, style, k);
    case Present(_) => ParsePrintPresent(t, style, k);
    case Negation(inner) => ParsePrint(inner, PREC_LOWEST, style, Cons(CLOSE, k), PREC_LOWEST);
    case Logic(_, _, _) => ParsePrintLogic(t, style, k, precedence);
  }

  lemma {:induction false} ParsePrintLogic(t: FilterNode, style: Parens, k: seq<Token>, precedence: nat)
    requires t.Logic? && WellFormed(t) && Closes(t, k) && precedence < Precedence(t.op)
    ensures ParseExpression(PrintBare(t, style, k), precedence) == ParseBinary(Reread(t), k, precedence)
    decreases t, 0
  {
    hide ParseExpression;
    hide ParseOperand;
    var Logic(l, op, r) := t;
    var p := Precedence(op);
    var right := Print(r, p, style, k);
    var rest := Cons(LogicToken(op), right);
    assert PrintBare(t, style, k) == Print(l, p - 1, style, rest);
    hide Print;
    hide PrintBare;
    ParsePrint(l, p - 1, style, rest, precedence);
    ParsePrint(r, p, style, k, p);
    assert LogicAhead(rest) == Some(op);
    assert ParseBinary(Reread(r), k, p) == Success(Reread(r), k);
    assert ParseBinary(Reread(l), rest, precedence) == ParseBinary(Reread(t), k, precedence);
  }

  lemma {:induction false} ParsePrintCompare(t: FilterNode, style: Parens, k: seq<Token>)
    requires t.Compare? && WellFormed(t)
    ensures ParseOperand(PrintBare(t, style, k)) == Success(Reread(t), k)
    decreases t.path, 3
  {
    var value := Cons(ValueToken(t.value), k);
    var operands := Cons(CompareToken(t.cmp), value);
    ParsePrintCompareOp(t.cmp, value);
    ParsePrintValue(t.value, k);
    ParsePrintPath(t.path, style, operands);
    assert ParseAttrExpr(PrintPath(t.path, style, operands)) == Success(Reread(t), k);
  }

  lemma {:induction false} ParsePrintPresent(t: FilterNode, style: Parens, k: seq<Token>)
    requires t.Present? && WellFormed(t)
    ensures ParseOperand(PrintBare(t, style, k)) == Success(Reread(t), k)
    decreases t.path, 3
  {
    ParsePrintPath(t.path, style, Cons(Token(Pr, "pr"), k));
    assert ParseAttrExpr(PrintBare(t, style, k)) == Success(Reread(t), k);
  }

  lemma ParsePrintCompareOp(op: CompareOp, k: seq<Token>)
    ensures var ts := Cons(CompareToken(op), k);
            ParseCompareOp(ts) == Success(op, k) && Current(ts).kind !in {Ident, Dot, LBracket, Pr}
  {
  }

  lemma {:induction false} ParsePrintPath(p: AttrPath, style: Parens, k: seq<Token>)
    requires WellFormedPath(p)
    requires Current(k).kind !in {Ident, Dot, LBracket}
    ensures ParseAttrPath(PrintPath(p, style, k)) == Success(RereadPath(p), k)
    decreases p, 2
  {
    PrintedNameIsSchema(p);
    var head := RereadPath(p).(valuePath := None);
    var brackets := PrintBrackets(p, style, k);
    ParsePrintBrackets(p, style, k);
    assert p.subAttr != "" ==>
      ParseSubAttr("", Cons(Token(Dot, "."), Cons(Token(Ident, p.subAttr), brackets))) == Success(p.subAttr, brackets);
    assert ParseAttrPath(PrintPath(p, style, k)) == ParseValuePath(head, brackets);
  }

  lemma {:induction false} ParsePrintBrackets(p: AttrPath, style: Parens, k: seq<Token>)
    requires WellFormedPath(p)
    requires Current(k).kind !in {Ident, Dot, LBracket}
    ensures ParseValuePath(RereadPath(p).(valuePath := None), PrintBrackets(p, style, k)) == Success(RereadPath(p), k)
    decreases p, 1
  {
    if p.valuePath.Some? {
      ParsePrint(p.valuePath.value, PREC_LOWEST, style, Cons(Token(RBracket, "]"), k), PREC_LOWEST);
    }
  }

  lemma PrintedNameIsSchema(p: AttrPath)
    requires WellFormedPath(p)
    ensures IsSchemaName(PrintedName(p)) <==> p.schema != ""
  {
    if p.schema != "" {
      assert p.schema <= PrintedName(p);
      assert PrintedName(p)[|p.schema|] == ':';
    }
  }

  lemma ParsePrintValue(v: Value, k: seq<Token>)
    requires WellFormedValue(v)
    ensures ParseValue(Cons(ValueToken(v), k)) == Success(v, k)
  {
    if v.Int? {
      Decimal.IntRoundTrip(v.i);
    }
  }

  /** The token form of `String()` (`Full`), or its minimally parenthesized variant. */
  function Tokens(t: FilterNode, style: Parens): seq<Token> {
    Print(t, PREC_LOWEST, style, [])
  }

  /**
   * Printing and parsing undo each other exactly on the trees without schema URNs, with the
   * parentheses of `String()` as well as with the fewest that precedence needs.
   */
  lemma PrintParseRoundTrip(t: FilterNode, style: Parens)
    requires WellFormed(t)
    ensures ParseTokens(Tokens(t, style)) == Ok(Some(t)) <==> SchemaFree(t)
    ensures ParseTokens(Tokens(t, Full)) == ParseTokens(Tokens(t, Minimal))
  {
    ParsePrint(t, PREC_LOWEST, style, [], PREC_LOWEST);
    ParsePrint(t, PREC_LOWEST, Full, [], PREC_LOWEST);
    ParsePrint(t, PREC_LOWEST, Minimal, [], PREC_LOWEST);
    RereadIsIdentity(t);
  }

  /** Printing what was parsed and parsing again gives the same tree, for every accepted input without URNs. */
  lemma ParsePrintParse(ts: seq<Token>, style: Parens)
    requires ParseTokens(ts).Ok? && ParseTokens(ts).value.Some?
    ensures var t := ParseTokens(ts).value.value;
            ParseTokens(Tokens(t, style)) == ParseTokens(ts) <==> SchemaFree(t)
  {
    ExpressionWellFormed(ts, PREC_LOWEST);
    PrintParseRoundTrip(ParseTokens(ts).value.value, style);
  }

  /**
   * Attribute names with a URN that holds a version point, as all of the SCIM schema URNs
   * do, are always rejected: the lexer ends the name at the point and a digit follows.
   */
  lemma VersionedUrnRejected(urn: string, version: string, rest: seq<Token>)
    requires IsSchemaName(urn)
    ensures ParseTokens([Token(Ident, urn), Token(Dot, "."), Token(Number, version)] + rest)
            == Err(Expected(SubAttributeName, Token(Number, version)))
  {
    var ts := [Token(Ident, urn), Token(Dot, "."), Token(Number, version)] + rest;
    var after := [Token(Dot, "."), Token(Number, version)] + rest;
    assert ts[1..] == after;
    assert after[1..] == [Token(Number, version)] + rest;
    assert SplitName(urn, after) == (urn, "", after);
    assert ParseAttrPath(ts) == Failure(Expected(SubAttributeName, Token(Number, version)));
    assert ParseOperand(ts) == Failure(Expected(SubAttributeName, Token(Number, version)));
  }
}
