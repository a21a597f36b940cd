/** The recursive-descent parser object: two tokens of lookahead over the lexer. */
module FilterParser {
  import opened Wrappers
  import opened FilterSyntax
  import opened FilterLexer
  import G = FilterGrammar

  type Outcome<T> = Result<T, G.ParseError>

  class Parser {
    const lexer: Lexer
    var current: Token
    var peek: Token

    ghost predicate PeekValid()
      reads this, lexer
    {
      && lexer.Valid()
      && (peek.kind == Eof ==> peek == EOF_TOKEN && Lex(lexer.Rest()) == [])
    }

    ghost predicate Valid()
      reads this, lexer
    {
      && PeekValid()
      && (current.kind == Eof ==> current == EOF_TOKEN && peek.kind == Eof)
    }

    /** The tokens from `peek` on. */
    ghost function Ahead(): seq<Token>
      reads this, lexer
      requires PeekValid()
    {
      if peek.kind == Eof then [] else [peek] + Lex(lexer.Rest())
    }

    /** The tokens from `current` on. */
    ghost function Remaining(): seq<Token>
      reads this, lexer
      requires Valid()
    {
      if current.kind == Eof then [] else [current] + Ahead()
    }

    constructor (input: string)
      ensures Valid() && fresh(lexer)
      ensures Remaining() == Lex(input)
    {
      lexer := new Lexer(input);
      current, peek := EOF_TOKEN, EOF_TOKEN;
      new;
      assert lexer.Rest() == input;
      peek := lexer.NextToken();
      NextToken();
    }

    method NextToken()
      requires PeekValid()
      modifies this, lexer
      ensures Valid() && Remaining() == old(Ahead())
    {
      current := peek;
      peek := lexer.NextToken();
    }

    /** Drops the current token, as `Advance` does on the remaining ones. */
    method Skip()
      requires Valid()
      modifies this, lexer
      ensures Valid() && Remaining() == G.Advance(old(Remaining()))
    {
      hide Lex;
      NextToken();
    }

    /** The result of a parsing method is the grammar's result on the tokens that were left. */
    ghost predicate Agrees<T>(r: Outcome<T>, spec: G.Parsed<T>)
      reads this, lexer
      requires Valid()
    {
      match spec
      case Success(value, rest) => r == Ok(value) && Remaining() == rest
      case Failure(error) => r == Err(error)
    }

    method Parse() returns (r: Outcome<Option<FilterNode>>)
      requires Valid()
      modifies this, lexer
      ensures r == G.ParseTokens(old(Remaining()))
    {
      if current.kind == Eof {
        return Ok(None);
      }
      var node := ParseExpression(PREC_LOWEST);
      match node
      case Err(e) => return Err(e);
      case Ok(t) => return Ok(Some(t));
    }

    method ParseExpression(precedence: nat) returns (r: Outcome<FilterNode>)
      requires Valid()
      modifies this, lexer
      ensures Valid() && Agrees(r, G.ParseExpression(old(Remaining()), precedence))
      decreases |Remaining()|, 5
    {
      hide Lex;
      hide G.ParseOperand;
      hide G.ParseBinary;
      r := ParseOperand();
      if r.Ok? {
        r := ParseBinary(r.value, precedence);
      }
    }

    /** The loop over the operators that follow an operand. */
    method ParseBinary(operand: FilterNode, precedence: nat) returns (r: Outcome<FilterNode>)
      requires Valid()
      modifies this, lexer
      ensures Valid() && Agrees(r, G.ParseBinary(operand, old(Remaining()), precedence))
      decreases |Remaining()|, 4
    {
      hide Lex;
      hide G.ParseExpression;
      var left := operand;
      while true
        invariant Valid() && |Remaining()| <= old(|Remaining()|)
        invariant G.ParseBinary(operand, old(Remaining()), precedence) == G.ParseBinary(left, Remaining(), precedence)
        decreases |Remaining()|
      {
        var op: LogicOp;
        match current.kind {
          case And => op := AndOp;
          case Or => op := OrOp;
          case _ => return Ok(left);
        }
        if Precedence(op) <= precedence {
          return Ok(left);
        }
        Skip();
        var right := ParseExpression(Precedence(op));
        if right.Err? {
          return right;
        }
        left := Logic(left, op, right.value);
      }
    }

    method ParseOperand() returns (r: Outcome<FilterNode>)
      requires Valid()
      modifies this, lexer
      ensures Valid() && Agrees(r, G.ParseOperand(old(Remaining())))
      decreases |Remaining()|, 3
    {
      hide Lex;
      hide G.ParseAttrExpr;
      hide G.ParseExpression;
      var negated := current.kind == Not;
      if negated {
        Skip();
        if current.kind != LParen {
          return Err(G.Expected(G.OpenParenAfterNot, current));
        }
      }
      if current.kind == LParen {
        Skip();
        r := ParseExpression(PREC_LOWEST);
        if r.Err? {
          return;
        }
        if current.kind != RParen {
          return Err(G.Expected(G.CloseParen, current));
        }
        Skip();
        r := if negated then Ok(Negation(r.value)) else r;
      } else {
        r := ParseAttrExpr();
      }
    }

    method ParseAttrExpr() returns (r: Outcome<FilterNode>)
      requires Valid()
      modifies this, lexer
      ensures Valid() && Agrees(r, G.ParseAttrExpr(old(Remaining())))
      decreases |Remaining()|, 2
    {
      hide Lex;
      hide G.ParseAttrPath;
      hide G.ParseCompareOp;
      hide G.ParseValue;
      var path := ParseAttrPath();
      if path.Err? {
        return Err(path.error);
      }
      if current.kind == Pr {
        Skip();
        return Ok(Present(path.value));
      }
      var cmp := ParseCompareOp();
      if cmp.Err? {
        return Err(cmp.error);
      }
      var value := ParseValue();
      if value.Err? {
        return Err(value.error);
      }
      r := Ok(Compare(path.value, cmp.value, value.value));
    }

    method ParseAttrPath() returns (r: Outcome<AttrPath>)
      requires Valid()
      modifies this, lexer
      ensures Valid() && Agrees(r, G.ParseAttrPath(old(Remaining())))
      decreases |Remaining()|, 1
    {
      hide Lex;
      hide G.ParseSubAttr;
      hide G.ParseValuePath;
      if current.kind != Ident {
        return Err(G.Expected(G.AttributeName, current));
      }
      ghost var spec := G.ParseAttrPath(Remaining());
      var name := current.value;
      var schema, attribute := "", name;
      Skip();
      if IsSchemaName(name) {
        schema, attribute := name, "";
        if current.kind == Ident {
          attribute := current.value;
          Skip();
        }
      }
      var subAttr := ParseSubAttr("");
      if subAttr.Err? {
        return Err(subAttr.error);
      }
      var path := AttrPath(schema, attribute, subAttr.value, None);
      assert spec == G.ParseValuePath(path, Remaining());
      r := ParseValuePath(path);
    }

    method ParseValuePath(path: AttrPath) returns (r: Outcome<AttrPath>)
      requires Valid()
      modifies this, lexer
      ensures Valid() && Agrees(r, G.ParseValuePath(path, old(Remaining())))
      decreases |Remaining()|, 0
    {
      hide Lex;
      hide G.ParseSubAttr;
      hide G.ParseExpression;
      if current.kind != LBracket {
        return Ok(path);
      }
      Skip();
      var filter := ParseExpression(PREC_LOWEST);
      if filter.Err? {
        return Err(filter.error);
      }
      if current.kind != RBracket {
        return Err(G.Expected(G.CloseBracket, current));
      }
      Skip();
      var subAttr := ParseSubAttr(path.subAttr);
      if subAttr.Err? {
        return Err(subAttr.error);
      }
      r := Ok(path.(subAttr := subAttr.value, valuePath := Some(filter.value)));
    }

    method ParseSubAttr(subAttr: string) returns (r: Outcome<string>)
      requires Valid()
      modifies this, lexer
      ensures Valid() && Agrees(r, G.ParseSubAttr(subAttr, old(Remaining())))
    {
      hide Lex;
      if current.kind != Dot {
        return Ok(subAttr);
      }
      Skip();
      if current.kind != Ident {
        return Err(G.Expected(G.SubAttributeName, current));
      }
      r := Ok(current.value);
      Skip();
    }

    method ParseCompareOp() returns (r: Outcome<CompareOp>)
      requires Valid()
      modifies this, lexer
      ensures Valid() && Agrees(r, G.ParseCompareOp(old(Remaining())))
    {
      hide Lex;
      match current.kind {
        case Eq => r := Ok(EqOp);
        case Ne => r := Ok(NeOp);
        case Co => r := Ok(CoOp);
        case Sw => r := Ok(SwOp);
        case Ew => r := Ok(EwOp);
        case Gt => r := Ok(GtOp);
        case Lt => r := Ok(LtOp);
        case Ge => r := Ok(GeOp);
        case Le => r := Ok(LeOp);
        case _ => return Err(G.Expected(G.ComparisonOperator, current));
      }
      Skip();
    }

    method ParseValue() returns (r: Outcome<Value>)
      requires Valid()
      modifies this, lexer
      ensures Valid() && Agrees(r, G.ParseValue(old(Remaining())))
    {
      hide Lex;
      match current.kind {
        case StringLit => r := Ok(Str(current.value));
        case Number => r := Ok(NumberValue(current.value));
        case Boolean => r := Ok(Bool(current.value == "true"));
        case NullLit => r := Ok(Null);
        case _ => return Err(G.Expected(G.ComparisonValue, current));
      }
      Skip();
    }
  }

  /** What `ParseFilter` answers on an input; the empty input and a blank one both mean no filter. */
  function ParseFilterSpec(input: string): Outcome<Option<FilterNode>> {
    G.ParseTokens(Lex(input))
  }

  /** `ParseFilter`: lexing and parsing run to completion on every input. */
  method ParseFilter(input: string) returns (r: Outcome<Option<FilterNode>>)
    ensures r == ParseFilterSpec(input)
  {
    if input == "" {
      return Ok(None);
    }
    var parser := new Parser(input);
    r := parser.Parse();
  }
}
