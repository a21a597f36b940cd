/** Filters as text: lexing undoes rendering, and so parsing undoes printing. */
module FilterText {
  import opened Wrappers
  import opened FilterSyntax
  import opened FilterLexer
  import opened FilterPrinter
  import G = FilterGrammar
  import P = FilterParser
  import Decimal

  predicate IsWord(s: string) {
    s != [] && IsIdentStart(s[0]) && forall i :: 0 <= i < |s| ==> IsIdentPart(s[i])
  }

  predicate IsNumberText(s: string) {
    s != [] && IsNumberStart(s[0]) && forall i :: 1 <= i < |s| ==> IsNumberPart(s[i])
  }

  /** A character the lexer knows no rule for; it becomes an identifier of its own. */
  predicate IsUnknown(c: char) {
    !IsSpace(c) && c !in {'(', ')', '[', ']', '.', '\"'} && !IsNumberStart(c) && !IsIdentStart(c)
  }

  predicate IsUnknownText(s: string) {
    |s| == 1 && IsUnknown(s[0])
  }

  /** The tokens that some text without backslashes lexes to. */
  predicate Renderable(t: Token) {
    match t.kind
    case Eof => false
    case StringLit => '\\' !in t.value
    case Number => IsNumberText(t.value)
    case LParen => t.value == "("
    case RParen => t.value == ")"
    case LBracket => t.value == "["
    case RBracket => t.value == "]"
    case Dot => t.value == "."
    case _ =>
      || (IsWord(t.value) && WordToken(t.value) == t)
      || (t.kind == Ident && IsUnknownText(t.value))
  }

  /** Puts a backslash before each quote. */
  function Escape(s: string): string {
    if s == [] then []
    else if s[0] == '\"' then ['\\', '\"'] + Escape(s[1..])
    else [s[0]] + Escape(s[1..])
  }

  function TokenText(t: Token): string {
    if t.kind == StringLit then "\"" + Escape(t.value) + "\"" else t.value
  }

  function Render(ts: seq<Token>): string {
    if ts == [] then "" else TokenText(ts[0]) + (" " + Render(ts[1..]))
  }

  lemma {:induction false} SpanExact(s: string, rest: string, p: char -> bool)
    requires forall i :: 0 <= i < |s| ==> p(s[i])
    requires rest == [] || !p(rest[0])
    ensures SpanLength(s + rest, p) == |s|
  {
    if s == [] {
      assert s + rest == rest;
    } else {
      SpanExact(s[1..], rest, p);
      assert (s + rest)[1..] == s[1..] + rest;
    }
  }

  lemma {:induction false} StringExact(s: string, rest: string)
    requires '\\' !in s
    ensures StringLength(Escape(s) + ("\"" + rest)) == |Escape(s)|
  {
    var tail := "\"" + rest;
    var e := Escape(s) + tail;
    if s == [] {
      assert e == tail;
    } else {
      StringExact(s[1..], rest);
      var e' := Escape(s[1..]) + tail;
      if s[0] == '\"' {
        assert e[0] == '\\' && e[2..] == e';
      } else {
        assert e[0] == s[0] && e[1..] == e';
      }
    }
  }

  /** A replacement whose pattern does not occur changes nothing. */
  lemma {:induction false} ReplaceAbsent(s: string, first: char, second: char, replacement: char)
    requires forall i :: 0 <= i < |s| - 1 ==> s[i] != first || s[i + 1] != second
    ensures ReplaceAll(s, first, second, replacement) == s
  {
    if |s| >= 2 {
      ReplaceAbsent(s[1..], first, second, replacement);
    }
  }

  lemma {:induction false} ReplaceEscapedQuotes(s: string)
    requires '\\' !in s
    ensures ReplaceAll(Escape(s), '\\', '\"', '\"') == s
  {
    if s != [] {
      ReplaceEscapedQuotes(s[1..]);
      if s[0] == '\"' {
        assert Escape(s)[2..] == Escape(s[1..]);
      } else {
        assert Escape(s)[1..] == Escape(s[1..]);
      }
    }
  }

  /** Unescaping undoes escaping for every string without backslashes. */
  lemma UnescapeEscape(s: string)
    requires '\\' !in s
    ensures Unescape(Escape(s)) == s
  {
    ReplaceEscapedQuotes(s);
    ReplaceAbsent(s, '\\', '\\', '\\');
    ReplaceAbsent(s, '\\', 'n', '\n');
    ReplaceAbsent(s, '\\', 't', '\t');
  }

  lemma {:induction false} ScanString(t: Token, rest: string)
    requires t.kind == StringLit && Renderable(t)
    ensures ScanToken(TokenText(t) + (" " + rest)) == (t, |TokenText(t)|)
  {
    var e := Escape(t.value);
    var s := TokenText(t) + (" " + rest);
    StringExact(t.value, " " + rest);
    UnescapeEscape(t.value);
    assert s[1..] == e + ("\"" + (" " + rest));
    assert s[1..1 + |e|] == e;
  }

  lemma {:induction false} ScanNumber(t: Token, rest: string)
    requires t.kind == Number && Renderable(t)
    ensures ScanToken(TokenText(t) + (" " + rest)) == (t, |TokenText(t)|)
  {
    var s := t.value + (" " + rest);
    SpanExact(t.value[1..], " " + rest, IsNumberPart);
    assert s[1..] == t.value[1..] + (" " + rest);
    assert s[..|t.value|] == t.value;
  }

  lemma {:induction false} ScanWord(word: string, rest: string)
    requires IsWord(word)
    requires rest == [] || !IsIdentPart(rest[0])
    ensures ScanToken(word + rest) == (WordToken(word), |word|)
  {
    hide WordToken;
    var s := word + rest;
    SpanExact(word[1..], rest, IsIdentPart);
    assert s[1..] == word[1..] + rest;
    assert s[..|word|] == word;
  }

  lemma {:induction false} ScanRendered(t: Token, rest: string)
    requires Renderable(t)
    ensures TokenText(t) != [] && !IsSpace(TokenText(t)[0])
    ensures ScanToken(TokenText(t) + (" " + rest)) == (t, |TokenText(t)|)
  {
    hide WordToken;
    if t.kind == StringLit {
      ScanString(t, rest);
    } else if t.kind == Number {
      ScanNumber(t, rest);
    } else if IsWord(t.value) && WordToken(t.value) == t {
      ScanWord(t.value, " " + rest);
    } else {
      ScanSingle(t, rest);
    }
  }

  lemma {:induction false} ScanSingle(t: Token, rest: string)
    requires Renderable(t) && t.kind !in {StringLit, Number} && !(IsWord(t.value) && WordToken(t.value) == t)
    ensures |t.value| == 1 && !IsSpace(t.value[0])
    ensures ScanToken(t.value + (" " + rest)) == (t, 1)
  {
    hide WordToken;
    var s := t.value + (" " + rest);
    assert s[0] == t.value[0];
    assert t.value == [s[0]];
  }

  /** Lexing a rendering gives back its tokens. */
  lemma {:induction false} LexRender(ts: seq<Token>)
    requires forall i :: 0 <= i < |ts| ==> Renderable(ts[i])
    ensures Lex(Render(ts)) == ts
  {
    if ts != [] {
      hide ScanToken;
      hide Renderable;
      var t, rest := ts[0], Render(ts[1..]);
      var s := TokenText(t) + (" " + rest);
      LexRender(ts[1..]);
      ScanRendered(t, rest);
      assert SpanLength(s, IsSpace) == 0;
      assert s[0..] == s;
      LexStep(s, 0, t, |TokenText(t)|);
      assert s[|TokenText(t)|..] == " " + rest;
      LexAfterSpace(' ', rest);
    }
  }

  lemma {:induction false} LexAfterSpace(c: char, s: string)
    requires IsSpace(c)
    ensures Lex([c] + s) == Lex(s)
  {
    hide ScanToken;
    hide SpanLength;
    hide Lex;
    var padded := [c] + s;
    var start := SpanLength(s, IsSpace);
    OneMoreSpace(c, s);
    if start < |s| {
      var (t, n) := ScanToken(s[start..]);
      LexStep(s, start, t, n);
      assert padded[1 + start..] == s[start..];
      LexStep(padded, 1 + start, t, n);
      assert padded[1 + start + n..] == s[start + n..];
    } else {
      OnlySpaces(s);
      OnlySpaces(padded);
    }
  }

  lemma OneMoreSpace(c: char, s: string)
    requires IsSpace(c)
    ensures SpanLength([c] + s, IsSpace) == 1 + SpanLength(s, IsSpace)
  {
    assert ([c] + s)[1..] == s;
  }

  lemma OnlySpaces(s: string)
    requires SpanLength(s, IsSpace) == |s|
    ensures Lex(s) == []
  {
  }

  /** Every token of a text can be rendered, unless it is a string with a backslash in it. */
  lemma {:induction false} LexedRenderable(s: string)
    ensures forall t :: t in Lex(s) ==> Renderable(t) || (t.kind == StringLit && '\\' in t.value)
    decreases |s|
  {
    hide ScanToken;
    var start := SpanLength(s, IsSpace);
    if start < |s| {
      var (t, n) := ScanToken(s[start..]);
      SpanStops(s, IsSpace);
      ScannedRenderable(s[start..]);
      LexStep(s, start, t, n);
      LexedRenderable(s[start + n..]);
    }
  }

  lemma {:induction false} SpanStops(s: string, p: char -> bool)
    ensures var n := SpanLength(s, p); n < |s| ==> !p(s[n])
    ensures forall i :: 0 <= i < SpanLength(s, p) ==> p(s[i])
  {
    if s != [] && p(s[0]) {
      SpanStops(s[1..], p);
    }
  }

  lemma {:induction false} ScannedRenderable(s: string)
    requires s != [] && !IsSpace(s[0])
    ensures var t := ScanToken(s).0; Renderable(t) || (t.kind == StringLit && '\\' in t.value)
  {
    hide WordToken;
    if IsNumberStart(s[0]) {
      SpanStops(s[1..], IsNumberPart);
    } else if IsIdentStart(s[0]) {
      SpanStops(s[1..], IsIdentPart);
      var word := ScanToken(s).1;
      assert IsWord(s[..word]);
      WordTokenRenderable(s[..word]);
    }
  }

  lemma WordTokenRenderable(word: string)
    requires IsWord(word)
    ensures Renderable(WordToken(word))
  {
    var lower := ToLower(word);
    assert ToLower(lower) == lower;
    assert IsWord(lower);
  }

  /** Rendering the tokens of any text whose strings have no backslash keeps its tokens, and so its parse. */
  lemma RelexRendered(s: string)
    requires forall t :: t in Lex(s) && t.kind == StringLit ==> '\\' !in t.value
    ensures Lex(Render(Lex(s))) == Lex(s)
    ensures P.ParseFilterSpec(Render(Lex(s))) == P.ParseFilterSpec(s)
  {
    LexedRenderable(s);
    LexRender(Lex(s));
  }

  /** Names the lexer reads back as one identifier. */
  predicate IsName(s: string) {
    IsWord(s) && ToLower(s) !in KEYWORDS
  }

  /** Names the lexer reads back as one token: identifiers, and single characters it does not know. */
  predicate IsLexable(s: string) {
    IsName(s) || IsUnknownText(s)
  }

  /** Every name of the tree is read back, as it is printed, and no string value has a backslash. */
  predicate Writable(t: FilterNode) {
    match t
    case Compare(path, _, value) => WritablePath(path) && WritableValue(value)
    case Present(path) => WritablePath(path)
    case Logic(l, _, r) => Writable(l) && Writable(r)
    case Negation(inner) => Writable(inner)
  }

  predicate WritableValue(v: Value) {
    && (v.Str? ==> '\\' !in v.text)
    && (v.Float? ==> IsNumberText(v.literal))
  }

  predicate WritablePath(p: AttrPath) {
    && IsLexable(PrintedName(p))
    && (p.subAttr == "" || IsLexable(p.subAttr))
    && (p.valuePath.Some? ==> Writable(p.valuePath.value))
  }

  predicate AllRenderable(ts: seq<Token>) {
    forall i :: 0 <= i < |ts| ==> Renderable(ts[i])
  }

  lemma ConsRenderable(t: Token, k: seq<Token>)
    requires Renderable(t) && AllRenderable(k)
    ensures AllRenderable(Cons(t, k))
  {
  }

  lemma {:induction false} PrintRenderable(t: FilterNode, floor: nat, style: Parens, k: seq<Token>)
    requires Writable(t) && WellFormed(t) && AllRenderable(k)
    ensures AllRenderable(Print(t, floor, style, k))
    decreases t, 1
  {
    if Parenthesized(t, floor, style) {
      ConsRenderable(CLOSE, k);
      PrintBareRenderable(t, style, Cons(CLOSE, k));
      ConsRenderable(OPEN, PrintBare(t, style, Cons(CLOSE, k)));
    } else {
      PrintBareRenderable(t, style, k);
    }
  }

  lemma {:induction false} PrintBareRenderable(t: FilterNode, style: Parens, k: seq<Token>)
    requires Writable(t) && WellFormed(t) && AllRenderable(k)
    ensures AllRenderable(PrintBare(t, style, k))
    decreases t, 0
  {
    hide Renderable;
    match t
    case Compare(path, cmp, value) =>
      ValueRenderable(value);
      ConsRenderable(ValueToken(value), k);
      CompareTokenRenderable(cmp);
      ConsRenderable(CompareToken(cmp), Cons(ValueToken(value), k));
      PrintPathRenderable(path, style, Cons(CompareToken(cmp), Cons(ValueToken(value), k)));
    case Present(path) =>
      KeywordRenderable("pr");
      ConsRenderable(Token(Pr, "pr"), k);
      PrintPathRenderable(path, style, Cons(Token(Pr, "pr"), k));
    case Logic(l, op, r) =>
      var right := Print(r, Precedence(op), style, k);
      PrintRenderable(r, Precedence(op), style, k);
      LogicTokenRenderable(op);
      ConsRenderable(LogicToken(op), right);
      PrintRenderable(l, Precedence(op) - 1, style, Cons(LogicToken(op), right));
    case Negation(inner) =>
      var body := Print(inner, PREC_LOWEST, style, Cons(CLOSE, k));
      ConsRenderable(CLOSE, k);
      PrintRenderable(inner, PREC_LOWEST, style, Cons(CLOSE, k));
      ConsRenderable(OPEN, body);
      KeywordRenderable("not");
      ConsRenderable(Token(Not, "not"), Cons(OPEN, body));
  }

  lemma {:induction false} PrintPathRenderable(p: AttrPath, style: Parens, k: seq<Token>)
    requires WritablePath(p) && WellFormedPath(p) && AllRenderable(k)
    ensures AllRenderable(PrintPath(p, style, k))
    decreases p
  {
    hide Print;
    if p.valuePath.Some? {
      ConsRenderable(Token(RBracket, "]"), k);
      PrintRenderable(p.valuePath.value, PREC_LOWEST, style, Cons(Token(RBracket, "]"), k));
    }
    assert AllRenderable(PrintBrackets(p, style, k));
    NameRenderable(PrintedName(p));
    if p.subAttr != "" {
      NameRenderable(p.subAttr);
    }
  }

  lemma NameRenderable(name: string)
    requires IsLexable(name)
    ensures Renderable(Token(Ident, name))
  {
  }

  lemma CompareTokenRenderable(op: CompareOp)
    ensures Renderable(CompareToken(op))
  {
    hide Renderable;
    match op
    case EqOp => KeywordRenderable("eq");
    case NeOp => KeywordRenderable("ne");
    case CoOp => KeywordRenderable("co");
    case SwOp => KeywordRenderable("sw");
    case EwOp => KeywordRenderable("ew");
    case GtOp => KeywordRenderable("gt");
    case LtOp => KeywordRenderable("lt");
    case GeOp => KeywordRenderable("ge");
    case LeOp => KeywordRenderable("le");
  }

  lemma LogicTokenRenderable(op: LogicOp)
    ensures Renderable(LogicToken(op))
  {
    hide Renderable;
    match op
    case AndOp => KeywordRenderable("and");
    case OrOp => KeywordRenderable("or");
  }

  lemma KeywordRenderable(word: string)
    requires word in KEYWORDS
    ensures Renderable(Token(KEYWORDS[word], word))
  {
    assert ToLower(word) == word;
  }

  lemma ValueRenderable(v: Value)
    requires WritableValue(v)
    ensures Renderable(ValueToken(v))
  {
    match v
    case Int(i) =>
      var s := Decimal.IntText(i);
      assert IsNumberText(s);
    case Float(_) =>
    case Bool(b) =>
      KeywordRenderable(if b then "true" else "false");
    case Null =>
      KeywordRenderable("null");
    case Str(_) =>
  }

  /**
   * Parsing the written form of a filter gives the filter back, whichever parentheses it is
   * written with, exactly when no name of it carries a schema URN.
   */
  lemma TextRoundTrip(t: FilterNode, style: Parens)
    requires WellFormed(t) && Writable(t)
    ensures P.ParseFilterSpec(Render(Tokens(t, style))) == Ok(Some(t)) <==> SchemaFree(t)
  {
    PrintRenderable(t, PREC_LOWEST, style, []);
    LexRender(Tokens(t, style));
    PrintParseRoundTrip(t, style);
  }

  // ------------------------------------------------------------------ parsed filters

  lemma RestRenderable(ts: seq<Token>)
    requires AllRenderable(ts)
    ensures AllRenderable(G.Advance(ts))
  {
    hide Renderable;
    if ts != [] {
      forall i | 0 <= i < |ts| - 1 ensures Renderable(ts[1..][i]) {
        assert ts[1..][i] == ts[i + 1];
      }
    }
  }

  /** What a parser function returns: a value that can be written, and a rest of the tokens. */
  ghost predicate WritableParse(r: G.Parsed<FilterNode>) {
    r.Success? ==> (SchemaFree(r.value) ==> Writable(r.value)) && AllRenderable(r.rest)
  }

  ghost predicate WritablePathParse(r: G.Parsed<AttrPath>) {
    r.Success? ==> (SchemaFreePath(r.value) ==> WritablePath(r.value)) && AllRenderable(r.rest)
  }

  lemma {:induction false} ParsedExpression(ts: seq<Token>, precedence: nat)
    requires AllRenderable(ts)
    ensures WritableParse(G.ParseExpression(ts, precedence))
    decreases |ts|, 4
  {
    hide AllRenderable;
    hide Writable;
    hide SchemaFree;
    ParsedOperand(ts);
    var r := G.ParseOperand(ts);
    if r.Success? {
      ParsedBinary(r.value, r.rest, precedence);
    }
  }

  lemma {:induction false} ParsedOperand(ts: seq<Token>)
    requires AllRenderable(ts)
    ensures WritableParse(G.ParseOperand(ts))
    decreases |ts|, 3
  {
    hide G.ParseExpression;
    hide G.ParseAttrExpr;
    hide AllRenderable;
    var next := G.Advance(ts);
    RestRenderable(ts);
    RestRenderable(next);
    if G.Current(ts).kind == Not {
      if G.Current(next).kind == LParen {
        ParsedExpression(G.Advance(next), PREC_LOWEST);
        var r := G.ParseExpression(G.Advance(next), PREC_LOWEST);
        if r.Success? { RestRenderable(r.rest); }
      }
    } else if G.Current(ts).kind == LParen {
      ParsedExpression(next, PREC_LOWEST);
      var r := G.ParseExpression(next, PREC_LOWEST);
      if r.Success? { RestRenderable(r.rest); }
    } else {
      ParsedAttrExpr(ts);
    }
  }

  lemma {:induction false} ParsedBinary(left: FilterNode, ts: seq<Token>, precedence: nat)
    requires AllRenderable(ts) && (SchemaFree(left) ==> Writable(left))
    ensures WritableParse(G.ParseBinary(left, ts, precedence))
    decreases |ts|, 0
  {
    hide AllRenderable;
    hide G.ParseExpression;
    RestRenderable(ts);
    var ahead := G.LogicAhead(ts);
    if ahead.Some? && Precedence(ahead.value) > precedence {
      ParsedExpression(G.Advance(ts), Precedence(ahead.value));
      var right := G.ParseExpression(G.Advance(ts), Precedence(ahead.value));
      if right.Success? {
        ParsedBinary(Logic(left, ahead.value, right.value), right.rest, precedence);
      }
    }
  }

  lemma {:induction false} ParsedAttrExpr(ts: seq<Token>)
    requires AllRenderable(ts)
    ensures WritableParse(G.ParseAttrExpr(ts))
    decreases |ts|, 2
  {
    hide G.ParseAttrPath;
    hide AllRenderable;
    ParsedAttrPath(ts);
    var path := G.ParseAttrPath(ts);
    if path.Success? {
      RestRenderable(path.rest);
      var cmp := G.ParseCompareOp(path.rest);
      if G.Current(path.rest).kind != Pr && cmp.Success? {
        RestRenderable(cmp.rest);
        ParsedValue(cmp.rest);
        hide G.ParseValue;
      }
    }
  }

  lemma ParsedValue(ts: seq<Token>)
    requires AllRenderable(ts)
    ensures var r := G.ParseValue(ts); r.Success? ==> WritableValue(r.value) && AllRenderable(r.rest)
  {
    RestRenderable(ts);
    if ts != [] {
      assert Renderable(ts[0]);
      if ts[0].kind == Number {
        NumberWritable(ts[0].value);
      }
    }
    hide AllRenderable;
    hide NumberValue;
  }

  lemma NumberWritable(text: string)
    requires IsNumberText(text)
    ensures WritableValue(NumberValue(text))
  {
    hide IsFloatLiteral;
    hide Decimal.ParseInt64;
    assert '\\' !in text;
  }

  lemma IdentLexable(t: Token)
    requires Renderable(t) && t.kind == Ident
    ensures IsLexable(t.value)
  {
  }

  lemma {:induction false} ParsedAttrPath(ts: seq<Token>)
    requires AllRenderable(ts)
    ensures WritablePathParse(G.ParseAttrPath(ts))
    decreases |ts|, 1
  {
    hide G.ParseExpression;
    if G.Current(ts).kind == Ident {
      IdentLexable(ts[0]);
      RestRenderable(ts);
      var (schema, attribute, rest) := G.SplitName(ts[0].value, ts[1..]);
      RestRenderable(ts[1..]);
      assert AllRenderable(rest);
      ParsedSubAttr("", rest);
      var sub := G.ParseSubAttr("", rest);
      hide AllRenderable;
      hide IsLexable;
      if sub.Success? && G.Current(sub.rest).kind == LBracket {
        RestRenderable(sub.rest);
        ParsedExpression(G.Advance(sub.rest), PREC_LOWEST);
        var filter := G.ParseExpression(G.Advance(sub.rest), PREC_LOWEST);
        if filter.Success? && G.Current(filter.rest).kind == RBracket {
          RestRenderable(filter.rest);
          ParsedSubAttr(sub.value, G.Advance(filter.rest));
        }
      }
      hide G.ParseSubAttr;
    }
  }

  lemma ParsedSubAttr(subAttr: string, ts: seq<Token>)
    requires AllRenderable(ts) && (subAttr == "" || IsLexable(subAttr))
    ensures var r := G.ParseSubAttr(subAttr, ts);
            r.Success? ==> (r.value == "" || IsLexable(r.value)) && AllRenderable(r.rest)
  {
    var next := G.Advance(ts);
    RestRenderable(ts);
    RestRenderable(next);
    if G.Current(next).kind == Ident {
      IdentLexable(next[0]);
    }
    hide IsLexable;
    hide Renderable;
  }

  /**
   * What the program parses it can write and parse again: from every accepted text whose
   * strings have no backslash, if no name carries a schema URN, both written forms of the tree
   * give the tree back.
   */
  lemma ParsedTextRoundTrip(s: string, style: Parens)
    requires forall t :: t in Lex(s) && t.kind == StringLit ==> '\\' !in t.value
    requires P.ParseFilterSpec(s).Ok? && P.ParseFilterSpec(s).value.Some? && SchemaFree(P.ParseFilterSpec(s).value.value)
    ensures P.ParseFilterSpec(Render(Tokens(P.ParseFilterSpec(s).value.value, style))) == P.ParseFilterSpec(s)
  {
    LexedRenderable(s);
    hide Renderable;
    assert AllRenderable(Lex(s));
    ParsedExpression(Lex(s), PREC_LOWEST);
    G.ExpressionWellFormed(Lex(s), PREC_LOWEST);
    hide G.ParseExpression;
    hide Lex;
    hide AllRenderable;
    TextRoundTrip(P.ParseFilterSpec(s).value.value, style);
  }

  // ------------------------------------------------------------------ versioned URNs

  lemma LexFirst(s: string)
    requires s != [] && !IsSpace(s[0])
    ensures var (t, n) := ScanToken(s); Lex(s) == [t] + Lex(s[n..])
  {
    hide ScanToken;
    assert s[0..] == s;
  }

  /** A colon makes a word an identifier: no keyword has one. */
  lemma ColonIsNoKeyword(word: string)
    requires ':' in word
    ensures WordToken(word) == Token(Ident, word)
  {
    var i :| 0 <= i < |word| && word[i] == ':';
    var lower := ToLower(word);
    assert lower[i] == ':';
    forall k | k in KEYWORDS ensures ':' !in k {
    }
    assert lower !in KEYWORDS;
  }

  /**
   * Every text that starts with a schema URN in which a digit follows a point is a syntax error:
   * the name ends at the point, and the parser wants a sub-attribute after it.
   */
  lemma VersionedUrnTextRejected(urn: string, rest: string)
    requires IsWord(urn) && IsSchemaName(urn) && rest != "" && Decimal.IsDigit(rest[0])
    ensures exists version :: P.ParseFilterSpec(urn + ("." + rest)) == Err(G.Expected(G.SubAttributeName, Token(Number, version)))
  {
    hide *;
    var version, after := VersionedTokens(urn, rest);
    VersionedUrnRejected(urn, version, after);
    ParsesTokens(urn + ("." + rest));
  }

  lemma ParsesTokens(s: string)
    ensures P.ParseFilterSpec(s) == G.ParseTokens(Lex(s))
  {
  }

  lemma VersionedTokens(urn: string, rest: string) returns (version: string, after: seq<Token>)
    requires IsWord(urn) && IsSchemaName(urn) && rest != "" && Decimal.IsDigit(rest[0])
    ensures Lex(urn + ("." + rest)) == [Token(Ident, urn), Token(Dot, "."), Token(Number, version)] + after
  {
    hide Lex;
    hide IsSchemaName;
    hide SpanLength;
    hide ScanToken;
    hide WordToken;
    hide IsWord;
    WordStarts(urn);
    var dotted := "." + rest;
    version := rest[..1 + SpanLength(rest[1..], IsNumberPart)];
    after := Lex(rest[|version|..]);
    NumberScanned(rest);
    LexFirst(rest);
    DotScanned(rest);
    LexFirst(dotted);
    ScanWord(urn, dotted);
    SchemaHasColon(urn);
    ColonIsNoKeyword(urn);
    assert (urn + dotted)[|urn|..] == dotted;
    LexFirst(urn + dotted);
    assert [Token(Ident, urn)] + ([Token(Dot, ".")] + ([Token(Number, version)] + after))
           == [Token(Ident, urn), Token(Dot, "."), Token(Number, version)] + after;
  }

  lemma WordStarts(word: string)
    requires IsWord(word)
    ensures word != "" && !IsSpace(word[0])
  {
  }

  lemma DotScanned(rest: string)
    ensures ScanToken("." + rest) == (Token(Dot, "."), 1) && ("." + rest)[1..] == rest
  {
  }

  lemma SchemaHasColon(urn: string)
    requires IsSchemaName(urn)
    ensures ':' in urn
  {
  }

  /** The URN of the User schema cannot be used in a filter. */
  lemma UserSchemaRejected(rest: string)
    ensures P.ParseFilterSpec("urn:ietf:params:scim:schemas:core:2" + ("." + ("0:User:" + rest))).Err?
  {
    var urn := "urn:ietf:params:scim:schemas:core:2";
    UserUrn();
    hide IsWord;
    hide IsSchemaName;
    hide P.ParseFilterSpec;
    VersionedUrnTextRejected(urn, "0:User:" + rest);
  }

  lemma UserUrn()
    ensures IsWord("urn:ietf:params:scim:schemas:core:2") && IsSchemaName("urn:ietf:params:scim:schemas:core:2")
  {
    var urn := "urn:ietf:params:scim:schemas:core:2";
    assert urn[3] == ':' && urn[..3] == "urn";
  }
}
