/** The regular-expression fast path for `attr eq "value"` and `attr sw "value"`. */
module QuickFilter {
  import opened Wrappers
  import opened FilterSyntax
  import opened FilterLexer
  import opened FilterPrinter
  import opened FilterText
  import G = FilterGrammar
  import P = FilterParser
  import Decimal

  /** `\w` */
  predicate IsRegexWord(c: char) {
    'a' <= c <= 'z' || 'A' <= c <= 'Z' || Decimal.IsDigit(c) || c == '_'
  }

  /** `\s` */
  predicate IsRegexSpace(c: char) {
    c in {'\t', '\n', '\U{0C}', '\r', ' '}
  }

  /** The ASCII characters `strings.TrimSpace` cuts off. */
  predicate IsAsciiSpace(c: char) {
    '\t' <= c <= '\r' || c == ' '
  }

  function TrimLeft(s: string): (r: string)
    ensures |r| <= |s| && r == s[|s| - |r|..]
  {
    if s != [] && IsAsciiSpace(s[0]) then TrimLeft(s[1..]) else s
  }

  function TrimRight(s: string): (r: string)
    ensures |r| <= |s| && r == s[..|r|]
  {
    if s != [] && IsAsciiSpace(s[|s| - 1]) then TrimRight(s[..|s| - 1]) else s
  }

  /** `\s+`: the text after it. */
  function MatchGap(s: string): Option<string> {
    var n := SpanLength(s, IsRegexSpace);
    if n == 0 then None else Some(s[n..])
  }

  /** `"([^"]*)"$`: the captured group. */
  function MatchLiteral(s: string): Option<string> {
    if |s| < 2 || s[0] != '\"' || s[|s| - 1] != '\"' || '\"' in s[1..|s| - 1] then None
    else Some(s[1..|s| - 1])
  }

  /** `^(\w+)\s+op\s+"([^"]*)"$`, scanned from left to right: the two captured groups. */
  function MatchSimple(s: string, op: string): Option<(string, string)> {
    var word := SpanLength(s, IsRegexWord);
    if word == 0 then None
    else
      match MatchGap(s[word..])
      case None => None
      case Some(t) =>
        if !(op <= t) then None
        else
          match MatchGap(t[|op|..])
          case None => None
          case Some(literal) =>
            match MatchLiteral(literal)
            case None => None
            case Some(value) => Some((s[..word], value))
  }

  datatype QuickMatch = QuickMatch(attr: string, cmp: CompareOp, value: string)

  function Quick(filter: string): Option<QuickMatch> {
    var trimmed := TrimRight(TrimLeft(filter));
    match MatchSimple(trimmed, "eq")
    case Some((attr, value)) => Some(QuickMatch(attr, EqOp, value))
    case None =>
      match MatchSimple(trimmed, "sw")
      case Some((attr, value)) => Some(QuickMatch(attr, SwOp, value))
      case None => None
  }

  /** What the regular expression says of a text and its groups. */
  predicate Shape(s: string, attr: string, gap1: string, op: string, gap2: string, value: string) {
    && s == attr + (gap1 + (op + (gap2 + ("\"" + (value + "\"")))))
    && attr != [] && (forall i :: 0 <= i < |attr| ==> IsRegexWord(attr[i]))
    && gap1 != [] && (forall i :: 0 <= i < |gap1| ==> IsRegexSpace(gap1[i]))
    && gap2 != [] && (forall i :: 0 <= i < |gap2| ==> IsRegexSpace(gap2[i]))
    && '\"' !in value
  }

  ghost predicate Matches(s: string, op: string, attr: string, value: string) {
    exists gap1, gap2 :: Shape(s, attr, gap1, op, gap2, value)
  }

  lemma {:induction false} GapExact(gap: string, rest: string)
    requires gap != [] && forall i :: 0 <= i < |gap| ==> IsRegexSpace(gap[i])
    requires rest != [] && !IsRegexSpace(rest[0])
    ensures MatchGap(gap + rest) == Some(rest)
  {
    SpanExact(gap, rest, IsRegexSpace);
    assert (gap + rest)[|gap|..] == rest;
  }

  lemma {:induction false} GapFound(s: string) returns (gap: string)
    requires MatchGap(s).Some?
    ensures s == gap + MatchGap(s).value
    ensures gap != [] && forall i :: 0 <= i < |gap| ==> IsRegexSpace(gap[i])
  {
    SpanStops(s, IsRegexSpace);
    gap := s[..SpanLength(s, IsRegexSpace)];
  }

  lemma LiteralExact(s: string, value: string)
    ensures MatchLiteral(s) == Some(value) <==> s == "\"" + (value + "\"") && '\"' !in value
  {
    if MatchLiteral(s) == Some(value) {
      assert s == "\"" + (value + "\"");
    }
    if s == "\"" + (value + "\"") && '\"' !in value {
      assert s[1..|s| - 1] == value;
    }
  }

  lemma {:induction false} ShapeIsScanned(s: string, attr: string, gap1: string, op: string, gap2: string, value: string)
    requires op in {"eq", "sw"} && Shape(s, attr, gap1, op, gap2, value)
    ensures MatchSimple(s, op) == Some((attr, value))
  {
    hide MatchGap;
    hide MatchLiteral;
    var literal := "\"" + (value + "\"");
    var afterGap := op + (gap2 + literal);
    SpanExact(attr, gap1 + afterGap, IsRegexWord);
    hide SpanLength;
    assert s[|attr|..] == gap1 + afterGap && s[..|attr|] == attr;
    GapExact(gap1, afterGap);
    assert afterGap[|op|..] == gap2 + literal;
    GapExact(gap2, literal);
    LiteralExact(literal, value);
  }

  lemma {:induction false} ScannedIsShape(s: string, op: string, attr: string, value: string)
    requires MatchSimple(s, op) == Some((attr, value))
    ensures Matches(s, op, attr, value)
  {
    hide MatchGap;
    hide MatchLiteral;
    SpanStops(s, IsRegexWord);
    var afterWord := s[SpanLength(s, IsRegexWord)..];
    hide SpanLength;
    var t := MatchGap(afterWord).value;
    var afterOp := t[|op|..];
    var gap1 := GapFound(afterWord);
    var gap2 := GapFound(afterOp);
    var literal := MatchGap(afterOp).value;
    LiteralExact(literal, value);
    assert attr != [] && s == attr + afterWord;
    hide MatchSimple;
    assert t == op + afterOp;
    assert literal == "\"" + (value + "\"");
    assert Shape(s, attr, gap1, op, gap2, value);
  }

  /** The left-to-right scan finds exactly what the regular expression describes. */
  lemma ScanIsRegex(s: string, op: string, attr: string, value: string)
    requires op in {"eq", "sw"}
    ensures MatchSimple(s, op) == Some((attr, value)) <==> Matches(s, op, attr, value)
  {
    hide MatchSimple;
    if MatchSimple(s, op) == Some((attr, value)) {
      ScannedIsShape(s, op, attr, value);
    }
    if Matches(s, op, attr, value) {
      var gap1, gap2 :| Shape(s, attr, gap1, op, gap2, value);
      ShapeIsScanned(s, attr, gap1, op, gap2, value);
    }
  }

  /** The parser reads the attribute name as an identifier. */
  predicate IsAttributeName(attr: string) {
    attr != [] && !Decimal.IsDigit(attr[0]) && ToLower(attr) !in KEYWORDS
  }

  /** No backslash of the value starts an escape sequence that the lexer rewrites. */
  predicate IsPlainValue(value: string) {
    forall i :: 0 <= i < |value| && value[i] == '\\' ==> i + 1 < |value| && value[i + 1] !in {'\\', 'n', 't'}
  }

  /** The last character is a backslash that the lexer takes as the start of an escape. */
  predicate EndsInEscape(s: string) {
    if s == [] then false
    else if s[0] == '\\' then |s| == 1 || EndsInEscape(s[2..])
    else EndsInEscape(s[1..])
  }

  lemma {:induction false} EscapeAtEnd(s: string)
    ensures EndsInEscape(s) ==> s[|s| - 1] == '\\'
    ensures s != [] && s[|s| - 1] == '\\' && !EndsInEscape(s) ==> |s| > 1 && s[|s| - 2] == '\\'
  {
    if s != [] {
      if s[0] == '\\' {
        if |s| > 1 { EscapeAtEnd(s[2..]); }
      } else {
        EscapeAtEnd(s[1..]);
      }
    }
  }

  /** Where the literal of a value without quotes ends: at its own quote, or after everything that follows. */
  lemma {:induction false} LiteralLength(value: string, trail: string)
    requires '\"' !in value && '\"' !in trail
    ensures StringLength(value + ("\"" + trail)) == if EndsInEscape(value) then |value| + 1 + |trail| else |value|
    decreases |value|
  {
    var s := value + ("\"" + trail);
    if value != [] {
      if value[0] == '\\' {
        if |value| == 1 {
          assert s[2..] == trail;
          NoQuoteLength(trail);
        } else {
          LiteralLength(value[2..], trail);
          assert s[2..] == value[2..] + ("\"" + trail);
        }
      } else {
        LiteralLength(value[1..], trail);
        assert s[1..] == value[1..] + ("\"" + trail);
      }
    }
  }

  lemma {:induction false} NoQuoteLength(s: string)
    requires '\"' !in s
    ensures StringLength(s) == |s|
    decreases |s|
  {
    if s != [] {
      if s[0] == '\\' && |s| > 1 {
        NoQuoteLength(s[2..]);
      } else {
        NoQuoteLength(s[1..]);
      }
    }
  }

  lemma {:induction false} ReplaceShrinks(s: string, first: char, second: char, replacement: char, i: nat)
    requires i + 1 < |s| && s[i] == first && s[i + 1] == second
    ensures |ReplaceAll(s, first, second, replacement)| < |s|
  {
    if i > 0 && !(s[0] == first && s[1] == second) {
      ReplaceShrinks(s[1..], first, second, replacement, i - 1);
    }
  }

  lemma {:induction false} ReplaceKeeps(s: string, first: char, second: char, replacement: char, c: char)
    requires c in s && c != first && (c != second || c == replacement)
    ensures c in ReplaceAll(s, first, second, replacement)
    decreases |s|
  {
    if |s| >= 2 {
      if s[0] == first && s[1] == second {
        if c != second { ReplaceKeeps(s[2..], first, second, replacement, c); }
      } else if c != s[0] {
        ReplaceKeeps(s[1..], first, second, replacement, c);
      }
    }
  }

  lemma {:induction false} PlainUnescape(value: string)
    requires '\"' !in value
    ensures !EndsInEscape(value) ==> (Unescape(value) == value <==> IsPlainValue(value))
  {
    EscapeAtEnd(value);
    ReplaceAbsent(value, '\\', '\"', '\"');
    if IsPlainValue(value) {
      ReplaceAbsent(value, '\\', '\\', '\\');
      ReplaceAbsent(value, '\\', 'n', '\n');
      ReplaceAbsent(value, '\\', 't', '\t');
    } else if !EndsInEscape(value) {
      RewrittenShrinks(value);
    }
  }

  lemma {:induction false} RewrittenShrinks(value: string)
    requires ReplaceAll(value, '\\', '\"', '\"') == value
    requires exists i :: 0 <= i < |value| - 1 && value[i] == '\\' && value[i + 1] in {'\\', 'n', 't'}
    ensures |Unescape(value)| < |value|
  {
    var i :| 0 <= i < |value| - 1 && value[i] == '\\' && value[i + 1] in {'\\', 'n', 't'};
    if j :| 0 <= j < |value| - 1 && value[j] == '\\' && value[j + 1] == '\\' {
      ReplaceShrinks(value, '\\', '\\', '\\', j);
    } else {
      ReplaceAbsent(value, '\\', '\\', '\\');
      if j :| 0 <= j < |value| - 1 && value[j] == '\\' && value[j + 1] == 'n' {
        ReplaceShrinks(value, '\\', 'n', '\n', j);
      } else {
        ReplaceAbsent(value, '\\', 'n', '\n');
        ReplaceShrinks(value, '\\', 't', '\t', i);
      }
    }
  }

  lemma QuoteSurvives(s: string)
    requires '\"' in s
    ensures '\"' in Unescape(s)
  {
    var s1 := ReplaceAll(s, '\\', '\"', '\"');
    ReplaceKeeps(s, '\\', '\"', '\"', '\"');
    var s2 := ReplaceAll(s1, '\\', '\\', '\\');
    ReplaceKeeps(s1, '\\', '\\', '\\', '\"');
    ReplaceKeeps(s2, '\\', 'n', '\n', '\"');
    ReplaceKeeps(ReplaceAll(s2, '\\', 'n', '\n'), '\\', 't', '\t', '\"');
  }

  /** The text between the quotes, as the lexer sees it. */
  function LiteralText(value: string, trail: string): string {
    if EndsInEscape(value) then value + ("\"" + trail) else value
  }

  /** The parsed value is the captured one exactly for plain values. */
  lemma LiteralValue(value: string, trail: string)
    requires '\"' !in value && '\"' !in trail
    ensures Unescape(LiteralText(value, trail)) == value <==> IsPlainValue(value)
  {
    EscapeAtEnd(value);
    if EndsInEscape(value) {
      QuoteSurvives(LiteralText(value, trail));
    } else {
      PlainUnescape(value);
    }
  }

  lemma {:induction false} LexSpaces(gap: string, s: string)
    requires forall i :: 0 <= i < |gap| ==> IsSpace(gap[i])
    ensures Lex(gap + s) == Lex(s)
  {
    hide Lex;
    if gap == [] {
      assert gap + s == s;
    } else {
      var rest := gap[1..];
      LexSpaces(rest, s);
      LexAfterSpace(gap[0], rest + s);
      assert gap == [gap[0]] + rest;
      assert gap + s == [gap[0]] + (rest + s);
    }
  }

  lemma {:induction false} LexScanned(text: string, rest: string, t: Token)
    requires text != [] && !IsSpace(text[0]) && ScanToken(text + rest) == (t, |text|)
    ensures Lex(text + rest) == [t] + Lex(rest)
  {
    hide ScanToken;
    var s := text + rest;
    assert s[0..] == s && s[|text|..] == rest;
    LexStep(s, 0, t, |text|);
  }

  lemma {:induction false} LexLiteral(value: string, trail: string)
    requires '\"' !in value && forall i :: 0 <= i < |trail| ==> IsSpace(trail[i])
    ensures Lex("\"" + (value + ("\"" + trail))) == [Token(StringLit, Unescape(LiteralText(value, trail)))]
  {
    hide Unescape;
    var s := "\"" + (value + ("\"" + trail));
    var text := LiteralText(value, trail);
    var t := Token(StringLit, Unescape(text));
    LiteralLength(value, trail);
    assert s[1..] == value + ("\"" + trail);
    assert s[1..1 + |text|] == text;
    if EndsInEscape(value) {
      assert ScanToken(s) == (t, |s|);
      assert s + [] == s;
      LexScanned(s, [], t);
    } else {
      var quoted := s[..|value| + 2];
      assert quoted + trail == s;
      assert ScanToken(s) == (t, |quoted|);
      LexScanned(quoted, trail, t);
      LexSpaces(trail, []);
      assert trail + [] == trail;
    }
  }

  function OperatorText(cmp: CompareOp): string
    requires cmp in {EqOp, SwOp}
  {
    if cmp.EqOp? then "eq" else "sw"
  }

  function OperatorToken(cmp: CompareOp): Token
    requires cmp in {EqOp, SwOp}
  {
    Token(if cmp.EqOp? then Eq else Sw, OperatorText(cmp))
  }

  /** The single comparison the fast path stands for. */
  function Comparison(m: QuickMatch): FilterNode {
    Compare(AttrPath("", m.attr, "", None), m.cmp, Str(m.value))
  }

  /** A shaped text lexes to the first token of the name's text and then the rest. */
  lemma {:induction false} LexTail(gap1: string, cmp: CompareOp, gap2: string, value: string, trail: string)
    requires cmp in {EqOp, SwOp}
    requires gap1 != [] && forall i :: 0 <= i < |gap1| ==> IsRegexSpace(gap1[i])
    requires gap2 != [] && forall i :: 0 <= i < |gap2| ==> IsRegexSpace(gap2[i])
    requires '\"' !in value && forall i :: 0 <= i < |trail| ==> IsSpace(trail[i])
    ensures Lex(gap1 + (OperatorText(cmp) + (gap2 + ("\"" + (value + ("\"" + trail))))))
            == [OperatorToken(cmp), Token(StringLit, Unescape(LiteralText(value, trail)))]
  {
    hide Lex;
    hide Unescape;
    var op := OperatorText(cmp);
    var literal := "\"" + (value + ("\"" + trail));
    LexLiteral(value, trail);
    LexSpaces(gap2, literal);
    ScanWord(op, gap2 + literal);
    OperatorWord(cmp);
    LexScanned(op, gap2 + literal, OperatorToken(cmp));
    LexSpaces(gap1, op + (gap2 + literal));
  }

  lemma OperatorWord(cmp: CompareOp)
    requires cmp in {EqOp, SwOp}
    ensures WordToken(OperatorText(cmp)) == OperatorToken(cmp)
  {
    assert ToLower("eq") == "eq";
    assert ToLower("sw") == "sw";
  }

  lemma {:induction false} ParseComparison(m: QuickMatch)
    requires m.cmp in {EqOp, SwOp} && !IsSchemaName(m.attr)
    ensures G.ParseTokens([Token(Ident, m.attr), OperatorToken(m.cmp), Token(StringLit, m.value)]) == Ok(Some(Comparison(m)))
  {
    PrintParseRoundTrip(Comparison(m), Full);
    var operands := Cons(OperatorToken(m.cmp), Cons(Token(StringLit, m.value), []));
    assert PrintPath(Comparison(m).path, Full, operands) == Cons(Token(Ident, m.attr), operands);
    assert PrintBare(Comparison(m), Full, []) == PrintPath(Comparison(m).path, Full, operands);
    assert Tokens(Comparison(m), Full) == Cons(Token(Ident, m.attr), operands);
    assert Tokens(Comparison(m), Full) == [Token(Ident, m.attr), OperatorToken(m.cmp), Token(StringLit, m.value)];
  }

  /** No expression starts with a token other than a name, an opening parenthesis or `not (`. */
  lemma {:induction false} ParseOtherStart(ts: seq<Token>)
    requires ts != [] && ts[0].kind !in {Ident, LParen}
    requires ts[0].kind == Not ==> G.Current(ts[1..]).kind != LParen
    ensures G.ParseTokens(ts).Err?
  {
    if ts[0].kind == Not {
      assert G.Current(G.Advance(ts)).kind != LParen;
    } else {
      assert G.ParseAttrPath(ts).Failure?;
      assert G.ParseAttrExpr(ts).Failure?;
    }
    assert G.ParseOperand(ts).Failure?;
  }

  lemma {:induction false} Trimmed(s: string) returns (lead: string, trail: string)
    ensures s == lead + (TrimRight(TrimLeft(s)) + trail)
    ensures forall i :: 0 <= i < |lead| ==> IsAsciiSpace(lead[i])
    ensures forall i :: 0 <= i < |trail| ==> IsAsciiSpace(trail[i])
  {
    var left := TrimLeft(s);
    var inner := TrimRight(left);
    TrimLeftSpaces(s);
    TrimRightSpaces(left);
    hide TrimLeft;
    hide TrimRight;
    lead, trail := s[..|s| - |left|], left[|inner|..];
    assert left == inner + trail;
  }

  lemma {:induction false} TrimLeftSpaces(s: string)
    ensures forall i :: 0 <= i < |s| - |TrimLeft(s)| ==> IsAsciiSpace(s[i])
  {
    if s != [] && IsAsciiSpace(s[0]) {
      TrimLeftSpaces(s[1..]);
    }
  }

  lemma {:induction false} TrimRightSpaces(s: string)
    ensures forall i :: |TrimRight(s)| <= i < |s| ==> IsAsciiSpace(s[i])
  {
    if s != [] && IsAsciiSpace(s[|s| - 1]) {
      TrimRightSpaces(s[..|s| - 1]);
    }
  }

  /** Parsing a shaped text that stands between white space. */
  lemma {:induction false} ParseShaped(lead: string, inner: string, trail: string, gap1: string, gap2: string, m: QuickMatch)
    requires m.cmp in {EqOp, SwOp} && Shape(inner, m.attr, gap1, OperatorText(m.cmp), gap2, m.value)
    requires forall i :: 0 <= i < |lead| ==> IsAsciiSpace(lead[i])
    requires forall i :: 0 <= i < |trail| ==> IsAsciiSpace(trail[i])
    ensures var r := P.ParseFilterSpec(lead + (inner + trail));
            if IsAttributeName(m.attr)
            then r == Ok(Some(Comparison(m.(value := Unescape(LiteralText(m.value, trail))))))
            else r.Err?
  {
    hide Lex;
    hide Unescape;
    hide G.ParseTokens;
    var tail := gap1 + (OperatorText(m.cmp) + (gap2 + ("\"" + (m.value + ("\"" + trail)))));
    assert inner + trail == m.attr + tail;
    LexSpaces(lead, inner + trail);
    LexTail(gap1, m.cmp, gap2, m.value, trail);
    var text := Unescape(LiteralText(m.value, trail));
    if Decimal.IsDigit(m.attr[0]) {
      ParseDigitFirst(m.attr + tail);
    } else {
      var t := WordToken(m.attr);
      ScanWord(m.attr, tail);
      LexScanned(m.attr, tail, t);
      var operands := [OperatorToken(m.cmp), Token(StringLit, text)];
      WordKind(m.attr);
      if IsAttributeName(m.attr) {
        assert [t] + operands == [t, OperatorToken(m.cmp), Token(StringLit, text)];
        ParseComparison(m.(value := text));
      } else {
        assert ([t] + operands)[1..] == operands;
        ParseOtherStart([t] + operands);
      }
    }
  }

  lemma WordKind(word: string)
    ensures var t := WordToken(word); t.kind != LParen && (t == Token(Ident, word) <==> ToLower(word) !in KEYWORDS)
    ensures WordToken(word).kind == Ident ==> WordToken(word) == Token(Ident, word)
  {
  }

  lemma {:induction false} ParseDigitFirst(s: string)
    requires s != [] && Decimal.IsDigit(s[0])
    ensures P.ParseFilterSpec(s).Err?
  {
    hide Lex;
    hide G.ParseTokens;
    var (t, n) := ScanToken(s);
    assert t.kind == Number;
    hide ScanToken;
    assert s[..n] + s[n..] == s;
    LexScanned(s[..n], s[n..], t);
    ParseOtherStart([t] + Lex(s[n..]));
  }

  lemma QuickShape(filter: string)
    requires Quick(filter).Some?
    ensures var m := Quick(filter).value;
            m.cmp in {EqOp, SwOp} && Matches(TrimRight(TrimLeft(filter)), OperatorText(m.cmp), m.attr, m.value)
  {
    var m := Quick(filter).value;
    hide MatchSimple;
    ScanIsRegex(TrimRight(TrimLeft(filter)), OperatorText(m.cmp), m.attr, m.value);
  }

  /**
   * The fast path refines the parser: when it answers, the full parser gives the same
   * comparison exactly when the name is one the lexer reads as an identifier and the value
   * has no escape sequence; on a name that is not, the full parser reports an error.
   */
  lemma QuickFilterRefinesParser(filter: string)
    requires Quick(filter).Some?
    ensures var m := Quick(filter).value;
            P.ParseFilterSpec(filter) == Ok(Some(Comparison(m))) <==> IsAttributeName(m.attr) && IsPlainValue(m.value)
    ensures !IsAttributeName(Quick(filter).value.attr) ==> P.ParseFilterSpec(filter).Err?
  {
    hide P.ParseFilterSpec;
    hide Unescape;
    hide Shape;
    hide IsAttributeName;
    hide IsPlainValue;
    hide LiteralText;
    QuickShape(filter);
    hide Quick;
    hide TrimLeft;
    hide TrimRight;
    var m := Quick(filter).value;
    var inner := TrimRight(TrimLeft(filter));
    var lead, trail := Trimmed(filter);
    var gap1, gap2 :| Shape(inner, m.attr, gap1, OperatorText(m.cmp), gap2, m.value);
    ParseShaped(lead, inner, trail, gap1, gap2, m);
    LiteralValue(m.value, trail);
  }
}
