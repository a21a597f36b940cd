/** What names, numbers, white space and punctuation in ASCII are read as. */
module FilterLexemes {
  import opened Wrappers
  import opened FilterSyntax
  import opened FilterLexer
  import opened FilterText
  import opened QuickFilter
  import Decimal

  // ------------------------------------------------------------------ tokens

  predicate IsAsciiLetter(c: char) {
    65 <= c as int <= 90 || 97 <= c as int <= 122
  }

  predicate IsAsciiDigit(c: char) {
    48 <= c as int <= 57
  }

  predicate IsBlank(c: char) {
    c as int in {9, 10, 11, 12, 13, 32}
  }

  /** An attribute name (section 2.1 of RFC 7643), or one with colons, as in a URN. */
  predicate IsName(name: string) {
    && name != "" && (IsAsciiLetter(name[0]) || name[0] == '_')
    && forall i :: 0 <= i < |name| ==> IsAsciiLetter(name[i]) || IsAsciiDigit(name[i]) || name[i] in {'_', '-', ':'}
  }

  /** The text ends a name or a number that stands before it. */
  predicate Ends(rest: string) {
    rest == "" || IsBlank(rest[0]) || rest[0] in {'(', ')', '[', ']', '\"'}
  }

  lemma EndsTokens(rest: string)
    requires Ends(rest)
    ensures rest == "" || (!IsIdentPart(rest[0]) && !IsNumberPart(rest[0]))
  {
  }

  /** A name is one token, and a keyword if it is one in any case. */
  lemma NamesAreRead(name: string, rest: string)
    requires IsName(name) && Ends(rest)
    ensures Lex(name + rest) == [WordToken(name)] + Lex(rest)
  {
    hide WordToken;
    EndsTokens(rest);
    ScanWord(name, rest);
    LexScanned(name, rest, WordToken(name));
    hide Lex;
  }

  predicate IsSign(sign: string) {
    sign == "" || sign == "-"
  }

  lemma NumbersAreScanned(text: string, rest: string)
    requires text != "" && (IsAsciiDigit(text[0]) || text[0] == '-') && Ends(rest)
    requires forall i :: 1 <= i < |text| ==> IsAsciiDigit(text[i]) || text[i] == '.'
    ensures Lex(text + rest) == [Token(Number, text)] + Lex(rest)
  {
    hide Lex;
    hide ScanToken;
    var s := text + rest;
    EndsTokens(rest);
    SpanExact(text[1..], rest, IsNumberPart);
    assert s[1..] == text[1..] + rest;
    assert s[..|text|] == text;
    NumberScanned(s);
    LexScanned(text, rest, Token(Number, text));
  }

  /** A text with a point is no int64, and a float64 exactly when it has no other point, no other character and some digit. */
  lemma PointedNumber(text: string)
    requires text != "" && text[0] != '+' && '.' in Unsigned(text)
    ensures NumberValue(text) == if IsFloatLiteral(text) then Float(text) else Str(text)
  {
    var digits := Unsigned(text);
    var i :| 0 <= i < |digits| && digits[i] == '.';
    assert !Decimal.AllDigits(digits);
    hide IsFloatLiteral;
  }

  /** An integer is one token, an int64 if it fits and a float64 otherwise. */
  lemma IntegersAreRead(sign: string, digits: string, rest: string)
    requires IsSign(sign) && digits != "" && Decimal.AllDigits(digits) && Ends(rest)
    ensures Lex((sign + digits) + rest) == [Token(Number, sign + digits)] + Lex(rest)
    ensures var value: int := Decimal.NatValue(digits);
            var n := if sign == "-" then -value else value;
            NumberValue(sign + digits) == if Decimal.IsInt64(n) then Int(n) else Float(sign + digits)
  {
    hide Lex;
    NumbersAreScanned(sign + digits, rest);
    IntegerValue(sign, digits);
    hide *;
  }

  lemma IntegerValue(sign: string, digits: string)
    requires IsSign(sign) && digits != "" && Decimal.AllDigits(digits)
    ensures var value: int := Decimal.NatValue(digits);
            var n := if sign == "-" then -value else value;
            NumberValue(sign + digits) == if Decimal.IsInt64(n) then Int(n) else Float(sign + digits)
  {
    Decimal.SignedExactly(digits);
    assert sign == "" ==> sign + digits == digits;
    IntegerIsFloat(sign, digits);
    hide IsFloatLiteral;
    hide Decimal.ParseInt64;
  }

  lemma IntegerIsFloat(sign: string, digits: string)
    requires IsSign(sign) && digits != "" && Decimal.AllDigits(digits)
    ensures IsFloatLiteral(sign + digits)
  {
    assert Decimal.IsDigit(digits[0]);
    assert Unsigned(sign + digits) == digits;
  }

  /** Digits around one point are one token and a float64, and so are those after or before it alone. */
  lemma FractionsAreRead(sign: string, whole: string, fraction: string, rest: string)
    requires IsSign(sign) && Decimal.AllDigits(whole) && Decimal.AllDigits(fraction) && whole + fraction != "" && Ends(rest)
    ensures var text := sign + (whole + ("." + fraction));
            NumberValue(text) == Float(text) && (sign + whole != "" ==> Lex(text + rest) == [Token(Number, text)] + Lex(rest))
  {
    hide Lex;
    var text, body := sign + (whole + ("." + fraction)), whole + ("." + fraction);
    if sign + whole != "" {
      NumbersAreScanned(text, rest);
    }
    assert Unsigned(text) == body && body[|whole|] == '.';
    PointedNumber(text);
    FractionIsFloat(text, whole, fraction);
    hide IsFloatLiteral;
    hide NumberValue;
  }

  lemma FractionIsFloat(text: string, whole: string, fraction: string)
    requires text != "" && Unsigned(text) == whole + ("." + fraction)
    requires Decimal.AllDigits(whole) && Decimal.AllDigits(fraction) && whole + fraction != ""
    ensures IsFloatLiteral(text)
  {
    var body := whole + ("." + fraction);
    assert Decimal.IsDigit(body[if whole != "" then 0 else 1]);
    assert forall i :: 0 <= i < |body| && body[i] == '.' ==> i == |whole|;
  }

  /** With two points it is a text. */
  lemma TwoPointsAreText(a: string, b: string, c: string)
    requires forall i :: 0 <= i < |a| ==> Decimal.IsDigit(a[i]) || a[i] in {'-', '.'}
    ensures var text := a + ("." + (b + ("." + c))); NumberValue(text) == Str(text)
  {
    var text := a + ("." + (b + ("." + c)));
    var digits := Unsigned(text);
    var k := |text| - |digits|;
    var i, j := |a| - k, |a| + 1 + |b| - k;
    assert text[|a|] == '.' && text[|a| + 1 + |b|] == '.';
    assert digits[i] == '.' && digits[j] == '.';
    PointedNumber(text);
    assert !IsPointed(digits);
  }

  /** White space in front does not count, and each bracket and point is a token of its own. */
  lemma BlanksAndPunctuation(c: char, rest: string)
    ensures IsBlank(c) ==> Lex([c] + rest) == Lex(rest)
    ensures c == '(' ==> Lex([c] + rest) == [Token(LParen, "(")] + Lex(rest)
    ensures c == ')' ==> Lex([c] + rest) == [Token(RParen, ")")] + Lex(rest)
    ensures c == '[' ==> Lex([c] + rest) == [Token(LBracket, "[")] + Lex(rest)
    ensures c == ']' ==> Lex([c] + rest) == [Token(RBracket, "]")] + Lex(rest)
    ensures c == '.' ==> Lex([c] + rest) == [Token(Dot, ".")] + Lex(rest)
  {
    assert ([c] + rest)[0] == c && ([c] + rest)[1..] == rest;
    if IsBlank(c) {
      LexAfterSpace(c, rest);
    } else if c in {'(', ')', '[', ']', '.'} {
      LexScanned([c], rest, ScanToken([c] + rest).0);
    }
    hide Lex;
  }

  // ------------------------------------------------------------------ the fast path

  predicate IsQuickName(name: string) {
    name != "" && forall i :: 0 <= i < |name| ==> IsAsciiLetter(name[i]) || IsAsciiDigit(name[i]) || name[i] == '_'
  }

  /** `\s` has no vertical tab. */
  predicate IsGap(gap: string) {
    gap != "" && forall i :: 0 <= i < |gap| ==> gap[i] as int in {9, 10, 12, 13, 32}
  }

  predicate AllBlank(s: string) {
    forall i :: 0 <= i < |s| ==> IsBlank(s[i])
  }

  lemma {:induction false} TrimsLead(lead: string, s: string)
    requires AllBlank(lead) && s != "" && !IsBlank(s[0])
    ensures TrimLeft(lead + s) == s
  {
    if lead == "" {
      assert lead + s == s;
    } else {
      assert (lead + s)[1..] == lead[1..] + s;
      TrimsLead(lead[1..], s);
    }
  }

  lemma {:induction false} TrimsTrail(s: string, trail: string)
    requires AllBlank(trail) && s != "" && !IsBlank(s[|s| - 1])
    ensures TrimRight(s + trail) == s
  {
    if trail == "" {
      assert s + trail == s;
    } else {
      var n := |trail| - 1;
      assert (s + trail)[..|s + trail| - 1] == s + trail[..n];
      TrimsTrail(s, trail[..n]);
    }
  }

  /** The fast path answers every such text: blanks around it, white space around the operator, no quote in the value. */
  lemma QuickAnswers(lead: string, name: string, gap1: string, cmp: CompareOp, gap2: string, value: string, trail: string)
    requires AllBlank(lead) && AllBlank(trail) && IsQuickName(name) && IsGap(gap1) && IsGap(gap2)
    requires cmp in {EqOp, SwOp} && '\"' !in value
    ensures var inner := name + (gap1 + ((if cmp.EqOp? then "eq" else "sw") + (gap2 + ("\"" + (value + "\"")))));
            Quick(lead + (inner + trail)) == Some(QuickMatch(name, cmp, value))
  {
    hide MatchSimple;
    hide Shape;
    var op := if cmp.EqOp? then "eq" else "sw";
    var inner := name + (gap1 + (op + (gap2 + ("\"" + (value + "\"")))));
    Ending(name, gap1, op, gap2, value);
    TrimsLead(lead, inner + trail);
    TrimsTrail(inner, trail);
    hide TrimLeft;
    hide TrimRight;
    Shaped(name, gap1, op, gap2, value);
    ShapeIsScanned(inner, name, gap1, op, gap2, value);
    if cmp.SwOp? {
      NotBoth(inner, name, gap1, gap2, value);
    }
  }

  lemma Shaped(name: string, gap1: string, op: string, gap2: string, value: string)
    requires IsQuickName(name) && IsGap(gap1) && IsGap(gap2) && '\"' !in value
    ensures Shape(name + (gap1 + (op + (gap2 + ("\"" + (value + "\""))))), name, gap1, op, gap2, value)
  {
  }

  lemma Ending(name: string, gap1: string, op: string, gap2: string, value: string)
    requires IsQuickName(name)
    ensures var inner := name + (gap1 + (op + (gap2 + ("\"" + (value + "\"")))));
            inner != "" && inner[0] == name[0] && !IsBlank(inner[0]) && inner[|inner| - 1] == '\"'
  {
  }

  /** A text with `sw` is none with `eq`. */
  lemma NotBoth(s: string, name: string, gap1: string, gap2: string, value: string)
    requires Shape(s, name, gap1, "sw", gap2, value)
    ensures MatchSimple(s, "eq") == None
  {
    var literal := "\"" + (value + "\"");
    var afterGap := "sw" + (gap2 + literal);
    SpanExact(name, gap1 + afterGap, IsRegexWord);
    assert s[|name|..] == gap1 + afterGap;
    GapExact(gap1, afterGap);
    assert afterGap[0] == 's';
    hide MatchLiteral;
  }

  /** And of the name it answers with there is nothing else. */
  lemma QuickNames(filter: string)
    requires Quick(filter).Some?
    ensures IsQuickName(Quick(filter).value.attr) && '\"' !in Quick(filter).value.value && Quick(filter).value.cmp in {EqOp, SwOp}
  {
    QuickShape(filter);
    hide Quick;
  }
}
