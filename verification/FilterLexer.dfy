/** The filter lexer: a scanner over the bytes of the input, one char per byte. */
module FilterLexer {
  import opened FilterSyntax
  import Decimal

  /** `unicode.IsSpace` on one byte read as a Latin-1 rune. */
  predicate IsSpace(c: char) {
    '\t' <= c <= '\r' || c == ' ' || c as int in {0x85, 0xA0}
  }

  /** `unicode.IsLetter` on one byte read as a Latin-1 rune. */
  predicate IsLetter(c: char) {
    || 'a' <= c <= 'z'
    || 'A' <= c <= 'Z'
    || c as int in {0xAA, 0xB5, 0xBA}
    || (0xC0 <= c as int <= 0xFF && c as int !in {0xD7, 0xF7})
  }

  predicate IsIdentStart(c: char) {
    IsLetter(c) || c == '_'
  }

  predicate IsIdentPart(c: char) {
    IsLetter(c) || Decimal.IsDigit(c) || c in {'_', ':', '-'}
  }

  predicate IsNumberStart(c: char) {
    Decimal.IsDigit(c) || c == '-'
  }

  predicate IsNumberPart(c: char) {
    Decimal.IsDigit(c) || c == '.'
  }

  function ToLower(s: string): (r: string)
    ensures |r| == |s|
  {
    seq(|s|, i requires 0 <= i < |s| => if 'A' <= s[i] <= 'Z' then s[i] - 'A' + 'a' else s[i])
  }

  const KEYWORDS: map<string, TokenKind> := map[
    "and" := And, "or" := Or, "not" := Not,
    "eq" := Eq, "ne" := Ne, "co" := Co, "sw" := Sw, "ew" := Ew,
    "gt" := Gt, "lt" := Lt, "ge" := Ge, "le" := Le, "pr" := Pr,
    "true" := Boolean, "false" := Boolean, "null" := NullLit
  ]

  /** The token of a word: a keyword in any case, else an identifier. */
  function WordToken(word: string): (t: Token)
    ensures t.kind != Eof
  {
    var lower := ToLower(word);
    if lower !in KEYWORDS then Token(Ident, word)
    else if KEYWORDS[lower] in {Boolean, NullLit} then Token(KEYWORDS[lower], lower)
    else Token(KEYWORDS[lower], word)
  }

  /** Keywords are the same in any case, and truth values and null are read in lower case. */
  lemma WordsInAnyCase(a: string, b: string)
    requires ToLower(a) == ToLower(b)
    ensures WordToken(a).kind == WordToken(b).kind
    ensures WordToken(a).value == if WordToken(a).kind in {Boolean, NullLit} then ToLower(a) else a
    ensures WordToken(a).kind == Ident <==>
              ToLower(b) !in {"and", "or", "not", "eq", "ne", "co", "sw", "ew", "gt", "lt", "ge", "le", "pr", "true", "false", "null"}
  {
    hide ToLower;
  }

  /** Replaces each occurrence of the two-character `pattern`, from left to right, by `replacement`. */
  function ReplaceAll(s: string, first: char, second: char, replacement: char): (r: string)
    ensures |r| <= |s|
  {
    if |s| < 2 then s
    else if s[0] == first && s[1] == second then [replacement] + ReplaceAll(s[2..], first, second, replacement)
    else [s[0]] + ReplaceAll(s[1..], first, second, replacement)
  }

  /** Four global replacements, one after the other. */
  function Unescape(s: string): string {
    var s1 := ReplaceAll(s, '\\', '\"', '\"');
    var s2 := ReplaceAll(s1, '\\', '\\', '\\');
    var s3 := ReplaceAll(s2, '\\', 'n', '\n');
    ReplaceAll(s3, '\\', 't', '\t')
  }

  /** The length of the longest prefix of characters in `p`. */
  function SpanLength(s: string, p: char -> bool): (n: nat)
    ensures n <= |s|
  {
    if s == [] || !p(s[0]) then 0 else 1 + SpanLength(s[1..], p)
  }

  /** The number of characters before the quote that closes a string literal. */
  function StringLength(s: string): (n: nat)
    ensures n <= |s|
  {
    if s == [] || s[0] == '\"' then 0
    else if s[0] == '\\' && |s| > 1 then 2 + StringLength(s[2..])
    else 1 + StringLength(s[1..])
  }

  /** The token at the front of an input without leading white space, and its length. */
  function ScanToken(s: string): (r: (Token, nat))
    requires s != []
    ensures 0 < r.1 <= |s| && r.0.kind != Eof
  {
    var c := s[0];
    if c == '(' then (Token(LParen, "("), 1)
    else if c == ')' then (Token(RParen, ")"), 1)
    else if c == '[' then (Token(LBracket, "["), 1)
    else if c == ']' then (Token(RBracket, "]"), 1)
    else if c == '.' then (Token(Dot, "."), 1)
    else if c == '\"' then
      var n := StringLength(s[1..]);
      (Token(StringLit, Unescape(s[1..1 + n])), if 1 + n < |s| then n + 2 else n + 1)
    else if IsNumberStart(c) then
      var n := 1 + SpanLength(s[1..], IsNumberPart);
      (Token(Number, s[..n]), n)
    else if IsIdentStart(c) then
      var n := 1 + SpanLength(s[1..], IsIdentPart);
      (WordToken(s[..n]), n)
    else
      (Token(Ident, [c]), 1)
  }

  /** All tokens of the input before EOF. */
  function Lex(s: string): seq<Token> {
    var start := SpanLength(s, IsSpace);
    if start == |s| then []
    else
      var (t, n) := ScanToken(s[start..]);
      [t] + Lex(s[start + n..])
  }

  lemma {:induction false} LexStep(s: string, start: nat, t: Token, n: nat)
    requires start == SpanLength(s, IsSpace) < |s|
    requires (t, n) == ScanToken(s[start..])
    ensures Lex(s) == [t] + Lex(s[start + n..])
  {
    hide ScanToken;
  }

  lemma NumberScanned(s: string)
    requires s != [] && IsNumberStart(s[0])
    ensures var n := 1 + SpanLength(s[1..], IsNumberPart); ScanToken(s) == (Token(Number, s[..n]), n)
  {
    hide Unescape;
  }

  class Lexer {
    const input: string
    var pos: nat

    constructor (input: string)
      ensures this.input == input && pos == 0
    {
      this.input := input;
      pos := 0;
    }

    ghost predicate Valid()
      reads this
    {
      pos <= |input|
    }

    ghost function Rest(): string
      reads this
      requires Valid()
    {
      input[pos..]
    }

    /**
     * Returns the next token of `Lex`, or EOF when none is left; `pos` stays in range and
     * grows strictly on every token that is not EOF.
     */
    method NextToken() returns (t: Token)
      requires Valid()
      modifies this
      ensures Valid()
      ensures t.kind != Eof ==> old(pos) < pos && Lex(old(Rest())) == [t] + Lex(Rest())
      ensures t.kind == Eof ==> t == EOF_TOKEN && pos == |input| && Lex(old(Rest())) == []
    {
      hide ScanToken;
      ghost var before := Rest();
      SkipWhitespace();
      if pos >= |input| {
        return EOF_TOKEN;
      }
      ghost var start := SpanLength(before, IsSpace);
      assert before[start..] == Rest();
      ghost var from := pos;
      t := ReadToken();
      LexStep(before, start, t, pos - from);
      assert before[start + (pos - from)..] == Rest();
    }

    method ReadToken() returns (t: Token)
      requires Valid() && pos < |input|
      modifies this
      ensures Valid() && (t, pos - old(pos)) == ScanToken(old(Rest()))
    {
      hide WordToken;
      hide Unescape;
      hide StringLength;
      hide SpanLength;
      var ch := input[pos];
      match ch
      case '(' => pos := pos + 1; t := Token(LParen, "(");
      case ')' => pos := pos + 1; t := Token(RParen, ")");
      case '[' => pos := pos + 1; t := Token(LBracket, "[");
      case ']' => pos := pos + 1; t := Token(RBracket, "]");
      case '.' => pos := pos + 1; t := Token(Dot, ".");
      case '\"' => t := ReadString();
      case _ =>
        if IsNumberStart(ch) {
          t := ReadNumber();
        } else if IsIdentStart(ch) {
          t := ReadIdentifier();
        } else {
          pos := pos + 1;
          t := Token(Ident, [ch]);
        }
    }

    method SkipWhitespace()
      requires Valid()
      modifies this
      ensures Valid() && pos == old(pos) + SpanLength(old(Rest()), IsSpace)
    {
      while pos < |input| && IsSpace(input[pos])
        invariant old(pos) <= pos <= |input|
        invariant SpanLength(old(Rest()), IsSpace) == pos - old(pos) + SpanLength(Rest(), IsSpace)
      {
        assert Rest()[1..] == input[pos + 1..];
        pos := pos + 1;
      }
    }

    method ReadString() returns (t: Token)
      requires Valid() && pos < |input| && input[pos] == '\"'
      modifies this
      ensures Valid() && (t, pos - old(pos)) == ScanToken(old(Rest()))
    {
      hide WordToken;
      hide Unescape;
      hide SpanLength;
      ghost var whole := Rest();
      pos := pos + 1;
      var start := pos;
      assert whole[1..] == Rest();
      while pos < |input| && input[pos] != '\"'
        invariant start <= pos <= |input|
        invariant StringLength(whole[1..]) == pos - start + StringLength(Rest())
      {
        if input[pos] == '\\' && pos + 1 < |input| {
          assert Rest()[2..] == input[pos + 2..];
          pos := pos + 2;
        } else {
          assert Rest()[1..] == input[pos + 1..];
          pos := pos + 1;
        }
      }
      var value := input[start..pos];
      assert value == whole[1..1 + (pos - start)];
      if pos < |input| {
        pos := pos + 1;
      }
      t := Token(StringLit, Unescape(value));
    }

    method ReadNumber() returns (t: Token)
      requires Valid() && pos < |input| && IsNumberStart(input[pos])
      modifies this
      ensures Valid() && (t, pos - old(pos)) == ScanToken(old(Rest()))
    {
      hide Unescape;
      ghost var whole := Rest();
      NumberScanned(whole);
      hide ScanToken;
      var start := pos;
      if input[pos] == '-' {
        pos := pos + 1;
        assert whole[1..] == Rest();
      } else {
        assert SpanLength(whole, IsNumberPart) == 1 + SpanLength(whole[1..], IsNumberPart);
      }
      while pos < |input| && IsNumberPart(input[pos])
        invariant start <= pos <= |input|
        invariant 1 + SpanLength(whole[1..], IsNumberPart) == pos - start + SpanLength(Rest(), IsNumberPart)
      {
        assert Rest()[1..] == input[pos + 1..];
        pos := pos + 1;
      }
      assert input[start..pos] == whole[..pos - start];
      t := Token(Number, input[start..pos]);
    }

    method ReadIdentifier() returns (t: Token)
      requires Valid() && pos < |input| && IsIdentStart(input[pos])
      modifies this
      ensures Valid() && (t, pos - old(pos)) == ScanToken(old(Rest()))
    {
      hide WordToken;
      hide Unescape;
      hide StringLength;
      ghost var whole := Rest();
      var start := pos;
      assert SpanLength(whole, IsIdentPart) == 1 + SpanLength(whole[1..], IsIdentPart);
      while pos < |input| && IsIdentPart(input[pos])
        invariant start <= pos <= |input|
        invariant 1 + SpanLength(whole[1..], IsIdentPart) == pos - start + SpanLength(Rest(), IsIdentPart)
      {
        assert Rest()[1..] == input[pos + 1..];
        pos := pos + 1;
      }
      assert input[start..pos] == whole[..pos - start];
      t := WordToken(input[start..pos]);
    }
  }
}
