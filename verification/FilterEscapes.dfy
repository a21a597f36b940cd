/** How far the escape sequences of string literals are undone. */
module FilterEscapes {
  import opened FilterLexer

  /** A text as a client would write it: quotes, backslashes, line feeds and tabs are escaped. */
  function Escaped(s: string): string {
    if s == "" then ""
    else if s[0] == '\"' then ['\\', '\"'] + Escaped(s[1..])
    else AfterQuotes([s[0]]) + Escaped(s[1..])
  }

  /** What is left to be undone once the escaped quotes are: backslashes, line feeds and tabs. */
  function AfterQuotes(s: string): string {
    if s == "" then ""
    else if s[0] == '\\' then ['\\', '\\'] + AfterQuotes(s[1..])
    else AfterBackslashes([s[0]]) + AfterQuotes(s[1..])
  }

  function AfterBackslashes(s: string): string {
    if s == "" then ""
    else if s[0] == '\n' then ['\\', 'n'] + AfterBackslashes(s[1..])
    else AfterLineFeeds([s[0]]) + AfterBackslashes(s[1..])
  }

  function AfterLineFeeds(s: string): string {
    if s == "" then ""
    else if s[0] == '\t' then ['\\', 't'] + AfterLineFeeds(s[1..])
    else [s[0]] + AfterLineFeeds(s[1..])
  }

  /** The text has a backslash right before this letter. */
  predicate HasPair(s: string, c: char) {
    exists i :: 0 <= i < |s| - 1 && s[i] == '\\' && s[i + 1] == c
  }

  /** One step of a replacement: a pair that is replaced, or a character that is not. */
  lemma ReplacedPair(first: char, second: char, to: char, rest: string)
    ensures ReplaceAll([first, second] + rest, first, second, to) == [to] + ReplaceAll(rest, first, second, to)
  {
    assert ([first, second] + rest)[2..] == rest;
  }

  lemma TwoInFront(a: char, b: char, rest: string)
    ensures [a] + ([b] + rest) == [a, b] + rest
  {
  }

  lemma KeptChar(c: char, rest: string, second: char, to: char)
    requires c != '\\' || rest == "" || rest[0] != second
    ensures ReplaceAll([c] + rest, '\\', second, to) == [c] + ReplaceAll(rest, '\\', second, to)
  {
    assert ([c] + rest)[1..] == rest;
  }

  lemma One(c: char)
    ensures AfterLineFeeds([c]) == if c == '\t' then ['\\', 't'] else [c]
    ensures AfterBackslashes([c]) == if c == '\n' then ['\\', 'n'] else AfterLineFeeds([c])
    ensures AfterQuotes([c]) == if c == '\\' then ['\\', '\\'] else AfterBackslashes([c])
    ensures c != '\"' ==> Escaped([c]) == AfterQuotes([c])
  {
    assert [c][1..] == "";
  }

  lemma {:induction false} QuotesUndone(s: string)
    ensures ReplaceAll(Escaped(s), '\\', '\"', '\"') == AfterQuotes(s)
    ensures s != "" ==> Escaped(s) != "" && Escaped(s)[0] != '\"'
  {
    if s != "" {
      var c, rest := s[0], Escaped(s[1..]);
      QuotesUndone(s[1..]);
      One(c);
      if c == '\"' {
        ReplacedPair('\\', '\"', '\"', rest);
      } else {
        PieceKept(AfterQuotes([c]), rest, '\"', '\"');
      }
    }
  }

  /** An escape sequence of another kind, or a plain character, is kept. */
  lemma PieceKept(piece: string, rest: string, second: char, to: char)
    requires |piece| == 1 || (|piece| == 2 && piece[0] == '\\' && piece[1] != second)
    requires piece[|piece| - 1] != '\\' || rest == "" || rest[0] != second
    ensures ReplaceAll(piece + rest, '\\', second, to) == piece + ReplaceAll(rest, '\\', second, to)
  {
    hide ReplaceAll;
    if |piece| == 1 {
      KeptChar(piece[0], rest, second, to);
      assert piece == [piece[0]];
    } else {
      PairKept(piece[0], piece[1], rest, second, to);
      assert piece == [piece[0], piece[1]];
    }
  }

  lemma PairKept(a: char, b: char, rest: string, second: char, to: char)
    requires b != second && (b != '\\' || rest == "" || rest[0] != second)
    ensures ReplaceAll([a, b] + rest, '\\', second, to) == [a, b] + ReplaceAll(rest, '\\', second, to)
  {
    hide ReplaceAll;
    KeptChar(b, rest, second, to);
    KeptChar(a, [b] + rest, second, to);
    TwoInFront(a, b, rest);
    TwoInFront(a, b, ReplaceAll(rest, '\\', second, to));
  }

  lemma {:induction false} BackslashesUndone(s: string)
    ensures ReplaceAll(AfterQuotes(s), '\\', '\\', '\\') == AfterBackslashes(s)
  {
    if s != "" {
      var c, rest := s[0], AfterQuotes(s[1..]);
      BackslashesUndone(s[1..]);
      One(c);
      if c == '\\' {
        ReplacedPair('\\', '\\', '\\', rest);
      } else {
        PieceKept(AfterBackslashes([c]), rest, '\\', '\\');
      }
    }
  }

  lemma PieceByPiece(c: char, rest: string)
    ensures AfterBackslashes([c] + rest) == (if c == '\n' then ['\\', 'n'] else AfterLineFeeds([c])) + AfterBackslashes(rest)
    ensures AfterLineFeeds([c] + rest) == AfterLineFeeds([c]) + AfterLineFeeds(rest)
  {
    One(c);
    assert ([c] + rest)[1..] == rest;
  }

  /** The line feeds of the rest are undone already. */
  ghost predicate IsUndone(s: string) {
    ReplaceAll(AfterBackslashes(s), '\\', 'n', '\n') == AfterLineFeeds(ReplaceAll(s, '\\', 'n', '\n'))
  }

  lemma LineFeedUndone(rest: string)
    requires IsUndone(rest)
    ensures IsUndone(['\n'] + rest)
  {
    hide AfterBackslashes;
    hide AfterLineFeeds;
    hide ReplaceAll;
    One('\n');
    PieceByPiece('\n', rest);
    ReplacedPair('\\', 'n', '\n', AfterBackslashes(rest));
    KeptChar('\n', rest, 'n', '\n');
    PieceByPiece('\n', ReplaceAll(rest, '\\', 'n', '\n'));
  }

  lemma PairUndone(rest: string)
    requires IsUndone(rest)
    ensures IsUndone(['\\'] + (['n'] + rest))
  {
    hide AfterBackslashes;
    hide AfterLineFeeds;
    hide ReplaceAll;
    One('\\');
    One('n');
    One('\n');
    var undone := AfterBackslashes(rest);
    PieceByPiece('\\', ['n'] + rest);
    PieceByPiece('n', rest);
    TwoInFront('\\', 'n', undone);
    TwoInFront('\\', 'n', rest);
    ReplacedPair('\\', 'n', '\n', undone);
    ReplacedPair('\\', 'n', '\n', rest);
    PieceByPiece('\n', ReplaceAll(rest, '\\', 'n', '\n'));
  }

  lemma OtherUndone(c: char, rest: string)
    requires IsUndone(rest) && c != '\n' && !(c == '\\' && rest != "" && rest[0] == 'n')
    ensures IsUndone([c] + rest)
  {
    FirstOfLineFeeds(rest);
    hide AfterBackslashes;
    hide AfterLineFeeds;
    hide ReplaceAll;
    One(c);
    PieceByPiece(c, rest);
    PieceKept(AfterLineFeeds([c]), AfterBackslashes(rest), 'n', '\n');
    KeptChar(c, rest, 'n', '\n');
    PieceByPiece(c, ReplaceAll(rest, '\\', 'n', '\n'));
  }

  /** A backslash of the text that stands before an `n` is taken for an escape by then. */
  lemma {:induction false} LineFeedsUndone(s: string)
    ensures IsUndone(s)
    decreases |s|
  {
    if s != "" {
      hide IsUndone;
      var c, rest := s[0], s[1..];
      assert s == [c] + rest;
      if c == '\n' {
        LineFeedsUndone(rest);
        LineFeedUndone(rest);
      } else if c == '\\' && rest != "" && rest[0] == 'n' {
        LineFeedsUndone(rest[1..]);
        PairUndone(rest[1..]);
        assert rest == ['n'] + rest[1..];
      } else {
        LineFeedsUndone(rest);
        OtherUndone(c, rest);
      }
    }
  }

  lemma FirstOfLineFeeds(s: string)
    ensures var e := AfterBackslashes(s); e != "" && e[0] == 'n' ==> s != "" && s[0] == 'n'
    ensures var e := AfterLineFeeds(s); e != "" && e[0] == 't' ==> s != "" && s[0] == 't'
  {
    if s != "" {
      One(s[0]);
    }
  }

  lemma {:induction false} TabsUndone(s: string)
    ensures ReplaceAll(AfterLineFeeds(s), '\\', 't', '\t') == ReplaceAll(s, '\\', 't', '\t')
    decreases |s|
  {
    if s != "" {
      var c, rest := s[0], AfterLineFeeds(s[1..]);
      One(c);
      assert s == [c] + s[1..];
      if c == '\t' {
        TabsUndone(s[1..]);
        ReplacedPair('\\', 't', '\t', rest);
        KeptChar(c, s[1..], 't', '\t');
      } else if c == '\\' && |s| > 1 && s[1] == 't' {
        TabsUndone(s[2..]);
        One('t');
        assert s[1..][1..] == s[2..];
        assert rest == ['t'] + AfterLineFeeds(s[2..]);
        ReplacedPair('\\', 't', '\t', AfterLineFeeds(s[2..]));
        assert ['\\'] + rest == ['\\', 't'] + AfterLineFeeds(s[2..]);
      } else {
        TabsUndone(s[1..]);
        FirstOfLineFeeds(s[1..]);
        KeptChar(c, rest, 't', '\t');
        KeptChar(c, s[1..], 't', '\t');
      }
    }
  }

  /** A replacement changes a text exactly when the pair occurs in it, and then makes it shorter. */
  lemma {:induction false} ReplacedExactly(s: string, c: char, to: char)
    ensures if HasPair(s, c) then |ReplaceAll(s, '\\', c, to)| < |s| else ReplaceAll(s, '\\', c, to) == s
    decreases |s|
  {
    if |s| >= 2 {
      if s[0] == '\\' && s[1] == c {
        assert HasPair(s, c);
      } else {
        ReplacedExactly(s[1..], c, to);
        if HasPair(s[1..], c) {
          var i :| 0 <= i < |s[1..]| - 1 && s[1..][i] == '\\' && s[1..][i + 1] == c;
          assert s[i + 1] == '\\' && s[i + 2] == c;
        } else if HasPair(s, c) {
          var i :| 0 <= i < |s| - 1 && s[i] == '\\' && s[i + 1] == c;
          assert s[1..][i - 1] == '\\' && s[1..][i] == c;
        }
      }
    }
  }

  /**
   * What a client escapes is read back exactly when no backslash of the text stands before an `n`
   * or a `t`: the replacements run one after the other, so such a backslash is undone twice.
   */
  lemma EscapedReadBackExactly(s: string)
    ensures Unescape(Escaped(s)) == ReplaceAll(ReplaceAll(s, '\\', 'n', '\n'), '\\', 't', '\t')
    ensures Unescape(Escaped(s)) == s <==> !HasPair(s, 'n') && !HasPair(s, 't')
  {
    var once := ReplaceAll(s, '\\', 'n', '\n');
    QuotesUndone(s);
    BackslashesUndone(s);
    LineFeedsUndone(s);
    TabsUndone(once);
    ReplacedExactly(s, 'n', '\n');
    ReplacedExactly(once, 't', '\t');
  }

  lemma PieceSkipped(piece: string, more: string)
    requires (|piece| == 1 && piece[0] !in {'\"', '\\'}) || (|piece| == 2 && piece[0] == '\\')
    ensures StringLength(piece + more) == |piece| + StringLength(more)
  {
    assert (piece + more)[|piece|..] == more;
  }

  /** An escaped text ends at the quote that is written after it. */
  lemma {:induction false} EscapedInsideQuotes(s: string, rest: string)
    ensures StringLength(Escaped(s) + ("\"" + rest)) == |Escaped(s)|
  {
    var tail := "\"" + rest;
    if s == "" {
      assert Escaped(s) + tail == tail;
    } else {
      EscapedInsideQuotes(s[1..], rest);
      FirstPiece(s);
      hide *;
      PieceInFront(if s[0] == '\"' then ['\\', '\"'] else AfterQuotes([s[0]]), Escaped(s[1..]), tail);
    }
  }

  lemma PieceInFront(piece: string, more: string, tail: string)
    requires (|piece| == 1 && piece[0] !in {'\"', '\\'}) || (|piece| == 2 && piece[0] == '\\')
    ensures StringLength((piece + more) + tail) == |piece| + StringLength(more + tail)
  {
    hide *;
    PieceSkipped(piece, more + tail);
    assert (piece + more) + tail == piece + (more + tail);
  }

  /** What stands for the first character. */
  lemma FirstPiece(s: string)
    requires s != ""
    ensures var piece := if s[0] == '\"' then ['\\', '\"'] else AfterQuotes([s[0]]);
            && Escaped(s) == piece + Escaped(s[1..])
            && ((|piece| == 1 && piece[0] !in {'\"', '\\'}) || (|piece| == 2 && piece[0] == '\\'))
  {
    One(s[0]);
    hide AfterQuotes;
  }
}
