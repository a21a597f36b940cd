/** What the database makes of the text of a translated filter. */
module SqlReading {
  import opened Wrappers
  import opened FilterSyntax
  import opened FilterLexer
  import opened FilterSql
  import FilterParser
  import FilterText
  import QuickFilter

  // ------------------------------------------------------------------ words and white space

  /** The word ends where `rest` begins. */
  predicate Ends(rest: string) {
    rest == "" || !IsWordChar(rest[0])
  }

  predicate IsWord(word: string) {
    word != "" && forall i :: 0 <= i < |word| ==> IsWordChar(word[i])
  }

  lemma {:induction false} SpanOfWord(word: string, rest: string)
    requires (forall i :: 0 <= i < |word| ==> IsWordChar(word[i])) && Ends(rest)
    ensures SpanLength(word + rest, IsWordChar) == |word|
  {
    if word == "" {
      assert word + rest == rest;
    } else {
      assert (word + rest)[1..] == word[1..] + rest;
      SpanOfWord(word[1..], rest);
    }
  }

  lemma SkipBlank(s: string)
    ensures Skip(" " + s) == Skip(s)
  {
    assert (" " + s)[1..] == s;
  }

  lemma WordRead(word: string, rest: string)
    requires IsWord(word) && Ends(rest)
    ensures ReadWord(word + rest) == (word, rest) && ReadWord(" " + (word + rest)) == (word, rest)
  {
    var text := word + rest;
    assert text[0] == word[0];
    SpanOfWord(word, rest);
    SkipBlank(text);
    assert text[..|word|] == word && text[|word|..] == rest;
  }

  lemma Found(c: char, s: string)
    requires !IsBlank(c)
    ensures Expect([c] + s, c) == Some(s) && Expect(" " + ([c] + s), c) == Some(s)
  {
    var text := [c] + s;
    assert text[1..] == s;
    SkipBlank(text);
  }

  /** Leading white space does not matter. */
  lemma UnaryAfterBlank(s: string, next: nat)
    ensures ReadUnary(" " + s, next) == ReadUnary(s, next)
  {
    SkipBlank(s);
    assert ReadColumn(" " + s) == ReadColumn(s);
  }

  lemma KeywordsAreWords()
    ensures IsWord("AND") && IsWord("OR") && IsWord("NOT") && IsWord("IS") && IsWord("NULL") && IsWord("LIKE")
    ensures IsWord("data") && IsWord(EXTRACT)
  {
  }

  // ------------------------------------------------------------------ columns

  /** The text can stand in a string literal as it is. */
  predicate IsClean(text: string) {
    '\'' !in text && '\0' !in text
  }

  lemma {:induction false} CleanLiteral(text: string, rest: string)
    requires IsClean(text) && (rest == "" || rest[0] != '\'')
    ensures ReadLiteral(text + ("'" + rest)) == Some((text, rest))
  {
    var all := text + ("'" + rest);
    if text == "" {
      assert all[1..] == rest;
    } else {
      CleanLiteral(text[1..], rest);
      assert all[1..] == text[1..] + ("'" + rest);
      assert [text[0]] + text[1..] == text;
    }
  }

  /** A literal that has begun with quotes never ends as if it had been written out in full. */
  lemma {:induction false} QuotesShift(quotes: string, text: string, rest: string)
    requires quotes != "" && (forall i :: 0 <= i < |quotes| ==> quotes[i] == '\'')
    ensures var r := ReadLiteral(text + ("'" + (")" + rest))); r.Some? ==> r.value.0 != quotes + text
    decreases |text|
  {
    var all := text + ("'" + (")" + rest));
    assert (quotes + text)[0] == '\'';
    if text == "" {
      assert all[0] == '\'' && all[1] == ')';
    } else if text[0] == '\'' {
      if |text| == 1 {
        assert all[2..] == ")" + rest;
        assert (quotes + text)[1] == '\'';
      } else if text[1] == '\'' {
        var more := quotes[1..] + "''";
        QuotesShift(more, text[2..], rest);
        assert all[2..] == text[2..] + ("'" + (")" + rest));
        assert (quotes + text)[1..] == more + text[2..];
        var r := ReadLiteral(all[2..]);
        assert r.Some? ==> (['\''] + r.value.0)[1..] == r.value.0;
      }
    }
  }

  /** A text with a quote or a NUL is not read back from the literal it is put into unescaped. */
  lemma {:induction false} UncleanLiteral(text: string, rest: string)
    requires !IsClean(text)
    ensures var r := ReadLiteral(text + ("'" + (")" + rest))); r.Some? ==> r.value.0 != text
  {
    var all := text + ("'" + (")" + rest));
    if text[0] == '\'' {
      if |text| == 1 {
        assert all[2..] == ")" + rest;
      } else if text[1] == '\'' {
        QuotesShift("'", text[2..], rest);
        assert all[2..] == text[2..] + ("'" + (")" + rest));
        assert text == ['\''] + ("'" + text[2..]);
      }
    } else if text[0] != '\0' {
      assert text == [text[0]] + text[1..];
      UncleanLiteral(text[1..], rest);
      assert all[1..] == text[1..] + ("'" + (")" + rest));
    }
  }

  /** The column is written so that it can be read. */
  predicate CleanColumn(c: SqlColumn) {
    c.JsonPath? ==> IsClean(c.path)
  }

  /** A name that is neither a keyword nor the function. */
  predicate IsColumnName(name: string) {
    IsWord(name) && name !in RESERVED && name != EXTRACT
  }

  lemma ColumnNames()
    ensures IsColumnName("id") && IsColumnName("external_id") && IsColumnName("user_name") && IsColumnName("display_name")
    ensures IsColumnName("created_at") && IsColumnName("updated_at")
  {
  }

  lemma NamesAreColumns(p: AttrPath)
    ensures AttrToColumn(p).Named? ==> IsColumnName(AttrToColumn(p).name)
  {
    ColumnNames();
    hide ToLower;
    hide IsColumnName;
  }

  lemma PathRead(path: string, k: string)
    ensures ReadColumn(ColumnText(JsonPath(path)) + k) == ReadPathLiteral(path + ("'" + (")" + k)))
  {
    var literal := path + ("'" + (")" + k));
    var argument := " " + ("'" + literal);
    var inside := "data" + ("," + argument);
    KeywordsAreWords();
    assert ColumnText(JsonPath(path)) + k == EXTRACT + ("(" + inside);
    WordRead(EXTRACT, "(" + inside);
    Found('(', inside);
    WordRead("data", "," + argument);
    Found(',', argument);
    Found('\'', literal);
    hide ReadPathLiteral;
    hide ReadWord;
    hide Expect;
    hide ColumnText;
    assert "(" + inside == ['('] + inside;
  }

  lemma ColumnRead(c: SqlColumn, k: string)
    requires CleanColumn(c) && (c.Named? ==> IsColumnName(c.name)) && (k == "" || k[0] == ' ')
    ensures ReadColumn(ColumnText(c) + k) == Some((c, k))
  {
    match c
    case Named(name) => WordRead(name, k);
    case JsonPath(path) =>
      PathRead(path, k);
      CleanLiteral(path, ")" + k);
      Found(')', k);
      hide ReadColumn;
      hide ColumnText;
      hide ReadLiteral;
      hide Expect;
  }

  lemma ColumnMisread(c: SqlColumn, k: string)
    requires !CleanColumn(c)
    ensures var r := ReadColumn(ColumnText(c) + k); r.Some? ==> r.value.0 != c
  {
    PathRead(c.path, k);
    UncleanLiteral(c.path, k);
    hide ReadColumn;
    hide ColumnText;
    hide ReadLiteral;
    hide Expect;
  }

  // ------------------------------------------------------------------ tests

  lemma ParamRead(c: SqlColumn, cmp: SqlCompare, k: string, next: nat)
    ensures ReadParam(c, cmp, " " + ("?" + k), next) == Read(CompareParam(c, cmp, next), k, next + 1)
  {
    Found('?', k);
    assert "?" + k == ['?'] + k;
  }

  lemma CompareRead(c: SqlColumn, cmp: SqlCompare, k: string, next: nat)
    ensures ReadTest(c, " " + (OperatorText(cmp) + (" " + ("?" + k))), next) == Read(CompareParam(c, cmp, next), k, next + 1)
  {
    var param := " " + ("?" + k);
    var text := OperatorText(cmp) + param;
    ParamRead(c, cmp, k, next);
    SkipBlank(text);
    assert text[|OperatorText(cmp)|..] == param;
    hide ReadParam;
    if cmp.SqlLike? {
      KeywordsAreWords();
      WordRead("LIKE", param);
      WordTest(c, "LIKE", param, next);
      hide ReadWord;
      hide ReadTest;
    } else if cmp.SqlNe? {
      assert Expect(param, '\'').None? by { SkipBlank("?" + k); }
    }
  }

  lemma NotNullRead(c: SqlColumn, k: string, next: nat)
    requires Ends(k)
    ensures ReadTest(c, " " + ("IS" + (" " + ("NOT" + (" " + ("NULL" + k))))), next) == Read(ColumnNotNull(c), k, next)
  {
    hide *;
    KeywordsAreWords();
    WordRead("NULL", k);
    var third := " " + ("NULL" + k);
    assert Ends(third) by { BlankEnds("NULL" + k); }
    WordRead("NOT", third);
    var second := " " + ("NOT" + third);
    assert Ends(second) by { BlankEnds("NOT" + third); }
    WordRead("IS", second);
    WordTest(c, "IS", second, next);
    NotNullWords(c, "IS" + second, second, third, k, next);
  }

  lemma BlankEnds(s: string)
    ensures Ends(" " + s)
  {
  }

  lemma NotNullWords(c: SqlColumn, first: string, second: string, third: string, k: string, next: nat)
    requires ReadWord(first) == ("IS", second) && ReadWord(second) == ("NOT", third) && ReadWord(third) == ("NULL", k)
    ensures ReadWordTest(c, first, next) == Read(ColumnNotNull(c), k, next)
  {
    hide ReadWord;
  }

  /** A test that starts with a word is none of the signs. */
  lemma WordTest(c: SqlColumn, word: string, rest: string, next: nat)
    requires IsWord(word)
    ensures ReadTest(c, " " + (word + rest), next) == ReadWordTest(c, word + rest, next)
  {
    var text := word + rest;
    SkipBlank(text);
    assert IsWordChar(word[0]) && text[0] == word[0];
    hide ReadWordTest;
    hide ReadParam;
    hide ReadWord;
  }

  lemma NotEmptyRead(c: SqlColumn, k: string, next: nat)
    ensures ReadTest(c, " " + ("!=" + (" " + ("'" + ("'" + k)))), next) == Read(ColumnNotEmpty(c), k, next)
  {
    var literal := "'" + k;
    var text := "!=" + (" " + ("'" + literal));
    SkipBlank(text);
    assert text[2..] == " " + ("'" + literal);
    Found('\'', literal);
    assert "'" + literal == ['\''] + literal;
    hide ReadWordTest;
    hide ReadParam;
  }

  lemma StartsNoGroup(c: SqlColumn, k: string, next: nat)
    requires (c.Named? ==> IsColumnName(c.name)) && (k == "" || k[0] == ' ')
    ensures ReadUnary(ColumnText(c) + k, next) == ReadComparison(ColumnText(c) + k, next)
  {
    hide ReadUnary;
    match c
    case Named(name) => StartsWithWord(name, k, next);
    case JsonPath(path) =>
      KeywordsAreWords();
      var rest := "(" + ("data" + ("," + (" " + ("'" + (path + ("'" + (")" + k)))))));
      assert ColumnText(c) + k == EXTRACT + rest;
      hide ColumnText;
      StartsWithWord(EXTRACT, rest, next);
  }

  lemma StartsWithWord(word: string, rest: string, next: nat)
    requires IsWord(word) && Ends(rest) && word != "NOT"
    ensures ReadUnary(word + rest, next) == ReadComparison(word + rest, next)
  {
    WordRead(word, rest);
    assert IsWordChar(word[0]) && (word + rest)[0] == word[0];
    assert Expect(word + rest, '(').None?;
    hide ReadWord;
    hide Expect;
    hide ReadComparison;
  }

  // ------------------------------------------------------------------ clauses

  lemma CloseEnds(k: string)
    ensures ReadWord(")" + k).0 == "" && Expect(")" + k, ')') == Some(k)
  {
    Found(')', k);
    assert ")" + k == [')'] + k;
  }

  /** What an opening parenthesis does. */
  lemma GroupRead(body: string, first: nat)
    ensures ReadUnary("(" + body, first) == Closed(ReadOr(body, first))
  {
    Found('(', body);
    assert "(" + body == ['('] + body;
    hide ReadOr;
    hide Expect;
  }

  lemma {:induction false} JoinRead(body: string, l: SqlExpr, op: LogicOp, right: string, r: SqlExpr, k: string,
                                    first: nat, mid: nat, next: nat)
    requires ReadUnary(body, first) == Read(l, " " + (LogicWord(op) + right), mid) && Ends(right)
    requires ReadUnary(right, mid) == Read(r, ")" + k, next)
    ensures ReadUnary("(" + body, first) == Read(Join(l, op, r), k, next)
  {
    var rest := ")" + k;
    var e := Join(l, op, r);
    KeywordsAreWords();
    WordRead(LogicWord(op), right);
    CloseEnds(k);
    GroupRead(body, first);
    hide ReadUnary;
    hide ReadWord;
    hide Expect;
    assert ReadMoreAnd(r, rest, next) == Read(r, rest, next);
    assert ReadMoreOr(e, rest, next) == Read(e, rest, next);
    if op.AndOp? {
      assert ReadMoreAnd(e, rest, next) == Read(e, rest, next);
      assert ReadAnd(body, first) == Read(e, rest, next);
    } else {
      assert ReadAnd(right, mid) == Read(r, rest, next);
      assert ReadAnd(body, first) == ReadUnary(body, first);
    }
    assert ReadOr(body, first) == Read(e, rest, next);
  }

  lemma SplitJoin(left: string, op: LogicOp, right: string, k: string)
    ensures JoinText(left, op, right) + k == "(" + (left + (" " + (LogicWord(op) + (" " + (right + (")" + k))))))
  {
  }

  lemma {:induction false} TestRead(c: SqlColumn, test: string, k: string, next: nat)
    requires CleanColumn(c) && (c.Named? ==> IsColumnName(c.name))
    ensures ReadUnary(ColumnText(c) + (" " + test), next) == ReadTest(c, " " + test, next)
  {
    StartsNoGroup(c, " " + test, next);
    ColumnRead(c, " " + test);
    hide ColumnText;
    hide ReadTest;
    hide ReadColumn;
    hide ReadUnary;
  }

  /** No name that is written into a JSON path holds a quote or a NUL. */
  predicate WrittenCleanly(t: FilterNode) {
    match t
    case Present(path) => CleanColumn(AttrToColumn(path))
    case Compare(path, _, _) => CleanColumn(AttrToColumn(path))
    case Logic(l, _, r) => WrittenCleanly(l) && WrittenCleanly(r)
    case Negation(inner) => WrittenCleanly(inner)
  }

  lemma ReadCompareText(c: SqlColumn, cmp: SqlCompare, k: string, first: nat)
    requires CleanColumn(c) && (c.Named? ==> IsColumnName(c.name))
    ensures ReadUnary(CompareText(c, cmp) + k, first) == Read(CompareParam(c, cmp, first), k, first + 1)
  {
    var test := OperatorText(cmp) + (" " + ("?" + k));
    assert CompareText(c, cmp) + k == ColumnText(c) + (" " + test);
    hide *;
    TestRead(c, test, k, first);
    CompareRead(c, cmp, k, first);
  }

  function NotNullTest(k: string): string {
    "IS" + (" " + ("NOT" + (" " + ("NULL" + k))))
  }

  function NotEmptyTest(k: string): string {
    "!=" + (" " + ("'" + ("'" + k)))
  }

  /** The presence test of a column, up to its second part. */
  function PresentRight(column: string, k: string): string {
    " " + (column + (" " + NotEmptyTest(")" + k)))
  }

  lemma PresentShape(c: SqlColumn, k: string)
    ensures JoinText(NotNullText(c), AndOp, NotEmptyText(c)) + k
            == "(" + (ColumnText(c) + (" " + NotNullTest(" " + ("AND" + PresentRight(ColumnText(c), k)))))
  {
    SplitJoin(NotNullText(c), AndOp, NotEmptyText(c), k);
    hide JoinText;
    var column := ColumnText(c);
    assert NotEmptyText(c) + (")" + k) == column + (" " + NotEmptyTest(")" + k));
    hide NotEmptyTest;
    hide NotEmptyText;
    var tail := " " + ("AND" + PresentRight(column, k));
    assert NotNullText(c) + tail == column + (" " + NotNullTest(tail));
  }

  lemma ReadPresentText(c: SqlColumn, k: string, first: nat)
    requires CleanColumn(c) && (c.Named? ==> IsColumnName(c.name))
    ensures ReadUnary(JoinText(NotNullText(c), AndOp, NotEmptyText(c)) + k, first)
            == Read(SqlAnd(ColumnNotNull(c), ColumnNotEmpty(c)), k, first)
  {
    var column := ColumnText(c);
    var right := PresentRight(column, k);
    PresentShape(c, k);
    assert Join(ColumnNotNull(c), AndOp, ColumnNotEmpty(c)) == SqlAnd(ColumnNotNull(c), ColumnNotEmpty(c));
    assert LogicWord(AndOp) == "AND";
    hide *;
    var tail := " " + ("AND" + right);
    assert ReadUnary(column + (" " + NotNullTest(tail)), first) == Read(ColumnNotNull(c), tail, first) by {
      BlankEnds("AND" + right);
      TestRead(c, NotNullTest(tail), k, first);
      NotNullTestRead(c, tail, first);
    }
    assert ReadUnary(right, first) == Read(ColumnNotEmpty(c), ")" + k, first) && Ends(right) by {
      PresentRightRead(c, k, first);
    }
    JoinRead(column + (" " + NotNullTest(tail)), ColumnNotNull(c), AndOp, right, ColumnNotEmpty(c), k, first, first, first);
  }

  lemma NotNullTestRead(c: SqlColumn, k: string, next: nat)
    requires Ends(k)
    ensures ReadTest(c, " " + NotNullTest(k), next) == Read(ColumnNotNull(c), k, next)
  {
    NotNullRead(c, k, next);
    hide ReadTest;
  }

  lemma PresentRightRead(c: SqlColumn, k: string, first: nat)
    requires CleanColumn(c) && (c.Named? ==> IsColumnName(c.name))
    ensures ReadUnary(PresentRight(ColumnText(c), k), first) == Read(ColumnNotEmpty(c), ")" + k, first)
    ensures Ends(PresentRight(ColumnText(c), k))
  {
    var test := NotEmptyTest(")" + k);
    NotEmptyRead(c, ")" + k, first);
    hide ReadTest;
    hide ReadUnary;
    hide ColumnText;
    TestRead(c, test, k, first);
    UnaryAfterBlank(ColumnText(c) + (" " + test), first);
  }

  /** Reading the text of a filter recovers its structure, whatever follows it. */
  lemma {:induction false} ReadText(t: FilterNode, k: string, first: nat)
    requires WrittenCleanly(t)
    ensures ReadUnary(SqlText(t) + k, first) == Read(SqlOf(t, first), k, first + |Params(t)|)
    decreases t
  {
    hide ReadUnary;
    hide AttrToColumn;
    hide CompareSql;
    hide IsColumnName;
    hide JoinText;
    hide CompareText;
    hide CleanColumn;
    match t
    case Compare(path, cmp, v) =>
      NamesAreColumns(path);
      ReadCompareText(AttrToColumn(path), CompareSql(cmp, v).0, k, first);
    case Present(path) =>
      NamesAreColumns(path);
      ReadPresentText(AttrToColumn(path), k, first);
    case Negation(inner) =>
      ReadText(inner, ")" + k, first);
      ReadNegation(SqlText(inner), SqlOf(inner, first), k, first, first + |Params(inner)|);
    case Logic(l, op, r) =>
      var right := SqlText(r) + (")" + k);
      var mid := first + |Params(l)|;
      ReadText(l, " " + (LogicWord(op) + (" " + right)), first);
      ReadText(r, ")" + k, mid);
      UnaryAfterBlank(right, mid);
      BlankEnds(right);
      SplitJoin(SqlText(l), op, SqlText(r), k);
      hide LogicWord;
      JoinRead(SqlText(l) + (" " + (LogicWord(op) + (" " + right))), SqlOf(l, first), op, " " + right, SqlOf(r, mid), k,
               first, mid, mid + |Params(r)|);
  }

  lemma NotIsRead(s: string, next: nat)
    ensures ReadUnary("NOT" + (" " + s), next) == Negated(ReadUnary(s, next))
  {
    KeywordsAreWords();
    WordRead("NOT", " " + s);
    assert Expect("NOT" + (" " + s), '(').None?;
    UnaryAfterBlank(s, next);
    hide ReadWord;
    hide Expect;
    hide ReadOr;
    hide ReadComparison;
  }

  lemma {:induction false} ReadNegation(text: string, e: SqlExpr, k: string, first: nat, next: nat)
    requires ReadUnary(text + (")" + k), first) == Read(e, ")" + k, next)
    ensures ReadUnary("NOT" + (" " + ("(" + (text + ")"))) + k, first) == Read(SqlNot(e), k, next)
  {
    var body := text + (")" + k);
    assert "NOT" + (" " + ("(" + (text + ")"))) + k == "NOT" + (" " + ("(" + body));
    NotIsRead("(" + body, first);
    GroupRead(body, first);
    CloseEnds(k);
    hide ReadUnary;
    hide ReadWord;
    hide Expect;
    assert ReadAnd(body, first) == Read(e, ")" + k, next);
    assert ReadOr(body, first) == Read(e, ")" + k, next);
  }

  // ------------------------------------------------------------------ names that break the clause

  /** The columns of an expression from left to right. */
  function Columns(e: SqlExpr): seq<SqlColumn> {
    match e
    case CompareParam(column, _, _) => [column]
    case ColumnNotNull(column) => [column]
    case ColumnNotEmpty(column) => [column]
    case SqlAnd(l, r) => Columns(l) + Columns(r)
    case SqlOr(l, r) => Columns(l) + Columns(r)
    case SqlNot(inner) => Columns(inner)
  }

  /** At some place the columns are not the same. */
  ghost predicate Differ(a: seq<SqlColumn>, b: seq<SqlColumn>) {
    exists i :: 0 <= i < |a| && i < |b| && a[i] != b[i]
  }

  lemma DifferLonger(a: seq<SqlColumn>, b: seq<SqlColumn>, longer: seq<SqlColumn>, more: seq<SqlColumn>)
    requires Differ(a, b) && a <= longer
    ensures Differ(longer, b + more)
  {
    var i :| 0 <= i < |a| && i < |b| && a[i] != b[i];
    assert longer[i] == a[i] && (b + more)[i] == b[i];
  }

  lemma DifferAfter(front: seq<SqlColumn>, a: seq<SqlColumn>, b: seq<SqlColumn>, longer: seq<SqlColumn>)
    requires Differ(a, b) && front + a <= longer
    ensures Differ(longer, front + b)
  {
    var i :| 0 <= i < |a| && i < |b| && a[i] != b[i];
    assert longer[|front| + i] == (front + a)[|front| + i] == a[i] && (front + b)[|front| + i] == b[i];
  }

  /** What is read after a column never changes what was read before it. */
  lemma {:induction false} MoreKeeps(left: SqlExpr, s: string, next: nat)
    ensures var r := ReadMoreAnd(left, s, next); r.Read? ==> Columns(left) <= Columns(r.expr)
    ensures var r := ReadMoreOr(left, s, next); r.Read? ==> Columns(left) <= Columns(r.expr)
    decreases |s|
  {
    hide ReadWord;
    var right := ReadWord(s).1;
    if ReadWord(s).0 == "AND" {
      var r := ReadUnary(right, next);
      if r.Read? {
        assert |r.rest| < |right| <= |s|;
        MoreKeeps(SqlAnd(left, r.expr), r.rest, r.next);
      }
    } else if ReadWord(s).0 == "OR" {
      var r := ReadAnd(right, next);
      if r.Read? {
        assert |r.rest| < |right| <= |s|;
        MoreKeeps(SqlOr(left, r.expr), r.rest, r.next);
      }
    }
  }

  /** The rest of a disjunction whose first unary expression has been read. */
  function Continue(e: SqlExpr, s: string, next: nat): Read {
    match ReadMoreAnd(e, s, next)
    case Malformed => Malformed
    case Read(conjunction, rest, n) => ReadMoreOr(conjunction, rest, n)
  }

  lemma ContinueKeeps(e: SqlExpr, s: string, next: nat)
    ensures var r := Continue(e, s, next); r.Read? ==> Columns(e) <= Columns(r.expr)
  {
    MoreKeeps(e, s, next);
    hide Columns;
    hide ReadMoreAnd;
    hide ReadMoreOr;
    var r := ReadMoreAnd(e, s, next);
    if r.Read? {
      MoreKeeps(r.expr, r.rest, r.next);
    }
  }

  /** A group whose first unary expression is known. */
  lemma {:induction false} GroupContinues(body: string, first: nat)
    ensures var r := ReadUnary(body, first);
            ReadUnary("(" + body, first) == if r.Read? then Closed(Continue(r.expr, r.rest, r.next)) else Malformed
  {
    GroupRead(body, first);
    hide ReadUnary;
    hide ReadMoreAnd;
    hide ReadMoreOr;
    hide Expect;
  }

  /** A wrong column on the left of a parenthesised expression stays wrong. */
  lemma {:induction false} WrongLeft(body: string, first: nat, columns: seq<SqlColumn>, more: seq<SqlColumn>)
    requires var r := ReadUnary(body, first); r.Read? ==> Differ(Columns(r.expr), columns)
    ensures var r := ReadUnary("(" + body, first); r.Read? ==> Differ(Columns(r.expr), columns + more)
  {
    GroupContinues(body, first);
    var r := ReadUnary(body, first);
    hide ReadUnary;
    hide Expect;
    hide Differ;
    hide Columns;
    if r.Read? {
      ContinueKeeps(r.expr, r.rest, r.next);
      var whole := Continue(r.expr, r.rest, r.next);
      hide Continue;
      if whole.Read? {
        DifferLonger(Columns(r.expr), columns, Columns(whole.expr), more);
      }
    }
  }

  /** So does one on the right of `AND`, */
  lemma {:induction false} WrongAfterAnd(l: SqlExpr, right: string, mid: nat, columns: seq<SqlColumn>)
    requires Ends(right)
    requires var r := ReadUnary(right, mid); r.Read? ==> Differ(Columns(r.expr), columns)
    ensures var r := Continue(l, " " + ("AND" + right), mid); r.Read? ==> Differ(Columns(r.expr), Columns(l) + columns)
  {
    KeywordsAreWords();
    WordRead("AND", right);
    var r := ReadUnary(right, mid);
    hide ReadUnary;
    hide ReadWord;
    hide Differ;
    if r.Read? {
      var joined := SqlAnd(l, r.expr);
      assert ReadMoreAnd(l, " " + ("AND" + right), mid) == ReadMoreAnd(joined, r.rest, r.next);
      assert Continue(l, " " + ("AND" + right), mid) == Continue(joined, r.rest, r.next);
      ContinueKeeps(joined, r.rest, r.next);
      hide ReadMoreAnd;
      var whole := Continue(joined, r.rest, r.next);
      hide Continue;
      if whole.Read? {
        DifferAfter(Columns(l), Columns(r.expr), columns, Columns(whole.expr));
      }
    }
  }

  /** and on the right of `OR`. */
  lemma {:induction false} WrongAfterOr(l: SqlExpr, right: string, mid: nat, columns: seq<SqlColumn>)
    requires Ends(right)
    requires var r := ReadUnary(right, mid); r.Read? ==> Differ(Columns(r.expr), columns)
    ensures var r := Continue(l, " " + ("OR" + right), mid); r.Read? ==> Differ(Columns(r.expr), Columns(l) + columns)
  {
    KeywordsAreWords();
    WordRead("OR", right);
    var text := " " + ("OR" + right);
    var r := ReadUnary(right, mid);
    assert ReadMoreAnd(l, text, mid) == Read(l, text, mid);
    assert Continue(l, text, mid) == ReadMoreOr(l, text, mid);
    hide ReadUnary;
    hide ReadWord;
    hide Differ;
    if r.Read? {
      MoreKeeps(r.expr, r.rest, r.next);
      var conjunction := ReadMoreAnd(r.expr, r.rest, r.next);
      assert ReadAnd(right, mid) == conjunction;
      if conjunction.Read? {
        var joined := SqlOr(l, conjunction.expr);
        MoreKeeps(joined, conjunction.rest, conjunction.next);
        var whole := ReadMoreOr(joined, conjunction.rest, conjunction.next);
        assert Continue(l, text, mid) == whole;
        hide ReadMoreAnd;
        hide ReadMoreOr;
        if whole.Read? {
          assert Columns(l) + Columns(r.expr) <= Columns(joined);
          DifferAfter(Columns(l), Columns(r.expr), columns, Columns(whole.expr));
        }
      }
    } else {
      assert ReadAnd(right, mid) == Malformed;
    }
  }

  /** One column read wrong is a difference. */
  lemma WrongColumn(e: SqlExpr, c: SqlColumn, columns: seq<SqlColumn>)
    requires (e.CompareParam? || e.ColumnNotNull? || e.ColumnNotEmpty?) && e.column != c && columns != [] && columns[0] == c
    ensures Differ(Columns(e), columns)
  {
    assert Columns(e)[0] != columns[0];
  }

  lemma {:induction false} MisreadTest(c: SqlColumn, k: string, first: nat, columns: seq<SqlColumn>)
    requires !CleanColumn(c) && columns != [] && columns[0] == c && k != "" && k[0] == ' '
    ensures var r := ReadUnary(ColumnText(c) + k, first); r.Read? ==> Differ(Columns(r.expr), columns)
  {
    ColumnMisread(c, k);
    StartsNoGroup(c, k, first);
    hide ReadUnary;
    hide ReadColumn;
    hide ColumnText;
    hide Differ;
    var column := ReadColumn(ColumnText(c) + k);
    if column.Some? {
      TestNamesColumn(column.value.0, column.value.1, first);
      hide ReadTest;
      var r := ReadTest(column.value.0, column.value.1, first);
      if r.Read? {
        WrongColumn(r.expr, c, columns);
      }
    }
  }

  lemma TestNamesColumn(c: SqlColumn, s: string, next: nat)
    ensures var r := ReadTest(c, s, next);
            r.Read? ==> (r.expr.CompareParam? || r.expr.ColumnNotNull? || r.expr.ColumnNotEmpty?) && r.expr.column == c
  {
    hide Skip;
    hide ReadWord;
    hide Expect;
  }

  lemma MisreadCompare(c: SqlColumn, cmp: SqlCompare, k: string, first: nat)
    requires !CleanColumn(c)
    ensures var r := ReadUnary(CompareText(c, cmp) + k, first); r.Read? ==> Differ(Columns(r.expr), [c])
  {
    var test := OperatorText(cmp) + (" " + ("?" + k));
    assert CompareText(c, cmp) + k == ColumnText(c) + (" " + test);
    MisreadTest(c, " " + test, first, [c]);
    hide ReadUnary;
    hide Columns;
  }

  lemma MisreadPresent(c: SqlColumn, k: string, first: nat)
    requires !CleanColumn(c)
    ensures var r := ReadUnary(JoinText(NotNullText(c), AndOp, NotEmptyText(c)) + k, first);
            r.Read? ==> Differ(Columns(r.expr), [c] + [c])
  {
    var test := NotNullTest(" " + ("AND" + PresentRight(ColumnText(c), k)));
    PresentShape(c, k);
    MisreadTest(c, " " + test, first, [c]);
    hide *;
    WrongLeft(ColumnText(c) + (" " + test), first, [c], [c]);
  }

  lemma {:induction false} MisreadNegation(text: string, k: string, first: nat, columns: seq<SqlColumn>)
    requires var r := ReadUnary(text + (")" + k), first); r.Read? ==> Differ(Columns(r.expr), columns)
    ensures var r := ReadUnary("NOT" + (" " + ("(" + (text + ")"))) + k, first); r.Read? ==> Differ(Columns(r.expr), columns)
  {
    var body := text + (")" + k);
    assert "NOT" + (" " + ("(" + (text + ")"))) + k == "NOT" + (" " + ("(" + body));
    NotIsRead("(" + body, first);
    WrongLeft(body, first, columns, []);
    assert columns + [] == columns;
    hide ReadUnary;
    hide Differ;
  }

  lemma {:induction false} MisreadLeft(left: string, op: LogicOp, right: string, k: string, first: nat, columns: seq<SqlColumn>, more: seq<SqlColumn>)
    requires var r := ReadUnary(left + (" " + (LogicWord(op) + (" " + (right + (")" + k))))), first);
             r.Read? ==> Differ(Columns(r.expr), columns)
    ensures var r := ReadUnary(JoinText(left, op, right) + k, first); r.Read? ==> Differ(Columns(r.expr), columns + more)
  {
    SplitJoin(left, op, right, k);
    WrongLeft(left + (" " + (LogicWord(op) + (" " + (right + (")" + k))))), first, columns, more);
    hide *;
  }

  lemma {:induction false} MisreadRight(left: string, l: SqlExpr, op: LogicOp, right: string, k: string, first: nat, mid: nat, columns: seq<SqlColumn>)
    requires ReadUnary(left + (" " + (LogicWord(op) + (" " + (right + (")" + k))))), first)
             == Read(l, " " + (LogicWord(op) + (" " + (right + (")" + k)))), mid)
    requires var r := ReadUnary(right + (")" + k), mid); r.Read? ==> Differ(Columns(r.expr), columns)
    ensures var r := ReadUnary(JoinText(left, op, right) + k, first); r.Read? ==> Differ(Columns(r.expr), Columns(l) + columns)
  {
    var tail := " " + (right + (")" + k));
    SplitJoin(left, op, right, k);
    UnaryAfterBlank(right + (")" + k), mid);
    BlankEnds(right + (")" + k));
    GroupContinues(left + (" " + (LogicWord(op) + tail)), first);
    match op {
      case AndOp => WrongAfterAnd(l, tail, mid, columns);
      case OrOp => WrongAfterOr(l, tail, mid, columns);
    }
    hide ReadUnary;
    hide Continue;
    hide Differ;
    hide Columns;
    hide JoinText;
    hide Expect;
  }

  /** What is read of the text of a filter with such a name has a wrong column somewhere. */
  lemma {:induction false} Misread(t: FilterNode, k: string, first: nat)
    requires !WrittenCleanly(t)
    ensures var r := ReadUnary(SqlText(t) + k, first); r.Read? ==> Differ(Columns(r.expr), Columns(SqlOf(t, first)))
    decreases t
  {
    hide ReadUnary;
    hide AttrToColumn;
    hide CompareSql;
    hide JoinText;
    hide CompareText;
    hide CleanColumn;
    hide Differ;
    hide LogicWord;
    match t
    case Compare(path, cmp, v) =>
      MisreadCompare(AttrToColumn(path), CompareSql(cmp, v).0, k, first);
    case Present(path) =>
      MisreadPresent(AttrToColumn(path), k, first);
    case Negation(inner) =>
      Misread(inner, ")" + k, first);
      MisreadNegation(SqlText(inner), k, first, Columns(SqlOf(inner, first)));
    case Logic(l, op, r) =>
      var left, right := SqlText(l), SqlText(r);
      var mid := first + |Params(l)|;
      var tail := " " + (LogicWord(op) + (" " + (right + (")" + k))));
      if WrittenCleanly(l) {
        ReadText(l, tail, first);
        Misread(r, ")" + k, mid);
        MisreadRight(left, SqlOf(l, first), op, right, k, first, mid, Columns(SqlOf(r, mid)));
      } else {
        Misread(l, tail, first);
        MisreadLeft(left, op, right, k, first, Columns(SqlOf(l, first)), Columns(SqlOf(r, mid)));
      }
  }

  /**
   * The database reads the clause back as the filter, every comparison with its own placeholder
   * and none left over, exactly when no name written into a JSON path holds a quote or a NUL.
   */
  lemma ReadBackExactly(t: FilterNode)
    ensures ReadOr(SqlText(t), 0) == Read(SqlOf(t, 0), "", |Params(t)|) <==> WrittenCleanly(t)
  {
    var text := SqlText(t);
    assert text + "" == text;
    if WrittenCleanly(t) {
      ReadText(t, "", 0);
      assert ReadAnd(text, 0) == Read(SqlOf(t, 0), "", |Params(t)|);
    } else {
      Misread(t, "", 0);
      var r := ReadUnary(text, 0);
      assert ReadOr(text, 0) == if r.Read? then Continue(r.expr, r.rest, r.next) else Malformed;
      if r.Read? {
        ContinueKeeps(r.expr, r.rest, r.next);
        var whole := Continue(r.expr, r.rest, r.next);
        if whole.Read? {
          DifferLonger(Columns(r.expr), Columns(SqlOf(t, 0)), Columns(whole.expr), []);
          assert Columns(SqlOf(t, 0)) + [] == Columns(SqlOf(t, 0));
        }
      }
      hide ReadUnary;
      hide Continue;
    }
  }

  /**
   * Where it does, evaluating what the database has read with the collected parameters gives
   * the truth value of the filter on every row.
   */
  lemma TranslationPreservesMeaning(t: FilterNode, row: Row)
    requires WrittenCleanly(t)
    ensures ReadOr(SqlText(t), 0).Read? && ReadOr(SqlText(t), 0).rest == ""
    ensures EvalSql(ReadOr(SqlText(t), 0).expr, Params(t), row) == EvalFilter(t, row)
  {
    ReadBackExactly(t);
    EvalSqlOf(t, [], [], row);
    assert [] + Params(t) + [] == Params(t);
    hide ReadOr;
    hide SqlOf;
    hide EvalSql;
  }

  /** Seen by the names: what matters is the attribute and the sub-attribute of a JSON path. */
  lemma CleanByName(p: AttrPath)
    ensures CleanColumn(AttrToColumn(p)) <==> AttrToColumn(p).Named? || (IsClean(p.attribute) && IsClean(p.subAttr))
  {
    LowerClean(p.attribute);
    LowerClean(p.subAttr);
    assert IsClean("meta") && IsClean("$.") && IsClean("$.meta.") && IsClean(".") && IsClean("");
    hide ToLower;
  }

  lemma LowerClean(text: string)
    ensures IsClean(ToLower(text)) <==> IsClean(text)
  {
    var lower := ToLower(text);
    forall c | c in {'\'', '\0'} ensures c in lower <==> c in text {
      if i :| 0 <= i < |text| && text[i] == c {
        assert lower[i] == c;
      }
      if i :| 0 <= i < |lower| && lower[i] == c {
        assert text[i] == c;
      }
    }
  }

  /** `' eq "value"` */
  function QuoteFilter(value: string): string {
    "'" + (" " + ("eq" + (" " + ("\"" + (value + "\"")))))
  }

  function QuoteComparison(value: string): FilterNode {
    Compare(AttrPath("", "'", "", None), EqOp, Str(value))
  }

  /** The parser accepts a lone quote as a name, and the database cannot read the clause that becomes of it. */
  lemma QuoteNameBreaksClause(value: string)
    requires '\"' !in value && '\\' !in value
    ensures FilterParser.ParseFilterSpec(QuoteFilter(value)) == Ok(Some(QuoteComparison(value)))
    ensures ReadOr(SqlText(QuoteComparison(value)), 0) != Read(SqlOf(QuoteComparison(value), 0), "", 1)
  {
    QuoteNameParsed(value);
    assert !WrittenCleanly(QuoteComparison(value)) by {
      assert ToLower("'")[0] == '\'';
      CleanByName(QuoteComparison(value).path);
    }
    ReadBackExactly(QuoteComparison(value));
    hide ReadOr;
    hide SqlText;
    hide SqlOf;
    hide FilterParser.ParseFilterSpec;
  }

  lemma QuoteNameParsed(value: string)
    requires '\"' !in value && '\\' !in value
    ensures FilterParser.ParseFilterSpec(QuoteFilter(value)) == Ok(Some(QuoteComparison(value)))
  {
    hide Lex;
    hide Unescape;
    hide ScanToken;
    hide QuickFilter.LiteralText;
    hide FilterParser.G.ParseTokens;
    var m := QuickFilter.QuickMatch("'", EqOp, value);
    var tail := " " + ("eq" + (" " + ("\"" + (value + ("\"" + "")))));
    assert "\"" + "" == "\"";
    assert QuoteFilter(value) == "'" + tail;
    QuickFilter.LexTail(" ", EqOp, " ", value, "");
    QuoteScanned(tail);
    QuickFilter.LexScanned("'", tail, Token(Ident, "'"));
    QuickFilter.LiteralValue(value, "");
    QuickFilter.ParseComparison(m);
    var rest := [QuickFilter.OperatorToken(EqOp), Token(StringLit, value)];
    assert [Token(Ident, "'")] + rest == [Token(Ident, "'"), QuickFilter.OperatorToken(EqOp), Token(StringLit, value)];
  }

  lemma QuoteScanned(tail: string)
    ensures ScanToken("'" + tail) == (Token(Ident, "'"), 1) && !IsSpace("'"[0])
  {
    assert ("'" + tail)[..1] == "'";
  }

  // ------------------------------------------------------------------ columns the tables do not have

  datatype Table = Users | Groups

  function TableColumns(table: Table): set<string> {
    match table
    case Users => {"id", "external_id", "user_name", "data", "version", "created_at", "updated_at"}
    case Groups => {"id", "external_id", "display_name", "data", "version", "created_at", "updated_at"}
  }

  /** The attribute that is translated to a column of the other table only. */
  function ForeignAttribute(table: Table): string {
    match table
    case Users => "displayname"
    case Groups => "username"
  }

  predicate Names(t: FilterNode, attribute: string) {
    match t
    case Present(path) => ToLower(path.attribute) == attribute
    case Compare(path, _, _) => ToLower(path.attribute) == attribute
    case Logic(l, _, r) => Names(l, attribute) || Names(r, attribute)
    case Negation(inner) => Names(inner, attribute)
  }

  predicate HasColumn(table: Table, c: SqlColumn) {
    c.Named? ==> c.name in TableColumns(table)
  }

  lemma ColumnExists(p: AttrPath, table: Table)
    ensures HasColumn(table, AttrToColumn(p)) <==> ToLower(p.attribute) != ForeignAttribute(table)
  {
    hide ToLower;
  }

  /**
   * A clause names only columns its table has exactly when the filter does not name, in any
   * case, `displayName` of users or `userName` of groups: the translator treats both tables alike.
   */
  lemma {:induction false} ColumnsExistExactly(t: FilterNode, table: Table, first: nat)
    ensures (forall c :: c in Columns(SqlOf(t, first)) ==> HasColumn(table, c)) <==> !Names(t, ForeignAttribute(table))
    decreases t
  {
    hide AttrToColumn;
    hide CompareSql;
    hide HasColumn;
    hide ForeignAttribute;
    match t
    case Present(path) =>
      ColumnExists(path, table);
      assert AttrToColumn(path) in Columns(SqlOf(t, first));
    case Compare(path, _, _) =>
      ColumnExists(path, table);
      assert AttrToColumn(path) in Columns(SqlOf(t, first));
    case Logic(l, _, r) =>
      ColumnsExistExactly(l, table, first);
      ColumnsExistExactly(r, table, first + |Params(l)|);
    case Negation(inner) =>
      ColumnsExistExactly(inner, table, first);
  }
}
