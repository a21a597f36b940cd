/** The two evaluators of a filter: three-valued SQL over rows and two-valued matching in memory. */
module FilterMeaning {
  import opened FilterSyntax
  import opened FilterLexer
  import opened FilterSql
  import FilterPrinter

  /** `evaluateFilterNode`, with the answers of the attribute expressions given. */
  function EvalMemory(t: FilterNode, holds: FilterNode -> bool): bool {
    match t
    case Compare(_, _, _) => holds(t)
    case Present(_) => holds(t)
    case Logic(l, AndOp, r) => EvalMemory(l, holds) && EvalMemory(r, holds)
    case Logic(l, OrOp, r) => EvalMemory(l, holds) || EvalMemory(r, holds)
    case Negation(inner) => !EvalMemory(inner, holds)
  }

  // ------------------------------------------------------------------ missing values

  /** How a missing value is printed before it is compared. */
  const NIL := "<nil>"

  /** The order of strings. */
  predicate Less(a: string, b: string)
    decreases |a|
  {
    if a == "" || b == "" then a == "" && b != ""
    else a[0] < b[0] || (a[0] == b[0] && Less(a[1..], b[1..]))
  }

  /** The texts are the same up to some place, where the first ends or has the smaller character. */
  ghost predicate Precedes(a: string, b: string) {
    exists k :: 0 <= k <= |a| && k < |b| && a[..k] == b[..k] && (k == |a| || a[k] < b[k])
  }

  lemma {:induction false} LessExactly(a: string, b: string)
    ensures Less(a, b) <==> Precedes(a, b)
    decreases |a|
  {
    if a == "" && b != "" {
      assert a[..0] == b[..0];
    } else if a != "" && b != "" {
      LessExactly(a[1..], b[1..]);
      if a[0] < b[0] {
        assert a[..0] == b[..0];
      } else if Precedes(a[1..], b[1..]) && a[0] == b[0] {
        var k :| 0 <= k <= |a[1..]| && k < |b[1..]| && a[1..][..k] == b[1..][..k] && (k == |a[1..]| || a[1..][k] < b[1..][k]);
        assert a[..k + 1] == [a[0]] + a[1..][..k] && b[..k + 1] == [b[0]] + b[1..][..k];
      }
      if Precedes(a, b) {
        var k :| 0 <= k <= |a| && k < |b| && a[..k] == b[..k] && (k == |a| || a[k] < b[k]);
        if k > 0 {
          assert a[0] == a[..k][0] == b[..k][0] == b[0];
          assert a[1..][..k - 1] == a[..k][1..] == b[..k][1..] == b[1..][..k - 1];
        }
      }
    }
  }

  predicate HasPart(text: string, part: string) {
    exists i :: 0 <= i <= |text| && part <= text[i..]
  }

  /** `compareValues` on a missing value: `<nil>` is compared as a text, by the order operators too. */
  predicate ComparesWithNil(cmp: CompareOp, v: Value) {
    var text := ValueText(v);
    match cmp
    case EqOp => ToLower(text) == NIL
    case NeOp => ToLower(text) != NIL
    case CoOp => HasPart(NIL, ToLower(text))
    case SwOp => ToLower(text) <= NIL
    case EwOp => |text| <= |NIL| && NIL[|NIL| - |text|..] == ToLower(text)
    case GtOp => Less(text, NIL)
    case LtOp => Less(NIL, text)
    case GeOp => !Less(NIL, text)
    case LeOp => !Less(text, NIL)
  }

  predicate IsAlphanumeric(text: string) {
    forall i :: 0 <= i < |text| ==> '0' <= text[i] <= '9' || 'a' <= text[i] <= 'z' || 'A' <= text[i] <= 'Z'
  }

  /**
   * What a missing value answers to letters and digits. It is above every text that starts with a
   * digit, a year say, and below every one that starts with a letter.
   */
  lemma MissingIsAText(cmp: CompareOp, v: Value)
    requires ValueText(v) != "" && IsAlphanumeric(ValueText(v))
    ensures var text := ValueText(v);
            ComparesWithNil(cmp, v) <==>
              || cmp == NeOp
              || (cmp in {GtOp, GeOp} && text[0] <= '9')
              || (cmp in {LtOp, LeOp} && text[0] > '9')
              || (cmp == CoOp && ToLower(text) in {"n", "i", "l", "ni", "il", "nil"})
  {
    hide ValueText;
    var text, lower := ValueText(v), ToLower(ValueText(v));
    assert lower[0] != '<' && lower[|lower| - 1] != '>';
    assert Less(text, NIL) <==> text[0] < '<';
    assert Less(NIL, text) <==> text[0] > '<';
    match cmp
    case EwOp => assert |text| <= |NIL| ==> NIL[|NIL| - |text|..][|text| - 1] == '>';
    case CoOp => PartOfNil(lower);
    case _ =>
  }

  lemma NilSlices()
    ensures NIL[1..2] == "n" && NIL[2..3] == "i" && NIL[3..4] == "l"
    ensures NIL[1..3] == "ni" && NIL[2..4] == "il" && NIL[1..4] == "nil"
  {
    assert NIL == ['<', 'n', 'i', 'l', '>'];
    assert NIL[1..3] == [NIL[1], NIL[2]] && NIL[2..4] == [NIL[2], NIL[3]] && NIL[1..4] == [NIL[1], NIL[2], NIL[3]];
    assert NIL[1..2] == [NIL[1]] && NIL[2..3] == [NIL[2]] && NIL[3..4] == [NIL[3]];
  }

  /** The parts of `<nil>` without its brackets. */
  lemma PartOfNil(part: string)
    requires part != "" && part[0] != '<' && part[|part| - 1] != '>'
    ensures HasPart(NIL, part) <==> part in {"n", "i", "l", "ni", "il", "nil"}
  {
    if i :| 0 <= i <= |NIL| && part <= NIL[i..] {
      assert part == NIL[i..][..|part|];
      assert part[0] == NIL[i] && part[|part| - 1] == NIL[i + |part| - 1];
      assert 1 <= i && i + |part| <= 4;
      assert part == NIL[i..i + |part|];
      NilSlices();
    }
    if part in {"n", "i", "l", "ni", "il", "nil"} {
      var i := if part[0] == 'n' then 1 else if part[0] == 'i' then 2 else 3;
      NilSlices();
      assert part == NIL[i..i + |part|];
      assert part <= NIL[i..];
    }
  }

  /** To the text `<nil>` itself a missing value is equal, and it has the empty text at both ends. */
  lemma MissingIsNil(cmp: CompareOp, v: Value)
    ensures ValueText(v) == NIL ==> (ComparesWithNil(cmp, v) <==> cmp in {EqOp, CoOp, SwOp, EwOp, GeOp, LeOp})
    ensures ValueText(v) == "" ==> (ComparesWithNil(cmp, v) <==> cmp in {NeOp, CoOp, SwOp, EwOp, GtOp, GeOp})
  {
    hide ValueText;
    if ValueText(v) == NIL || ValueText(v) == "" {
      assert ToLower(NIL) == NIL && ToLower("") == "";
      assert NIL <= NIL[0..] && "" <= NIL[0..];
      NotLess(NIL);
      assert NIL[|NIL| - |NIL|..] == NIL && NIL[|NIL| - |""|..] == "";
    }
  }

  lemma {:induction false} NotLess(a: string)
    ensures !Less(a, a)
  {
    if a != "" {
      NotLess(a[1..]);
    }
  }

  /** A value is printed as it is written in a filter, which the parser reads back. */
  lemma PrintedAsWritten(v: Value)
    ensures v != Null ==> ValueText(v) == FilterPrinter.ValueToken(v).value
    ensures v == Null ==> ValueText(v) == NIL
  {
  }

  predicate IsAtom(t: FilterNode) {
    t.Compare? || t.Present?
  }

  /** The answer of an attribute expression in memory when its attribute is missing. */
  predicate OnMissing(t: FilterNode)
    requires IsAtom(t)
  {
    t.Compare? && ComparesWithNil(t.cmp, t.value)
  }

  /** NULL itself is bound as the parameter: SQL answers unknown whatever the column holds. */
  predicate BindsNull(t: FilterNode)
    requires IsAtom(t)
  {
    t.Compare? && CompareSql(t.cmp, t.value).1 == Exact(Null)
  }

  /** A row answers unknown exactly on NULL. */
  ghost predicate SqlRow(row: Row) {
    && (forall c :: !row.notNull(c).Unknown?)
    && (forall c :: row.notEmpty(c).Unknown? <==> row.notNull(c).False?)
    && (forall c, cmp, p :: row.compare(c, cmp, p).Unknown? <==> row.notNull(c).False? || p == Exact(Null))
  }

  /** On a value that is there memory answers as the row does; on a missing one as it does for `<nil>`. */
  predicate AgreesOn(t: FilterNode, row: Row, holds: FilterNode -> bool)
    requires IsAtom(t)
  {
    if t.Compare? && row.notNull(AttrToColumn(t.path)).False? then holds(t) == OnMissing(t)
    else BindsNull(t) || holds(t) == AtomTruth(t, row).True?
  }

  ghost predicate MemoryAgrees(row: Row, holds: FilterNode -> bool) {
    forall t :: IsAtom(t) ==> AgreesOn(t, row, holds)
  }

  /** The row is selected by SQL exactly when it matches in memory. */
  predicate SelectedAlike(t: FilterNode, row: Row, holds: FilterNode -> bool) {
    EvalFilter(t, row).True? <==> EvalMemory(t, holds)
  }

  // ------------------------------------------------------------------ on one row

  /** Where SQL knows the answer, matching in memory gives the same one, negations included. */
  lemma {:induction false} KnownAnswersAgree(t: FilterNode, row: Row, holds: FilterNode -> bool)
    requires SqlRow(row) && MemoryAgrees(row, holds)
    ensures EvalFilter(t, row).True? ==> EvalMemory(t, holds)
    ensures EvalFilter(t, row).False? ==> !EvalMemory(t, holds)
  {
    match t
    case Compare(_, _, _) => AtomsAgree(t, row, holds);
    case Present(_) => AtomsAgree(t, row, holds);
    case Logic(l, _, r) => KnownAnswersAgree(l, row, holds); KnownAnswersAgree(r, row, holds);
    case Negation(inner) => KnownAnswersAgree(inner, row, holds);
  }

  lemma AtomsAgree(t: FilterNode, row: Row, holds: FilterNode -> bool)
    requires IsAtom(t) && SqlRow(row) && MemoryAgrees(row, holds)
    ensures !AtomTruth(t, row).Unknown? ==> holds(t) == AtomTruth(t, row).True?
    ensures AtomTruth(t, row).Unknown? ==> t.Compare? && (BindsNull(t) || holds(t) == OnMissing(t))
  {
    assert AgreesOn(t, row, holds);
    hide AttrToColumn;
    hide OnMissing;
    hide CompareSql;
  }

  /** What SQL cannot answer is false in memory under an even number of `not`, and true under an odd one. */
  predicate UnknownsFit(t: FilterNode, row: Row, holds: FilterNode -> bool, even: bool) {
    match t
    case Compare(_, _, _) => AtomTruth(t, row).Unknown? ==> holds(t) == !even
    case Present(_) => AtomTruth(t, row).Unknown? ==> holds(t) == !even
    case Logic(l, _, r) => UnknownsFit(l, row, holds, even) && UnknownsFit(r, row, holds, even)
    case Negation(inner) => UnknownsFit(inner, row, holds, !even)
  }

  /**
   * Such missing values do no harm: this covers the rows without NULL, and filters of any shape
   * on the others.
   */
  lemma {:induction false} MissingCollapse(t: FilterNode, row: Row, holds: FilterNode -> bool, even: bool)
    requires SqlRow(row) && MemoryAgrees(row, holds) && UnknownsFit(t, row, holds, even)
    ensures if even then SelectedAlike(t, row, holds) else EvalFilter(t, row).False? <==> !EvalMemory(t, holds)
  {
    match t
    case Compare(_, _, _) => AtomsAgree(t, row, holds);
    case Present(_) => AtomsAgree(t, row, holds);
    case Logic(l, _, r) => MissingCollapse(l, row, holds, even); MissingCollapse(r, row, holds, even);
    case Negation(inner) => MissingCollapse(inner, row, holds, !even);
  }

  /** No attribute expression of the filter meets a NULL. */
  predicate NoNull(t: FilterNode, row: Row) {
    match t
    case Compare(_, _, _) => !AtomTruth(t, row).Unknown?
    case Present(_) => !AtomTruth(t, row).Unknown?
    case Logic(l, _, r) => NoNull(l, row) && NoNull(r, row)
    case Negation(inner) => NoNull(inner, row)
  }

  /** Without NULLs SQL knows the answer, and the two evaluators give the same one on every filter. */
  lemma {:induction false} NullFreeCollapse(t: FilterNode, row: Row, holds: FilterNode -> bool)
    requires SqlRow(row) && MemoryAgrees(row, holds) && NoNull(t, row)
    ensures !EvalFilter(t, row).Unknown? && SelectedAlike(t, row, holds)
  {
    match t
    case Compare(_, _, _) => AtomsAgree(t, row, holds);
    case Present(_) => AtomsAgree(t, row, holds);
    case Logic(l, _, r) => NullFreeCollapse(l, row, holds); NullFreeCollapse(r, row, holds);
    case Negation(inner) => NullFreeCollapse(inner, row, holds);
  }

  // ------------------------------------------------------------------ on every row

  /**
   * Every comparison under an even number of `not` is false of a missing value, and every one
   * under an odd number is true of it; none compares with null. `pr` may stand anywhere.
   */
  predicate MissingFits(t: FilterNode, even: bool) {
    match t
    case Compare(_, _, _) => !BindsNull(t) && OnMissing(t) == !even
    case Present(_) => true
    case Logic(l, _, r) => MissingFits(l, even) && MissingFits(r, even)
    case Negation(inner) => MissingFits(inner, !even)
  }

  lemma {:induction false} MissingFitsEverywhere(t: FilterNode, row: Row, holds: FilterNode -> bool, even: bool)
    requires SqlRow(row) && MemoryAgrees(row, holds) && MissingFits(t, even)
    ensures UnknownsFit(t, row, holds, even)
  {
    match t
    case Compare(_, _, _) => AtomsAgree(t, row, holds);
    case Present(_) => AtomsAgree(t, row, holds);
    case Logic(l, _, r) => MissingFitsEverywhere(l, row, holds, even); MissingFitsEverywhere(r, row, holds, even);
    case Negation(inner) => MissingFitsEverywhere(inner, row, holds, !even);
  }

  function ColumnsOf(t: FilterNode): set<SqlColumn> {
    match t
    case Compare(path, _, _) => {AttrToColumn(path)}
    case Present(path) => {AttrToColumn(path)}
    case Logic(l, _, r) => ColumnsOf(l) + ColumnsOf(r)
    case Negation(inner) => ColumnsOf(inner)
  }

  /** No column is tested twice, so that each test can come out either way. */
  predicate TestedOnce(t: FilterNode) {
    match t
    case Compare(_, _, _) => true
    case Present(_) => true
    case Logic(l, _, r) => ColumnsOf(l) !! ColumnsOf(r) && TestedOnce(l) && TestedOnce(r)
    case Negation(inner) => TestedOnce(inner)
  }

  /** A row on which these columns are NULL, and of the others the tests of these true. */
  function RowWith(trues: set<SqlColumn>, nulls: set<SqlColumn>): Row {
    Row((c: SqlColumn, _: SqlCompare, p: Param) =>
          if c in nulls || p == Exact(Null) then Unknown else if c in trues then True else False,
        (c: SqlColumn) => if c in nulls then False else True,
        (c: SqlColumn) => if c in nulls then Unknown else if c in trues then True else False)
  }

  function MemoryWith(trues: set<SqlColumn>, nulls: set<SqlColumn>): FilterNode -> bool {
    (t: FilterNode) =>
      IsAtom(t) && if AttrToColumn(t.path) in nulls then OnMissing(t) else AttrToColumn(t.path) in trues
  }

  lemma RowsWithAgree(trues: set<SqlColumn>, nulls: set<SqlColumn>)
    ensures SqlRow(RowWith(trues, nulls)) && MemoryAgrees(RowWith(trues, nulls), MemoryWith(trues, nulls))
  {
    hide AttrToColumn;
    hide ComparesWithNil;
    hide CompareSql;
  }

  lemma {:induction false} OnlyColumnsCount(t: FilterNode, trues: set<SqlColumn>, nulls: set<SqlColumn>,
                                            trues': set<SqlColumn>, nulls': set<SqlColumn>)
    requires forall c :: c in ColumnsOf(t) ==> (c in trues <==> c in trues') && (c in nulls <==> c in nulls')
    ensures EvalFilter(t, RowWith(trues, nulls)) == EvalFilter(t, RowWith(trues', nulls'))
    ensures EvalMemory(t, MemoryWith(trues, nulls)) == EvalMemory(t, MemoryWith(trues', nulls'))
  {
    hide AttrToColumn;
    hide OnMissing;
    hide CompareSql;
    match t
    case Compare(_, _, _) =>
    case Present(_) =>
    case Logic(l, _, r) => OnlyColumnsCount(l, trues, nulls, trues', nulls'); OnlyColumnsCount(r, trues, nulls, trues', nulls');
    case Negation(inner) => OnlyColumnsCount(inner, trues, nulls, trues', nulls');
  }

  predicate NotOpposite(truth: Truth, value: bool) {
    if value then !truth.False? else !truth.True?
  }

  /** A filter that tests no column twice can match and can fail to match, with SQL not answering the opposite. */
  lemma {:induction false} CanBe(t: FilterNode, value: bool) returns (trues: set<SqlColumn>)
    requires TestedOnce(t)
    ensures trues <= ColumnsOf(t)
    ensures EvalMemory(t, MemoryWith(trues, {})) == value
    ensures NotOpposite(EvalFilter(t, RowWith(trues, {})), value)
  {
    hide AttrToColumn;
    hide OnMissing;
    hide CompareSql;
    match t
    case Compare(path, _, _) => trues := if value then {AttrToColumn(path)} else {};
    case Present(path) => trues := if value then {AttrToColumn(path)} else {};
    case Negation(inner) => trues := CanBe(inner, !value);
    case Logic(l, _, r) =>
      var a := CanBe(l, value);
      var b := CanBe(r, value);
      trues := a + b;
      OnlyColumnsCount(l, a, {}, trues, {});
      OnlyColumnsCount(r, b, {}, trues, {});
  }

  /** A comparison that does not fit can be all that SQL is missing. */
  lemma {:induction false} Misfit(t: FilterNode, even: bool) returns (trues: set<SqlColumn>, nulls: set<SqlColumn>)
    requires TestedOnce(t) && !MissingFits(t, even)
    ensures nulls <= ColumnsOf(t) && trues <= ColumnsOf(t)
    ensures EvalFilter(t, RowWith(trues, nulls)).Unknown? && EvalMemory(t, MemoryWith(trues, nulls)) == even
  {
    hide AttrToColumn;
    hide OnMissing;
    hide CompareSql;
    match t
    case Compare(path, _, _) =>
      var column := AttrToColumn(path);
      if BindsNull(t) {
        trues, nulls := if even then {column} else {}, {};
      } else {
        trues, nulls := {}, {column};
      }
    case Negation(inner) => trues, nulls := Misfit(inner, !even);
    case Logic(l, op, r) =>
      var odd, other := l, r;
      if MissingFits(l, even) {
        odd, other := r, l;
      }
      var a, u := Misfit(odd, even);
      var b := CanBe(other, op.AndOp?);
      trues, nulls := a + b, u;
      OnlyColumnsCount(odd, a, u, trues, u);
      OnlyColumnsCount(other, b, {}, trues, u);
  }

  /**
   * A filter that tests no column twice selects the same rows in SQL and in memory, whatever
   * the rows, exactly when every comparison fits: false of a missing value under an even number
   * of `not` and true of it under an odd one.
   */
  lemma AlwaysReadAlikeExactly(t: FilterNode)
    requires TestedOnce(t)
    ensures (forall row, holds :: SqlRow(row) && MemoryAgrees(row, holds) ==> SelectedAlike(t, row, holds)) <==> MissingFits(t, true)
  {
    if MissingFits(t, true) {
      forall row, holds | SqlRow(row) && MemoryAgrees(row, holds) ensures SelectedAlike(t, row, holds) {
        MissingFitsEverywhere(t, row, holds, true);
        MissingCollapse(t, row, holds, true);
      }
    } else {
      var trues, nulls := Misfit(t, true);
      RowsWithAgree(trues, nulls);
      assert !SelectedAlike(t, RowWith(trues, nulls), MemoryWith(trues, nulls));
    }
  }

  predicate NegationFree(t: FilterNode) {
    match t
    case Compare(_, _, _) => true
    case Present(_) => true
    case Logic(l, _, r) => NegationFree(l) && NegationFree(r)
    case Negation(_) => false
  }

  function Comparisons(t: FilterNode): set<FilterNode> {
    match t
    case Compare(_, _, _) => {t}
    case Present(_) => {}
    case Logic(l, _, r) => Comparisons(l) + Comparisons(r)
    case Negation(inner) => Comparisons(inner)
  }

  /** Without `not`, the rows selected are those that match, if no comparison holds of a missing value. */
  lemma {:induction false} NegationFreeCollapse(t: FilterNode, row: Row, holds: FilterNode -> bool)
    requires SqlRow(row) && MemoryAgrees(row, holds) && NegationFree(t)
    requires forall a :: a in Comparisons(t) ==> IsAtom(a) && !BindsNull(a) && !OnMissing(a)
    ensures SelectedAlike(t, row, holds)
  {
    NegationFreeFits(t);
    MissingFitsEverywhere(t, row, holds, true);
    MissingCollapse(t, row, holds, true);
  }

  lemma {:induction false} NegationFreeFits(t: FilterNode)
    requires NegationFree(t)
    requires forall a :: a in Comparisons(t) ==> IsAtom(a) && !BindsNull(a) && !OnMissing(a)
    ensures MissingFits(t, true)
  {
    match t
    case Compare(_, _, _) => assert t in Comparisons(t);
    case Present(_) =>
    case Logic(l, _, r) => NegationFreeFits(l); NegationFreeFits(r);
  }

  /**
   * `ne` is the usual misfit: a missing attribute differs from every value but `<nil>` in
   * memory, while SQL does not select it. Under `not` the two agree again.
   */
  lemma NotEqualFitsUnderNot(path: AttrPath, value: string)
    requires ToLower(value) != NIL
    ensures var t := Compare(path, NeOp, Str(value));
            !MissingFits(t, true) && MissingFits(Negation(t), true)
    ensures var t := Compare(path, EqOp, Str(value));
            MissingFits(t, true) && !MissingFits(Negation(t), true)
  {
  }
}
