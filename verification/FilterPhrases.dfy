/** The language of the filter parser: which token sequences it accepts, and as what. */
module FilterPhrases {
  import opened Wrappers
  import opened FilterSyntax
  import opened FilterGrammar
  import FilterPrinter

  /** A filter with every token it is written with. */
  datatype Phrase =
    | Comparison(path: PathPhrase, op: Token, value: Token)
    | Presence(path: PathPhrase, op: Token)
    | Joined(left: Phrase, op: Token, right: Phrase)
    | Negated(head: Token, open: Token, inner: Phrase, close: Token)
    | Grouped(open: Token, inner: Phrase, close: Token)

  datatype PathPhrase = PathPhrase(name: Token, attribute: Option<Token>, sub: Option<Dotted>, filter: Option<ValueFilter>)

  datatype Dotted = Dotted(dot: Token, name: Token)

  datatype ValueFilter = ValueFilter(open: Token, inner: Phrase, close: Token, sub: Option<Dotted>)

  /** The tokens of the phrase, in order, followed by `k`. */
  function Spell(p: Phrase, k: seq<Token>): seq<Token> {
    match p
    case Comparison(path, op, value) => SpellPath(path, Cons(op, Cons(value, k)))
    case Presence(path, op) => SpellPath(path, Cons(op, k))
    case Joined(left, op, right) => Spell(left, Cons(op, Spell(right, k)))
    case Negated(head, open, inner, close) => Cons(head, Cons(open, Spell(inner, Cons(close, k))))
    case Grouped(open, inner, close) => Cons(open, Spell(inner, Cons(close, k)))
  }

  function SpellPath(p: PathPhrase, k: seq<Token>): seq<Token>
    decreases p, 1
  {
    var tail := SpellDotted(p.sub, SpellFilter(p, k));
    Cons(p.name, if p.attribute.Some? then Cons(p.attribute.value, tail) else tail)
  }

  function SpellFilter(p: PathPhrase, k: seq<Token>): seq<Token>
    decreases p, 0
  {
    match p.filter
    case None => k
    case Some(f) => Cons(f.open, Spell(f.inner, Cons(f.close, SpellDotted(f.sub, k))))
  }

  function SpellDotted(sub: Option<Dotted>, k: seq<Token>): seq<Token> {
    if sub.None? then k else Cons(sub.value.dot, Cons(sub.value.name, k))
  }

  // ------------------------------------------------------------------ meaning

  /** `and` binds tighter than `or`. */
  function Tightness(op: LogicOp): nat {
    if op.AndOp? then 2 else 1
  }

  /**
   * The phrase stands for the tree where only operators tighter than `floor` may be bare. Both
   * operators group to the left, so a right operand binds tighter than its operator.
   */
  predicate Means(p: Phrase, t: FilterNode, floor: nat)
    decreases p
  {
    match p
    case Comparison(path, op, value) =>
      t.Compare? && PathMeans(path, t.path) && op.kind == FilterPrinter.CompareToken(t.cmp).kind && ValueMeans(value, t.value)
    case Presence(path, op) => t.Present? && PathMeans(path, t.path) && op.kind == Pr
    case Joined(left, op, right) =>
      && t.Logic? && op.kind == (if t.op.AndOp? then And else Or) && Tightness(t.op) > floor
      && Means(left, t.left, Tightness(t.op) - 1) && Means(right, t.right, Tightness(t.op))
    case Negated(head, open, inner, close) =>
      t.Negation? && head.kind == Not && open.kind == LParen && close.kind == RParen && Means(inner, t.inner, 0)
    case Grouped(open, inner, close) => open.kind == LParen && close.kind == RParen && Means(inner, t, 0)
  }

  /** A schema URN may be followed by an attribute name; of two sub-attributes the one after the value filter counts. */
  predicate PathMeans(p: PathPhrase, path: AttrPath)
    decreases p
  {
    && p.name.kind == Ident
    && (if IsSchemaName(p.name.value)
        then path.schema == p.name.value && (if p.attribute.Some? then p.attribute.value.kind == Ident && path.attribute == p.attribute.value.value
                                             else path.attribute == "")
        else p.attribute.None? && path.schema == "" && path.attribute == p.name.value)
    && IsDotted(p.sub)
    && match p.filter
       case None => path.valuePath.None? && path.subAttr == SubName(p.sub, "")
       case Some(f) =>
         && f.open.kind == LBracket && f.close.kind == RBracket && IsDotted(f.sub)
         && path.valuePath.Some? && Means(f.inner, path.valuePath.value, 0)
         && path.subAttr == SubName(f.sub, SubName(p.sub, ""))
  }

  predicate IsDotted(sub: Option<Dotted>) {
    sub.Some? ==> sub.value.dot.kind == Dot && sub.value.name.kind == Ident
  }

  function SubName(sub: Option<Dotted>, default: string): string {
    if sub.Some? then sub.value.name.value else default
  }

  predicate ValueMeans(token: Token, v: Value) {
    match token.kind
    case StringLit => v == Str(token.value)
    case Number => v == NumberValue(token.value)
    case Boolean => v == Bool(token.value == "true")
    case NullLit => v == Null
    case _ => false
  }

  /** The next token is an operator that reaches into what was read. */
  predicate Continues(k: seq<Token>, floor: nat) {
    (Current(k).kind == And && floor < 2) || (Current(k).kind == Or && floor < 1)
  }

  // ------------------------------------------------------------------ whatever is accepted is a phrase

  lemma {:induction false} ExpressionPhrase(ts: seq<Token>, precedence: nat) returns (p: Phrase)
    requires ParseExpression(ts, precedence).Success?
    ensures var r := ParseExpression(ts, precedence);
            Means(p, r.value, precedence) && ts == Spell(p, r.rest) && !Continues(r.rest, precedence)
    decreases |ts|, 4
  {
    p := OperandPhrase(ts);
    var left := ParseOperand(ts);
    Refloor(p, left.value, 0, precedence);
    p := BinaryPhrase(p, left.value, left.rest, precedence);
  }

  /** A phrase that is not joined may stand anywhere, and a joined one where its operator may. */
  lemma Refloor(p: Phrase, t: FilterNode, floor: nat, other: nat)
    requires Means(p, t, floor) && (p.Joined? ==> Tightness(t.op) > other)
    ensures Means(p, t, other)
  {
  }

  lemma {:induction false} OperandPhrase(ts: seq<Token>) returns (p: Phrase)
    requires ParseOperand(ts).Success?
    ensures var r := ParseOperand(ts); Means(p, r.value, 0) && ts == Spell(p, r.rest) && !p.Joined?
    decreases |ts|, 3
  {
    hide ParseExpression;
    hide ParseAttrExpr;
    hide Spell;
    hide Means;
    if Current(ts).kind == Not {
      var inner := ExpressionPhrase(ts[2..], PREC_LOWEST);
      var r := ParseExpression(ts[2..], PREC_LOWEST);
      p := Negated(ts[0], ts[1], inner, r.rest[0]);
      NegatedMeans(ts, inner, r.value, r.rest);
    } else if Current(ts).kind == LParen {
      var inner := ExpressionPhrase(ts[1..], PREC_LOWEST);
      var r := ParseExpression(ts[1..], PREC_LOWEST);
      p := Grouped(ts[0], inner, r.rest[0]);
      GroupedMeans(ts, inner, r.value, r.rest);
    } else {
      p := AttrExprPhrase(ts);
    }
  }

  lemma NegatedMeans(ts: seq<Token>, inner: Phrase, t: FilterNode, rest: seq<Token>)
    requires |ts| > 1 && ts[0].kind == Not && ts[1].kind == LParen && ts[2..] == Spell(inner, rest) && Means(inner, t, 0)
    requires rest != [] && rest[0].kind == RParen
    ensures var p := Negated(ts[0], ts[1], inner, rest[0]); Means(p, Negation(t), 0) && ts == Spell(p, rest[1..])
  {
    assert rest == Cons(rest[0], rest[1..]);
    assert ts == Cons(ts[0], Cons(ts[1], ts[2..]));
  }

  lemma GroupedMeans(ts: seq<Token>, inner: Phrase, t: FilterNode, rest: seq<Token>)
    requires ts != [] && ts[0].kind == LParen && ts[1..] == Spell(inner, rest) && Means(inner, t, 0)
    requires rest != [] && rest[0].kind == RParen
    ensures var p := Grouped(ts[0], inner, rest[0]); Means(p, t, 0) && ts == Spell(p, rest[1..])
  {
    assert rest == Cons(rest[0], rest[1..]);
    assert ts == Cons(ts[0], ts[1..]);
  }

  /** The operators that follow, with what was read so far as their left operand. */
  lemma {:induction false} BinaryPhrase(l: Phrase, left: FilterNode, ts: seq<Token>, precedence: nat) returns (p: Phrase)
    requires ParseBinary(left, ts, precedence).Success?
    requires Means(l, left, precedence) && (l.Joined? ==> !Continues(ts, Tightness(left.op)))
    ensures var r := ParseBinary(left, ts, precedence);
            Means(p, r.value, precedence) && Spell(l, ts) == Spell(p, r.rest) && !Continues(r.rest, precedence)
    decreases |ts|, 0
  {
    hide ParseExpression;
    hide Spell;
    hide Means;
    p := l;
    var ahead := LogicAhead(ts);
    if ahead.Some? && Precedence(ahead.value) > precedence {
      var op := ahead.value;
      var r := ExpressionPhrase(ts[1..], Precedence(op));
      var right := ParseExpression(ts[1..], Precedence(op));
      JoinedMeans(l, left, ts[0], op, r, right.value, precedence);
      JoinedSpelled(l, ts[0], r, right.rest);
      assert ts == Cons(ts[0], ts[1..]);
      p := BinaryPhrase(Joined(l, ts[0], r), Logic(left, op, right.value), right.rest, precedence);
    }
  }

  lemma JoinedMeans(l: Phrase, left: FilterNode, token: Token, op: LogicOp, r: Phrase, right: FilterNode, floor: nat)
    requires Means(l, left, floor) && Means(r, right, Tightness(op)) && Tightness(op) > floor
    requires token.kind == (if op.AndOp? then And else Or) && (l.Joined? ==> Tightness(left.op) >= Tightness(op))
    ensures Means(Joined(l, token, r), Logic(left, op, right), floor)
  {
    Refloor(l, left, floor, Tightness(op) - 1);
  }

  lemma {:induction false} AttrExprPhrase(ts: seq<Token>) returns (p: Phrase)
    requires ParseAttrExpr(ts).Success?
    ensures var r := ParseAttrExpr(ts); Means(p, r.value, 0) && ts == Spell(p, r.rest) && !p.Joined?
    decreases |ts|, 2
  {
    hide ParseAttrPath;
    hide PathMeans;
    hide SpellPath;
    var path := PathPhraseOf(ts);
    var rest := ParseAttrPath(ts).rest;
    assert rest == Cons(rest[0], rest[1..]);
    if rest[0].kind == Pr {
      p := Presence(path, rest[0]);
    } else {
      assert rest[1..] == Cons(rest[1], rest[2..]);
      p := Comparison(path, rest[0], rest[1]);
    }
  }

  lemma {:induction false} PathPhraseOf(ts: seq<Token>) returns (p: PathPhrase)
    requires ParseAttrPath(ts).Success?
    ensures var r := ParseAttrPath(ts); PathMeans(p, r.value) && ts == SpellPath(p, r.rest)
    decreases |ts|, 1
  {
    hide ParseExpression;
    hide SpellDotted;
    hide Spell;
    hide ParseValuePath;
    hide ParseSubAttr;
    hide Means;
    var (schema, attribute, rest) := SplitName(ts[0].value, ts[1..]);
    var sub := ParseSubAttr("", rest);
    var first := DottedOf("", rest);
    var filter, subAttr, end := ValueFilterOf(AttrPath(schema, attribute, sub.value, None), sub.rest);
    var name := if IsSchemaName(ts[0].value) && Current(ts[1..]).kind == Ident then Some(ts[1]) else None;
    p := PathPhrase(ts[0], name, first, filter);
    assert ts == Cons(ts[0], if name.Some? then Cons(ts[1], rest) else rest);
  }

  /** The value filter of a path and the sub-attribute after it, if there is one. */
  lemma {:induction false} ValueFilterOf(path: AttrPath, ts: seq<Token>) returns (filter: Option<ValueFilter>, subAttr: string, end: seq<Token>)
    requires ParseValuePath(path, ts).Success? && path.valuePath.None?
    ensures ts == match filter
                  case None => end
                  case Some(f) => Cons(f.open, Spell(f.inner, Cons(f.close, SpellDotted(f.sub, end))))
    ensures var r := ParseValuePath(path, ts);
            && end == r.rest && r.value == AttrPath(path.schema, path.attribute, subAttr, r.value.valuePath)
            && match filter
               case None => r.value.valuePath.None? && subAttr == path.subAttr
               case Some(f) =>
                 && f.open.kind == LBracket && f.close.kind == RBracket && IsDotted(f.sub)
                 && r.value.valuePath.Some? && Means(f.inner, r.value.valuePath.value, 0) && subAttr == SubName(f.sub, path.subAttr)
    decreases |ts|, 0
  {
    hide ParseExpression;
    hide Spell;
    hide Means;
    filter, subAttr, end := None, path.subAttr, ts;
    if Current(ts).kind == LBracket {
      var inner := ExpressionPhrase(ts[1..], PREC_LOWEST);
      var r := ParseExpression(ts[1..], PREC_LOWEST);
      var second := DottedOf(path.subAttr, r.rest[1..]);
      assert ts == Cons(ts[0], ts[1..]) && r.rest == Cons(r.rest[0], r.rest[1..]);
      var after := ParseSubAttr(path.subAttr, r.rest[1..]);
      filter, subAttr, end := Some(ValueFilter(ts[0], inner, r.rest[0], second)), after.value, after.rest;
    }
  }

  lemma DottedOf(default: string, ts: seq<Token>) returns (sub: Option<Dotted>)
    requires ParseSubAttr(default, ts).Success?
    ensures var r := ParseSubAttr(default, ts);
            IsDotted(sub) && r.value == SubName(sub, default) && ts == SpellDotted(sub, r.rest)
  {
    sub := None;
    if Current(ts).kind == Dot {
      sub := Some(Dotted(ts[0], ts[1]));
      assert ts == Cons(ts[0], Cons(ts[1], ts[2..]));
    }
  }

  // ------------------------------------------------------------------ whatever is a phrase is accepted

  /** Reading a phrase gives its tree and goes on with what follows. */
  lemma {:induction false} PhraseParsed(p: Phrase, t: FilterNode, floor: nat, k: seq<Token>)
    requires Means(p, t, floor) && (p.Joined? ==> !Continues(k, Tightness(t.op)))
    ensures ParseExpression(Spell(p, k), floor) == ParseBinary(t, k, floor)
    decreases p, 1
  {
    match p
    case Joined(_, _, _) => JoinedParsed(p, t, floor, k);
    case Comparison(_, _, _) => ComparisonParsed(p, t, k);
    case Presence(_, _) => PresenceParsed(p, t, k);
    case _ => InnerParsed(p, t, k);
    hide ParseOperand;
    hide Spell;
    hide Means;
  }

  lemma {:induction false} InnerParsed(p: Phrase, t: FilterNode, k: seq<Token>)
    requires (p.Negated? || p.Grouped?) && Means(p, t, 0)
    ensures ParseOperand(Spell(p, k)) == Success(t, k)
    decreases p, 0
  {
    var inner, rest := if p.Negated? then t.inner else t, Cons(p.close, k);
    PhraseParsed(p.inner, inner, 0, rest);
    assert ParseExpression(Spell(p.inner, rest), PREC_LOWEST) == Success(inner, rest);
    hide ParseExpression;
  }

  lemma {:induction false} PresenceParsed(p: Phrase, t: FilterNode, k: seq<Token>)
    requires p.Presence? && Means(p, t, 0)
    ensures ParseOperand(Spell(p, k)) == Success(t, k)
    decreases p, 0
  {
    hide PathMeans;
    hide ParseAttrPath;
    hide SpellPath;
    var tail := Cons(p.op, k);
    PathParsed(p.path, t.path, tail);
    PathStart(p.path, t.path, tail);
    assert ParseAttrExpr(Spell(p, k)) == Success(t, k);
  }

  lemma {:induction false} JoinedParsed(p: Phrase, t: FilterNode, floor: nat, k: seq<Token>)
    requires p.Joined? && Means(p, t, floor) && !Continues(k, Tightness(t.op))
    ensures ParseExpression(Spell(p, k), floor) == ParseBinary(t, k, floor)
    decreases p, 0
  {
    hide ParseExpression;
    hide ParseOperand;
    hide Spell;
    hide PathMeans;
    var Joined(left, op, right) := p;
    var tightness := Tightness(t.op);
    var rest := Cons(op, Spell(right, k));
    assert Spell(p, k) == Spell(left, rest) by {
      JoinedSpelled(left, op, right, k);
    }
    if left.Joined? {
      assert Tightness(t.left.op) >= tightness;
    }
    Refloor(left, t.left, tightness - 1, floor);
    PhraseParsed(left, t.left, floor, rest);
    PhraseParsed(right, t.right, tightness, k);
    assert LogicAhead(rest) == Some(t.op);
    assert ParseBinary(t.right, k, tightness) == Success(t.right, k);
  }

  lemma JoinedSpelled(left: Phrase, op: Token, right: Phrase, k: seq<Token>)
    ensures Spell(Joined(left, op, right), k) == Spell(left, Cons(op, Spell(right, k)))
  {
  }

  lemma {:induction false} ComparisonParsed(p: Phrase, t: FilterNode, k: seq<Token>)
    requires p.Comparison? && Means(p, t, 0)
    ensures ParseOperand(Spell(p, k)) == Success(t, k)
    decreases p, 0
  {
    hide PathMeans;
    hide ParseAttrPath;
    hide SpellPath;
    var tail := Cons(p.op, Cons(p.value, k));
    PathParsed(p.path, t.path, tail);
    PathStart(p.path, t.path, tail);
    assert ParseCompareOp(tail) == Success(t.cmp, Cons(p.value, k));
    assert ParseValue(Cons(p.value, k)) == Success(t.value, k);
    assert ParseAttrExpr(Spell(p, k)) == Success(t, k);
  }

  lemma PathStart(p: PathPhrase, path: AttrPath, k: seq<Token>)
    requires PathMeans(p, path)
    ensures Current(SpellPath(p, k)).kind == Ident
  {
  }

  lemma {:induction false} PathParsed(p: PathPhrase, path: AttrPath, k: seq<Token>)
    requires PathMeans(p, path) && Current(k).kind !in {Ident, Dot, LBracket}
    ensures ParseAttrPath(SpellPath(p, k)) == Success(path, k)
    decreases p, 0
  {
    hide ParseExpression;
    var filtered := SpellFilter(p, k);
    var tail := SpellDotted(p.sub, filtered);
    if p.filter.Some? {
      var f := p.filter.value;
      var after := SpellDotted(f.sub, k);
      PhraseParsed(f.inner, path.valuePath.value, 0, Cons(f.close, after));
      DottedParsed(f.sub, SubName(p.sub, ""), k);
      assert ParseExpression(Spell(f.inner, Cons(f.close, after)), PREC_LOWEST) == Success(path.valuePath.value, Cons(f.close, after));
    }
    DottedParsed(p.sub, "", filtered);
    assert SplitName(p.name.value, if p.attribute.Some? then Cons(p.attribute.value, tail) else tail) == (path.schema, path.attribute, tail);
  }

  lemma DottedParsed(sub: Option<Dotted>, default: string, k: seq<Token>)
    requires IsDotted(sub) && Current(k).kind != Dot
    ensures ParseSubAttr(default, SpellDotted(sub, k)) == Success(SubName(sub, default), k)
  {
  }

  // ------------------------------------------------------------------ the language

  /**
   * The parser accepts a tree exactly for the phrases that stand for it. What follows the phrase
   * is ignored, as long as it does not start with an operator.
   */
  lemma AcceptedExactly(ts: seq<Token>, t: FilterNode)
    ensures ParseTokens(ts) == Ok(Some(t)) <==> exists p, rest :: ts == Spell(p, rest) && Means(p, t, 0) && !Continues(rest, 0)
  {
    if ParseTokens(ts) == Ok(Some(t)) {
      var p := ExpressionPhrase(ts, PREC_LOWEST);
      assert ts == Spell(p, ParseExpression(ts, PREC_LOWEST).rest);
    }
    if p, rest :| ts == Spell(p, rest) && Means(p, t, 0) && !Continues(rest, 0) {
      PhraseAccepted(p, t, rest);
    }
  }

  lemma PhraseAccepted(p: Phrase, t: FilterNode, rest: seq<Token>)
    requires Means(p, t, 0) && !Continues(rest, 0)
    ensures ParseTokens(Spell(p, rest)) == Ok(Some(t))
  {
    PhraseParsed(p, t, 0, rest);
    assert ParseBinary(t, rest, 0) == Success(t, rest);
    hide Spell;
    hide Means;
  }

  /** And it refuses exactly what starts with no phrase. */
  lemma RefusedExactly(ts: seq<Token>)
    ensures ParseTokens(ts).Err? <==> ts != [] && forall p, t, rest :: ts == Spell(p, rest) && Means(p, t, 0) ==> Continues(rest, 0)
  {
    if ts != [] {
      if ParseTokens(ts).Ok? {
        AcceptedExactly(ts, ParseTokens(ts).value.value);
      } else {
        forall p, t, rest | ts == Spell(p, rest) && Means(p, t, 0) ensures Continues(rest, 0) {
          if !Continues(rest, 0) {
            PhraseAccepted(p, t, rest);
          }
        }
      }
    }
  }
}
