/**
 * Small expressions from the repository's tests: their token lists are
 * parsed, and the trees the parser builds are evaluated.
 */
module Scenarios {
  import opened Values
  import opened Errors
  import opened Syntax
  import Lexer
  import opened Grammar
  import opened GrammarLemmas
  import opened Evaluation

  function Num(n: Value): Lexer.Token
  {
    Lexer.Token(Lexer.Number, n, "")
  }

  /** The tokens of `9+4 * 3`. */
  function NinePlusFourTimesThree(): seq<Lexer.Token>
  {
    [Num(9), Lexer.Simple(Lexer.Plus), Num(4), Lexer.Simple(Lexer.Asterisk), Num(3), Lexer.Simple(Lexer.End)]
  }

  /** `*` binds tighter than `+`: `9+4 * 3` is `9 + (4 * 3)`. */
  lemma {:induction false} MultiplicationBindsTighter(v: Variant, resolver: Resolver)
    ensures ParseTokens(Context(v, resolver, NinePlusFourTimesThree()))
         == Ok(Binary(Plus, Number(9), Binary(Multiply, Number(4), Number(3))))
  {
    var c := Context(v, resolver, NinePlusFourTimesThree());
    var product := Binary(Multiply, Number(4), Number(3));
    var sum := Binary(Plus, Number(9), product);
    NumberIsOperand(c, 0);
    NumberIsOperand(c, 2);
    NumberIsOperand(c, 4);
    LevelSplit(c, Multiplicative, 2, Number(4), 3);
    RestStep(c, Multiplicative, Number(4), 3, Number(3), 5);
    RestEnds(c, Multiplicative, product, 5);
    LevelSplit(c, Multiplicative, 0, Number(9), 1);
    RestEnds(c, Multiplicative, Number(9), 1);
    LevelSplit(c, Additive, 0, Number(9), 1);
    RestStep(c, Additive, Number(9), 1, product, 5);
    RestEnds(c, Additive, sum, 5);
    LevelLiftsFrom(c, Additive, LogicalOr, 0);
    NoConditional(c, 0, sum, 5);
    TrailingTokenRejected(c);
  }

  /** A level is its first operand followed by its loop. */
  lemma {:induction false} LevelSplit(c: Context, lv: Level, p: nat, e: Expr, q: nat)
    requires c.Valid() && p < |c.tokens| && Operand(c, lv, p) == Ok((e, q))
    ensures LevelExpression(c, lv, p) == LevelRest(c, lv, e, q)
  {
  }

  /** A `||`-level expression with no `?` after it is the whole expression. */
  lemma {:induction false} NoConditional(c: Context, p: nat, e: Expr, q: nat)
    requires c.Valid() && p < |c.tokens|
    requires LevelExpression(c, LogicalOr, p) == Ok((e, q)) && !c.tokens[q].id.Question?
    ensures Expression(c, p) == Ok((e, q))
  {
  }

  /** A number token is an operand of `*` on its own. */
  lemma {:induction false} NumberIsOperand(c: Context, p: nat)
    requires c.Valid() && p < |c.tokens| && c.tokens[p].id.Number?
    ensures Operand(c, Multiplicative, p) == Ok((Number(c.tokens[p].number), p + 1))
  {
    assert PrimaryExpression(c, p) == Ok((Number(c.tokens[p].number), p + 1));
    assert UnaryExpression(c, p) == PrimaryExpression(c, p);
  }

  /** A level's loop ends on a token that is no operator of that level. */
  lemma {:induction false} RestEnds(c: Context, lv: Level, e: Expr, q: nat)
    requires c.Valid() && q < |c.tokens| && LevelOp(lv, c.tokens[q].id).None?
    ensures LevelRest(c, lv, e, q) == Ok((e, q))
  {
  }

  /** A number followed by no operator of `lv` or tighter is a whole `lv`-level expression. */
  lemma {:induction false} NumberLevel(c: Context, lv: Level, p: nat)
    requires c.Valid() && p + 1 < |c.tokens| && c.tokens[p].id.Number?
    requires GrammarLemmas.LooserThan(Rank(lv) + 1, c.tokens[p + 1].id)
    ensures LevelExpression(c, lv, p) == Ok((Number(c.tokens[p].number), p + 1))
  {
    NumberIsOperand(c, p);
    LevelSplit(c, Multiplicative, p, Number(c.tokens[p].number), p + 1);
    RestEnds(c, Multiplicative, Number(c.tokens[p].number), p + 1);
    LevelLiftsFrom(c, Multiplicative, lv, p);
  }

  /** A number followed by no binary operator and no `?` is a whole expression. */
  lemma {:induction false} NumberExpression(c: Context, p: nat)
    requires c.Valid() && p + 1 < |c.tokens| && c.tokens[p].id.Number?
    requires OperatorLevel(c.tokens[p + 1].id).None? && !c.tokens[p + 1].id.Question?
    ensures Expression(c, p) == Ok((Number(c.tokens[p].number), p + 1))
  {
    NumberLevel(c, LogicalOr, p);
    NoConditional(c, p, Number(c.tokens[p].number), p + 1);
  }

  /** Parsing the tokens of `9+4 * 3` and evaluating the tree gives 21 in every copy. */
  lemma {:induction false} NinePlusFourTimesThreeIs21(v: Variant, resolver: Resolver, h: Host, ev: Evaluator)
    ensures ParseTokens(Context(v, resolver, NinePlusFourTimesThree())).Ok?
    ensures Eval(v, ParseTokens(Context(v, resolver, NinePlusFourTimesThree())).value, h, ev) == Returned(21)
  {
    MultiplicationBindsTighter(v, resolver);
    EagerNode(v, Multiply, Number(4), Number(3), h, ev);
    EagerNode(v, Plus, Number(9), Binary(Multiply, Number(4), Number(3)), h, ev);
  }

  /** The tokens of `0?1?4:8:3`. */
  function NestedConditional(): seq<Lexer.Token>
  {
    [Num(0), Lexer.Simple(Lexer.Question), Num(1), Lexer.Simple(Lexer.Question), Num(4), Lexer.Simple(Lexer.Colon),
     Num(8), Lexer.Simple(Lexer.Colon), Num(3), Lexer.Simple(Lexer.End)]
  }

  /** `?:` nests in its middle operand: `0?1?4:8:3` is `0 ? (1 ? 4 : 8) : 3`. */
  lemma {:induction false} NestedConditionalParses(v: Variant, resolver: Resolver)
    ensures ParseTokens(Context(v, resolver, NestedConditional()))
         == Ok(Cond(Number(0), Cond(Number(1), Number(4), Number(8)), Number(3)))
  {
    var c := Context(v, resolver, NestedConditional());
    var inner := Cond(Number(1), Number(4), Number(8));
    NumberLevel(c, LogicalOr, 0);
    NumberLevel(c, LogicalOr, 2);
    NumberExpression(c, 4);
    NumberExpression(c, 6);
    NumberExpression(c, 8);
    ConditionalShape(c, 2, Number(1), 3, Number(4), 5);
    ConditionalShape(c, 0, Number(0), 1, inner, 7);
    TrailingTokenRejected(c);
  }

  /** Parsing the tokens of `0?1?4:8:3` and evaluating the tree gives 3 in every copy. */
  lemma {:induction false} NestedConditionalIs3(v: Variant, resolver: Resolver, h: Host, ev: Evaluator)
    ensures ParseTokens(Context(v, resolver, NestedConditional())).Ok?
    ensures Eval(v, ParseTokens(Context(v, resolver, NestedConditional())).value, h, ev) == Returned(3)
  {
    NestedConditionalParses(v, resolver);
  }

  /** The tokens of `4<5=5<4`. */
  function ComparedComparisons(): seq<Lexer.Token>
  {
    [Num(4), Lexer.Simple(Lexer.Less), Num(5), Lexer.Simple(Lexer.Equal),
     Num(5), Lexer.Simple(Lexer.Less), Num(4), Lexer.Simple(Lexer.End)]
  }

  /** Two numbers around a comparison, with nothing of the comparisons' level or tighter after them. */
  lemma {:induction false} NumbersCompared(c: Context, p: nat)
    requires c.Valid() && p + 3 < |c.tokens| && c.tokens[p].id.Number? && c.tokens[p + 2].id.Number?
    requires LevelOp(Relational, c.tokens[p + 1].id).Some? && LevelOp(Relational, c.tokens[p + 3].id).None?
    requires GrammarLemmas.LooserThan(Rank(Shift) + 1, c.tokens[p + 1].id)
    requires GrammarLemmas.LooserThan(Rank(Shift) + 1, c.tokens[p + 3].id)
    ensures LevelExpression(c, Relational, p)
         == Ok((Binary(LevelOp(Relational, c.tokens[p + 1].id).value, Number(c.tokens[p].number), Number(c.tokens[p + 2].number)), p + 3))
  {
    var left := Number(c.tokens[p].number);
    var right := Number(c.tokens[p + 2].number);
    NumberLevel(c, Shift, p);
    NumberLevel(c, Shift, p + 2);
    LevelSplit(c, Relational, p, left, p + 1);
    RestStep(c, Relational, left, p + 1, right, p + 3);
    RestEnds(c, Relational, Binary(LevelOp(Relational, c.tokens[p + 1].id).value, left, right), p + 3);
  }

  /** `<` binds tighter than `=`: `4<5=5<4` is `(4 < 5) == (5 < 4)`. */
  lemma {:induction false} ComparedComparisonsParse(v: Variant, resolver: Resolver)
    ensures ParseTokens(Context(v, resolver, ComparedComparisons()))
         == Ok(Binary(Equal, Binary(Less, Number(4), Number(5)), Binary(Less, Number(5), Number(4))))
  {
    var c := Context(v, resolver, ComparedComparisons());
    var left := Binary(Less, Number(4), Number(5));
    var right := Binary(Less, Number(5), Number(4));
    var eq := Binary(Equal, left, right);
    NumbersCompared(c, 0);
    NumbersCompared(c, 4);
    LevelSplit(c, Equality, 0, left, 3);
    RestStep(c, Equality, left, 3, right, 7);
    RestEnds(c, Equality, eq, 7);
    LevelLiftsFrom(c, Equality, LogicalOr, 0);
    NoConditional(c, 0, eq, 7);
    TrailingTokenRejected(c);
  }

  /** Parsing the tokens of `4<5=5<4` and evaluating the tree gives 0 in every copy. */
  lemma {:induction false} ComparedComparisonsIs0(v: Variant, resolver: Resolver, h: Host, ev: Evaluator)
    ensures ParseTokens(Context(v, resolver, ComparedComparisons())).Ok?
    ensures Eval(v, ParseTokens(Context(v, resolver, ComparedComparisons())).value, h, ev) == Returned(0)
  {
    ComparedComparisonsParse(v, resolver);
    var left := Binary(Less, Number(4), Number(5));
    var right := Binary(Less, Number(5), Number(4));
    EagerNode(v, Less, Number(4), Number(5), h, ev);
    EagerNode(v, Less, Number(5), Number(4), h, ev);
    EagerNode(v, Equal, left, right, h, ev);
  }

  /** An operator that evaluates both operands, left first, on operands that return. */
  lemma {:induction false} EagerNode(v: Variant, op: BinaryOp, l: Expr, r: Expr, h: Host, ev: Evaluator)
    requires op != LogicOr && op != LogicAnd && op != Divide && op != Remainder
    requires Eval(v, l, h, ev).Returned? && Eval(v, r, h, ev).Returned?
    ensures Eval(v, Binary(op, l, r), h, ev) == Arithmetic(v, op, Eval(v, l, h, ev).value, Eval(v, r, h, ev).value)
  {
    assert Eval(v, Binary(op, l, r), h, ev) == EvalBinary(v, op, l, r, h, ev);
  }

  /** The tokens of a prefix operator written twice before the number `n`. */
  function Twice(op: Lexer.TokenId, n: Value): seq<Lexer.Token>
  {
    [Lexer.Simple(op), Lexer.Simple(op), Num(n), Lexer.Simple(Lexer.End)]
  }

  /** A doubled prefix operator before a number nests, the first one outermost. */
  lemma {:induction false} TwicePrefixedParses(v: Variant, resolver: Resolver, op: Lexer.TokenId, n: Value)
    requires PrefixOp(op).Some?
    ensures ParseTokens(Context(v, resolver, Twice(op, n)))
         == Ok(Unary(PrefixOp(op).value, Unary(PrefixOp(op).value, Number(n))))
  {
    var c := Context(v, resolver, Twice(op, n));
    var u := PrefixOp(op).value;
    var e := Unary(u, Unary(u, Number(n)));
    NumberIsOperand(c, 2);
    PrefixRun(c, 0, [u, u]);
    assert Prefixed([u, u], Number(n)) == e;
    LevelSplit(c, Multiplicative, 0, e, 3);
    RestEnds(c, Multiplicative, e, 3);
    LevelLiftsFrom(c, Multiplicative, LogicalOr, 0);
    NoConditional(c, 0, e, 3);
    TrailingTokenRejected(c);
  }

  /** Parsing the tokens of `--3` gives 3, and those of `!!0` give 0, in every copy. */
  lemma {:induction false} DoublePrefixes(v: Variant, resolver: Resolver, h: Host, ev: Evaluator)
    ensures ParseTokens(Context(v, resolver, Twice(Lexer.Minus, 3))).Ok?
    ensures Eval(v, ParseTokens(Context(v, resolver, Twice(Lexer.Minus, 3))).value, h, ev) == Returned(3)
    ensures ParseTokens(Context(v, resolver, Twice(Lexer.Exclamation, 0))).Ok?
    ensures Eval(v, ParseTokens(Context(v, resolver, Twice(Lexer.Exclamation, 0))).value, h, ev) == Returned(0)
  {
    TwicePrefixedParses(v, resolver, Lexer.Minus, 3);
    TwicePrefixedParses(v, resolver, Lexer.Exclamation, 0);
    DoubleNegate(v, Number(3), h, ev);
    DoubleLogicNot(v, Number(0), h, ev);
  }
}
