/**
 * What the grammar promises about the trees it builds: the precedence
 * ladder, left nesting within a level, prefix operators, where a parse
 * stops and which error wins.
 */
module GrammarLemmas {
  import opened Errors
  import opened Syntax
  import Lexer
  import opened Grammar

  /** `id` is no operator of a level tighter than rank `bound`: a parse at those levels stops before it. */
  predicate LooserThan(bound: nat, id: Lexer.TokenId)
  {
    OperatorLevel(id).None? || bound <= Rank(OperatorLevel(id).value)
  }

  /** A successful parse stopped on a token that no level below rank `bound` takes. */
  predicate StopsBefore<T>(c: Context, r: Result<(T, nat)>, bound: nat)
  {
    r.Ok? && r.value.1 < |c.tokens| ==> LooserThan(bound, c.tokens[r.value.1].id)
  }

  /**
   * Precedence: an expression parsed at level `lv` stops on a token that is
   * no binary operator or belongs to a strictly looser level, so every
   * operator of `lv` and tighter that follows an operand is taken.
   */
  lemma {:induction false} LevelStops(c: Context, lv: Level, p: nat)
    requires c.Valid() && p < |c.tokens|
    ensures StopsBefore(c, LevelExpression(c, lv, p), Rank(lv) + 1)
    decreases Rank(lv), 2, 0
  {
    OperandStops(c, lv, p);
    match Operand(c, lv, p)
    case Err(_) =>
    case Ok((left, q)) => RestStops(c, lv, left, q);
  }

  /** The operands of `lv` stop on a token no tighter level takes. */
  lemma {:induction false} OperandStops(c: Context, lv: Level, p: nat)
    requires c.Valid() && p < |c.tokens|
    ensures StopsBefore(c, Operand(c, lv, p), Rank(lv))
    decreases Rank(lv), 0, 0
  {
    if lv != Multiplicative {
      LevelStops(c, Lower(lv), p);
    }
  }

  /** The loop of `lv`, entered on a token no tighter level takes, stops on one `lv` does not take either. */
  lemma {:induction false} RestStops(c: Context, lv: Level, left: Expr, q: nat)
    requires c.Valid() && q < |c.tokens| && LooserThan(Rank(lv), c.tokens[q].id)
    ensures StopsBefore(c, LevelRest(c, lv, left, q), Rank(lv) + 1)
    decreases Rank(lv), 1, |c.tokens| - q
  {
    match LevelOp(lv, c.tokens[q].id)
    case None =>
    case Some(op) =>
      OperandStops(c, lv, q + 1);
      match Operand(c, lv, q + 1)
      case Err(_) =>
      case Ok((right, q1)) => RestStops(c, lv, Binary(op, left, right), q1);
  }

  /**
   * A whole expression stops on a token that is neither a binary operator
   * nor `?`: nothing an expression could still take is left behind.
   */
  lemma {:induction false} ExpressionStops(c: Context, p: nat)
    requires c.Valid() && p < |c.tokens|
    ensures Expression(c, p).Ok? ==> OperatorLevel(c.tokens[Expression(c, p).value.1].id).None?
    ensures Expression(c, p).Ok? ==> !c.tokens[Expression(c, p).value.1].id.Question?
    decreases |c.tokens| - p
  {
    LevelStops(c, LogicalOr, p);
    match LevelExpression(c, LogicalOr, p)
    case Err(_) =>
    case Ok((test, q)) =>
      if c.tokens[q].id.Question? {
        ExpressionStops(c, q + 1);
        match Expression(c, q + 1)
        case Err(_) =>
        case Ok((_, q1)) =>
          if c.tokens[q1].id.Colon? {
            ExpressionStops(c, q1 + 1);
          }
      }
  }

  /**
   * A unary expression that fails, or that is followed by no binary
   * operator, is what every level parses at that position: the ladder adds
   * no node and reports an operand's error unchanged.
   */
  lemma {:induction false} LevelLifts(c: Context, lv: Level, p: nat)
    requires c.Valid() && p < |c.tokens|
    requires UnaryExpression(c, p).Ok? ==> OperatorLevel(c.tokens[UnaryExpression(c, p).value.1].id).None?
    ensures LevelExpression(c, lv, p) == UnaryExpression(c, p)
    decreases Rank(lv)
  {
    if lv != Multiplicative {
      LevelLifts(c, Lower(lv), p);
    }
  }

  /**
   * An expression parsed at level `lo` that is followed by no operator of
   * `lv` or tighter is what `lv` parses at that position.
   */
  lemma {:induction false} LevelLiftsFrom(c: Context, lo: Level, lv: Level, p: nat)
    requires c.Valid() && p < |c.tokens| && Rank(lo) <= Rank(lv)
    requires LevelExpression(c, lo, p).Ok? ==> LooserThan(Rank(lv) + 1, c.tokens[LevelExpression(c, lo, p).value.1].id)
    ensures LevelExpression(c, lv, p) == LevelExpression(c, lo, p)
    decreases Rank(lv)
  {
    if lv != lo {
      LevelLiftsFrom(c, lo, Lower(lv), p);
    }
  }

  /** With no binary operator and no `?` after it, a unary expression is a whole expression. */
  lemma {:induction false} ExpressionLifts(c: Context, p: nat)
    requires c.Valid() && p < |c.tokens|
    requires UnaryExpression(c, p).Ok? ==> OperatorLevel(c.tokens[UnaryExpression(c, p).value.1].id).None?
    requires UnaryExpression(c, p).Ok? ==> !c.tokens[UnaryExpression(c, p).value.1].id.Question?
    ensures Expression(c, p) == UnaryExpression(c, p)
  {
    LevelLifts(c, LogicalOr, p);
  }

  /**
   * Operators of one level associate to the left: `a op1 b op2 d` is
   * `(a op1 b) op2 d` when nothing of that level follows `d`.
   */
  lemma {:induction false} LeftNested(c: Context, lv: Level, p: nat, a: Expr, b: Expr, d: Expr, q1: nat, q2: nat, q3: nat)
    requires c.Valid() && p < |c.tokens|
    requires Operand(c, lv, p) == Ok((a, q1)) && LevelOp(lv, c.tokens[q1].id).Some?
    requires Operand(c, lv, q1 + 1) == Ok((b, q2)) && LevelOp(lv, c.tokens[q2].id).Some?
    requires Operand(c, lv, q2 + 1) == Ok((d, q3)) && LevelOp(lv, c.tokens[q3].id).None?
    ensures LevelExpression(c, lv, p)
         == Ok((Binary(LevelOp(lv, c.tokens[q2].id).value, Binary(LevelOp(lv, c.tokens[q1].id).value, a, b), d), q3))
  {
    RestStep(c, lv, a, q1, b, q2);
    RestStep(c, lv, Binary(LevelOp(lv, c.tokens[q1].id).value, a, b), q2, d, q3);
  }

  /** One turn of a level's loop: the operator and the operand after it join the tree on the right. */
  lemma {:induction false} RestStep(c: Context, lv: Level, left: Expr, q: nat, right: Expr, q1: nat)
    requires c.Valid() && q < |c.tokens| && LevelOp(lv, c.tokens[q].id).Some?
    requires Operand(c, lv, q + 1) == Ok((right, q1))
    ensures LevelRest(c, lv, left, q) == LevelRest(c, lv, Binary(LevelOp(lv, c.tokens[q].id).value, left, right), q1)
  {
  }

  /** `ops` applied to `e`, the first one outermost. */
  function Prefixed(ops: seq<UnaryOp>, e: Expr): Expr
  {
    if ops == [] then e else Unary(ops[0], Prefixed(ops[1..], e))
  }

  /**
   * A run of prefix operators applies to the primary expression after it,
   * the first one outermost (`--x` is `-(-x)`, `!~x` is `!(~x)`).
   */
  lemma {:induction false} PrefixRun(c: Context, p: nat, ops: seq<UnaryOp>)
    requires c.Valid() && p + |ops| < |c.tokens|
    requires forall k :: 0 <= k < |ops| ==> PrefixOp(c.tokens[p + k].id) == Some(ops[k])
    requires PrefixOp(c.tokens[p + |ops|].id).None?
    ensures UnaryExpression(c, p)
         == (match PrimaryExpression(c, p + |ops|)
             case Ok((e, q)) => Ok((Prefixed(ops, e), q))
             case Err(x) => Err(x))
    decreases |ops|
  {
    if ops != [] {
      assert PrefixOp(c.tokens[p + 0].id) == Some(ops[0]);
      assert forall k :: 0 <= k < |ops[1..]| ==> PrefixOp(c.tokens[p + 1 + k].id) == Some(ops[1..][k]) by {
        forall k | 0 <= k < |ops[1..]| ensures PrefixOp(c.tokens[p + 1 + k].id) == Some(ops[1..][k]) {
          assert p + 1 + k == p + (k + 1);
        }
      }
      PrefixRun(c, p + 1, ops[1..]);
    }
  }

  /**
   * The `?:` operator: the condition is a `||`-level expression and both
   * branches are whole expressions; a missing `:` is reported as such.
   */
  lemma {:induction false} ConditionalShape(c: Context, p: nat, test: Expr, q: nat, ifTrue: Expr, q1: nat)
    requires c.Valid() && p < |c.tokens|
    requires LevelExpression(c, LogicalOr, p) == Ok((test, q)) && c.tokens[q].id.Question?
    requires Expression(c, q + 1) == Ok((ifTrue, q1))
    ensures !c.tokens[q1].id.Colon? ==> Expression(c, p) == Err(MissingColon)
    ensures c.tokens[q1].id.Colon? && Expression(c, q1 + 1).Ok? ==>
      Expression(c, p) == Ok((Cond(test, ifTrue, Expression(c, q1 + 1).value.0), Expression(c, q1 + 1).value.1))
    ensures c.tokens[q1].id.Colon? && Expression(c, q1 + 1).Err? ==> Expression(c, p) == Expression(c, q1 + 1)
  {
    assert Expression(c, p) == ConditionalExpression(c, p);
  }

  /** `a ? b : d ? e : f` nests to the right: it is `a ? b : (d ? e : f)`. */
  lemma {:induction false} ConditionalRightNested(c: Context, p: nat, a: Expr, q: nat, b: Expr, q1: nat,
                               d: Expr, r: nat, e: Expr, r1: nat, f: Expr, r2: nat)
    requires c.Valid() && p < |c.tokens|
    requires LevelExpression(c, LogicalOr, p) == Ok((a, q)) && c.tokens[q].id.Question?
    requires Expression(c, q + 1) == Ok((b, q1)) && c.tokens[q1].id.Colon?
    requires LevelExpression(c, LogicalOr, q1 + 1) == Ok((d, r)) && c.tokens[r].id.Question?
    requires Expression(c, r + 1) == Ok((e, r1)) && c.tokens[r1].id.Colon?
    requires Expression(c, r1 + 1) == Ok((f, r2))
    ensures Expression(c, p) == Ok((Cond(a, b, Cond(d, e, f)), r2))
  {
    ConditionalShape(c, q1 + 1, d, r, e, r1);
    ConditionalShape(c, p, a, q, b, q1);
  }

  /**
   * A token list parses exactly when an expression starts it and stops on
   * `TOK_END`; a token left over is a syntax error, whatever it is.
   */
  lemma {:induction false} TrailingTokenRejected(c: Context)
    requires c.Valid()
    ensures ParseTokens(c).Ok? <==> Expression(c, 0).Ok? && c.tokens[Expression(c, 0).value.1].id.End?
    ensures Expression(c, 0).Ok? && !c.tokens[Expression(c, 0).value.1].id.End? ==> ParseTokens(c) == Err(SyntaxError)
    ensures Expression(c, 0).Err? ==> ParseTokens(c) == Err(Expression(c, 0).error)
    ensures ParseTokens(c).Ok? ==> ParseTokens(c).value == Expression(c, 0).value.0
  {
  }

  /** The empty string is a syntax error: its only token is `TOK_END`, which starts no expression. */
  lemma {:induction false} EmptyInputRejected(v: Variant, resolver: Resolver)
    ensures Parse(v, resolver, "") == Err(SyntaxError)
  {
    assert Lexer.Scan("") == Ok([Lexer.Simple(Lexer.End)]);
    ExpressionLifts(Context(v, resolver, [Lexer.Simple(Lexer.End)]), 0);
  }

  /** Two numbers with no operator between them (`8 9`) are a syntax error. */
  lemma {:induction false} AdjacentNumbersRejected(v: Variant, resolver: Resolver)
    ensures ParseTokens(Context(v, resolver, [Lexer.Token(Lexer.Number, 8, ""), Lexer.Token(Lexer.Number, 9, ""), Lexer.Simple(Lexer.End)]))
         == Err(SyntaxError)
  {
    ExpressionLifts(Context(v, resolver, [Lexer.Token(Lexer.Number, 8, ""), Lexer.Token(Lexer.Number, 9, ""), Lexer.Simple(Lexer.End)]), 0);
  }

  /** Two current-address operands in a row (`$$`) are a syntax error. */
  lemma {:induction false} AdjacentDollarsRejected(v: Variant, resolver: Resolver)
    ensures ParseTokens(Context(v, resolver, [Lexer.Simple(Lexer.Dollar), Lexer.Simple(Lexer.Dollar), Lexer.Simple(Lexer.End)]))
         == Err(SyntaxError)
  {
    ExpressionLifts(Context(v, resolver, [Lexer.Simple(Lexer.Dollar), Lexer.Simple(Lexer.Dollar), Lexer.Simple(Lexer.End)]), 0);
  }

  /** How each copy words "more than three arguments"; `lowest` is the lowest arity offered. */
  function TooManyError(v: Variant, name: string, lowest: nat): Error
  {
    match v
    case LessOop => TooManyArgumentsExpected(name, lowest)
    case Oop => TooManyArgumentsFor(name)
    case Original => TooManyFunctionArguments
  }

  /** How each copy words "no callback of that arity", for `n` arguments. */
  function MismatchError(v: Variant, name: string, lowest: nat, n: nat): Error
  {
    if v == Original then InvalidNumberOfArguments(name) else ArgumentCountMismatch(name, lowest, n)
  }

  /**
   * An unknown function: the tagged-union copy reports it before it looks
   * at the arguments; the other two copies report a bad argument list
   * first and the unknown name only after a well-formed one.
   */
  lemma {:induction false} UnknownFunctionOrder(c: Context, name: string, p: nat)
    requires c.Valid() && p < |c.tokens| && LowestArity(c.resolver, name).None?
    ensures c.variant == LessOop ==> FunctionCall(c, name, p) == Err(UnknownFunction(name))
    ensures c.variant != LessOop && Arguments(c, p, TooManyError(c.variant, name, 0)).Err? ==>
      FunctionCall(c, name, p) == Err(Arguments(c, p, TooManyError(c.variant, name, 0)).error)
    ensures c.variant != LessOop && Arguments(c, p, TooManyError(c.variant, name, 0)).Ok? ==>
      FunctionCall(c, name, p) == Err(UnknownFunction(name))
  {
  }

  /**
   * A known function: an error in the argument list wins; otherwise the
   * call is built when the resolver offers a callback for exactly that
   * many arguments, with the arguments in order, and is the copy's arity
   * error when it does not.
   */
  lemma {:induction false} CallArity(c: Context, name: string, p: nat, k: nat)
    requires c.Valid() && p < |c.tokens| && LowestArity(c.resolver, name) == Some(k)
    ensures Arguments(c, p, TooManyError(c.variant, name, k)).Err? ==>
      FunctionCall(c, name, p) == Err(Arguments(c, p, TooManyError(c.variant, name, k)).error)
    ensures Arguments(c, p, TooManyError(c.variant, name, k)).Ok? ==>
      var (args, q) := Arguments(c, p, TooManyError(c.variant, name, k)).value;
      if Offers(c.resolver, name, |args|) then
        FunctionCall(c, name, p).Ok? && IsCallOf(c.resolver, name, args, FunctionCall(c, name, p).value.0)
        && FunctionCall(c, name, p).value.1 == q + 1
      else FunctionCall(c, name, p) == Err(MismatchError(c.variant, name, k, |args|))
  {
  }

  /** A fourth argument is refused as soon as the third `,` has been read, with the error the caller chose. */
  lemma {:induction false} FourthArgumentRejected(c: Context, p: nat, tooMany: Error,
                               a1: Expr, q1: nat, a2: Expr, q2: nat, a3: Expr, q3: nat)
    requires c.Valid() && p < |c.tokens| && !c.tokens[p].id.RParen?
    requires Expression(c, p) == Ok((a1, q1)) && c.tokens[q1].id.Comma?
    requires Expression(c, q1 + 1) == Ok((a2, q2)) && c.tokens[q2].id.Comma?
    requires Expression(c, q2 + 1) == Ok((a3, q3)) && c.tokens[q3].id.Comma?
    ensures Arguments(c, p, tooMany) == Err(tooMany)
  {
    MoreArgumentsStep(c, p, [], tooMany, a1, q1);
    MoreArgumentsStep(c, q1 + 1, [] + [a1], tooMany, a2, q2);
    MoreArgumentsStep(c, q2 + 1, [] + [a1] + [a2], tooMany, a3, q3);
  }

  /**
   * One turn of the argument loop: the argument joins the list after the
   * ones already read; a `)` ends the list, a `,` goes round again, and
   * anything else is a missing comma.
   */
  lemma {:induction false} MoreArgumentsStep(c: Context, p: nat, args: seq<Expr>, tooMany: Error, a: Expr, q: nat)
    requires c.Valid() && p < |c.tokens| && |args| < 3
    requires Expression(c, p) == Ok((a, q))
    ensures c.tokens[q].id.RParen? ==> MoreArguments(c, p, args, tooMany) == Ok((args + [a], q))
    ensures c.tokens[q].id.Comma? ==> MoreArguments(c, p, args, tooMany) == MoreArguments(c, q + 1, args + [a], tooMany)
    ensures !c.tokens[q].id.RParen? && !c.tokens[q].id.Comma? ==> MoreArguments(c, p, args, tooMany) == Err(MissingComma)
  {
  }

  /**
   * Memory reads: `[e]` reads a byte and `t@[e]` reads what the tag `b`,
   * `w` or `d` names; any other tag is refused by name, and only once the
   * address and its `]` have been read.
   */
  lemma {:induction false} MemoryForms(c: Context, p: nat, a: Expr, q: nat)
    requires c.Valid() && p < |c.tokens|
    requires Expression(c, p) == Ok((a, q)) && c.tokens[q].id.RBracket?
    ensures MemoryRead(c, "b", p) == Ok((MemByte(a), q + 1))
    ensures MemoryRead(c, "w", p) == Ok((MemWord(a), q + 1))
    ensures MemoryRead(c, "d", p) == Ok((MemDword(a), q + 1))
    ensures forall tag :: tag != "b" && tag != "w" && tag != "d" ==> MemoryRead(c, tag, p) == Err(UnknownDataType(tag))
  {
  }

  /** The address and its `]` are checked before the tag: their errors come first, whatever the tag. */
  lemma {:induction false} MemoryErrorsFirst(c: Context, tag: string, p: nat)
    requires c.Valid() && p < |c.tokens|
    ensures Expression(c, p).Err? ==> MemoryRead(c, tag, p) == Err(Expression(c, p).error)
    ensures Expression(c, p).Ok? && !c.tokens[Expression(c, p).value.1].id.RBracket? ==>
      MemoryRead(c, tag, p) == Err(MissingRBracket)
  {
  }

  /** `[` starts a byte read; `t@` must be followed by `[`. */
  lemma {:induction false} MemoryPrimary(c: Context, p: nat)
    requires c.Valid() && p < |c.tokens|
    ensures c.tokens[p].id.LBracket? ==> PrimaryExpression(c, p) == MemoryRead(c, "b", p + 1)
    ensures c.tokens[p].id.Ident? && c.tokens[p + 1].id.At? && c.tokens[p + 2].id.LBracket? ==>
      PrimaryExpression(c, p) == MemoryRead(c, c.tokens[p].text, p + 3)
    ensures c.tokens[p].id.Ident? && c.tokens[p + 1].id.At? && !c.tokens[p + 2].id.LBracket? ==>
      PrimaryExpression(c, p) == Err(MissingLBracketAfterAt)
  {
  }
}
