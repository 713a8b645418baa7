/**
 * The recursive-descent grammar the three parsers share, as functions
 * from a token position to the tree parsed there and the position after
 * it. `primaryExpression` … `expression` of each parser are proved equal
 * to these (module Parsing); the copies differ only in `FunctionCall`.
 *
 * The ten binary levels of the source are ten copies of one loop that
 * differ in the tokens they accept and in the level they call next; here
 * they are one function over `Level`.
 */
module Grammar {
  import opened Errors
  import opened Syntax
  import Lexer

  /** What the parser works on: which copy, the host resolver and the scanned tokens. */
  datatype Context = Context(variant: Variant, resolver: Resolver, tokens: seq<Lexer.Token>)
  {
    /** The list ends with `TOK_END`, which no production steps over, so the cursor stays on the list. */
    predicate Valid()
    {
      |tokens| >= 1 && tokens[|tokens| - 1].id == Lexer.End
    }
  }

  /** A successful production consumed at least one token and stopped on the list. */
  predicate Advances<T>(c: Context, p: nat, r: Result<(T, nat)>)
  {
    r.Ok? ==> p < r.value.1 < |c.tokens|
  }

  /** The binary precedence levels, tightest first. */
  datatype Level =
    | Multiplicative | Additive | Shift | Relational | Equality
    | BitwiseAnd | BitwiseXor | BitwiseOr | LogicalAnd | LogicalOr

  function Rank(lv: Level): nat
  {
    match lv
    case Multiplicative => 0
    case Additive => 1
    case Shift => 2
    case Relational => 3
    case Equality => 4
    case BitwiseAnd => 5
    case BitwiseXor => 6
    case BitwiseOr => 7
    case LogicalAnd => 8
    case LogicalOr => 9
  }

  /** The level a level's operands are parsed at (its `NEXT`). */
  function Lower(lv: Level): (lower: Level)
    requires lv != Multiplicative
    ensures Rank(lower) + 1 == Rank(lv)
  {
    match lv
    case Additive => Multiplicative
    case Shift => Additive
    case Relational => Shift
    case Equality => Relational
    case BitwiseAnd => Equality
    case BitwiseXor => BitwiseAnd
    case BitwiseOr => BitwiseXor
    case LogicalAnd => BitwiseOr
    case LogicalOr => LogicalAnd
  }

  /** The level whose loop takes the binary operator token `id`; `None` for a token that is no binary operator. */
  function OperatorLevel(id: Lexer.TokenId): Option<Level>
  {
    match id
    case Asterisk => Some(Multiplicative)
    case Slash => Some(Multiplicative)
    case Percent => Some(Multiplicative)
    case Plus => Some(Additive)
    case Minus => Some(Additive)
    case Shl => Some(Shift)
    case Shr => Some(Shift)
    case Less => Some(Relational)
    case LessEqual => Some(Relational)
    case Greater => Some(Relational)
    case GreaterEqual => Some(Relational)
    case Equal => Some(Equality)
    case DoubleEqual => Some(Equality)
    case NotEqual => Some(Equality)
    case Ampersand => Some(BitwiseAnd)
    case Caret => Some(BitwiseXor)
    case VBar => Some(BitwiseOr)
    case DoubleAmpersand => Some(LogicalAnd)
    case DoubleVBar => Some(LogicalOr)
    case _ => None
  }

  /**
   * The operator token `id` stands for at level `lv`, if that level's loop
   * accepts it. Each operator token belongs to exactly one level, and `=`
   * and `==` both stand for equality.
   */
  function LevelOp(lv: Level, id: Lexer.TokenId): (r: Option<BinaryOp>)
    ensures r.Some? <==> OperatorLevel(id) == Some(lv)
    ensures lv == Equality ==> (r == Some(Equal) <==> id == Lexer.Equal || id == Lexer.DoubleEqual)
    ensures lv == Equality ==> (r == Some(NotEqual) <==> id == Lexer.NotEqual)
  {
    match lv
    case Multiplicative =>
      if id == Lexer.Asterisk then Some(Multiply)
      else if id == Lexer.Slash then Some(Divide)
      else if id == Lexer.Percent then Some(Remainder)
      else None
    case Additive =>
      if id == Lexer.Plus then Some(Plus) else if id == Lexer.Minus then Some(Minus) else None
    case Shift =>
      if id == Lexer.Shl then Some(Shl) else if id == Lexer.Shr then Some(Shr) else None
    case Relational =>
      if id == Lexer.Less then Some(Less)
      else if id == Lexer.LessEqual then Some(LessEqual)
      else if id == Lexer.Greater then Some(Greater)
      else if id == Lexer.GreaterEqual then Some(GreaterEqual)
      else None
    case Equality =>
      if id == Lexer.Equal || id == Lexer.DoubleEqual then Some(Equal)
      else if id == Lexer.NotEqual then Some(NotEqual)
      else None
    case BitwiseAnd => if id == Lexer.Ampersand then Some(BitAnd) else None
    case BitwiseXor => if id == Lexer.Caret then Some(BitXor) else None
    case BitwiseOr => if id == Lexer.VBar then Some(BitOr) else None
    case LogicalAnd => if id == Lexer.DoubleAmpersand then Some(LogicAnd) else None
    case LogicalOr => if id == Lexer.DoubleVBar then Some(LogicOr) else None
  }

  /** The prefix operator token `id` stands for. */
  function PrefixOp(id: Lexer.TokenId): Option<UnaryOp>
  {
    if id == Lexer.Minus then Some(Negate)
    else if id == Lexer.Exclamation then Some(LogicNot)
    else if id == Lexer.Tilde then Some(BitNot)
    else None
  }

  /** `expression`: a conditional expression. */
  function Expression(c: Context, p: nat): (r: Result<(Expr, nat)>)
    requires c.Valid() && p < |c.tokens|
    ensures Advances(c, p, r)
    decreases |c.tokens| - p, 24
  {
    ConditionalExpression(c, p)
  }

  /** `conditionalExpression`: `||`-level operand, optionally `? expression : expression`. */
  function ConditionalExpression(c: Context, p: nat): (r: Result<(Expr, nat)>)
    requires c.Valid() && p < |c.tokens|
    ensures Advances(c, p, r)
    decreases |c.tokens| - p, 23
  {
    var (test, q) :- LevelExpression(c, LogicalOr, p);
    if !c.tokens[q].id.Question? then Ok((test, q))
    else
      var (ifTrue, q1) :- Expression(c, q + 1);
      if !c.tokens[q1].id.Colon? then Err(MissingColon)
      else
        var (ifFalse, q2) :- Expression(c, q1 + 1);
        Ok((Cond(test, ifTrue, ifFalse), q2))
  }

  /** One binary level: an operand, then as many `op operand` pairs as follow, nested to the left. */
  function LevelExpression(c: Context, lv: Level, p: nat): (r: Result<(Expr, nat)>)
    requires c.Valid() && p < |c.tokens|
    ensures Advances(c, p, r)
    decreases |c.tokens| - p, 2 * Rank(lv) + 3
  {
    var (left, q) :- Operand(c, lv, p);
    LevelRest(c, lv, left, q)
  }

  /** The `while` loop of a level, with `left` the tree built so far. */
  function LevelRest(c: Context, lv: Level, left: Expr, q: nat): (r: Result<(Expr, nat)>)
    requires c.Valid() && q < |c.tokens|
    ensures r.Ok? ==> q <= r.value.1 < |c.tokens|
    decreases |c.tokens| - q, 0
  {
    match LevelOp(lv, c.tokens[q].id)
    case None => Ok((left, q))
    case Some(op) =>
      var (right, q1) :- Operand(c, lv, q + 1);
      LevelRest(c, lv, Binary(op, left, right), q1)
  }

  /** The operands of a level: the next tighter level, or the prefix operators below `*`. */
  function Operand(c: Context, lv: Level, p: nat): (r: Result<(Expr, nat)>)
    requires c.Valid() && p < |c.tokens|
    ensures Advances(c, p, r)
    decreases |c.tokens| - p, 2 * Rank(lv) + 2
  {
    if lv == Multiplicative then UnaryExpression(c, p) else LevelExpression(c, Lower(lv), p)
  }

  /** `unaryExpression`: `-`, `!` and `~` prefixes, each applying to a whole unary expression. */
  function UnaryExpression(c: Context, p: nat): (r: Result<(Expr, nat)>)
    requires c.Valid() && p < |c.tokens|
    ensures Advances(c, p, r)
    decreases |c.tokens| - p, 1
  {
    match PrefixOp(c.tokens[p].id)
    case Some(op) =>
      var (operand, q) :- UnaryExpression(c, p + 1);
      Ok((Unary(op, operand), q))
    case None => PrimaryExpression(c, p)
  }

  /** `primaryExpression`. */
  function PrimaryExpression(c: Context, p: nat): (r: Result<(Expr, nat)>)
    requires c.Valid() && p < |c.tokens|
    ensures Advances(c, p, r)
    decreases |c.tokens| - p, 0
  {
    var t := c.tokens[p];
    if t.id.LParen? then
      var (e, q) :- Expression(c, p + 1);
      if !c.tokens[q].id.RParen? then Err(MissingRParen) else Ok((e, q + 1))
    else if t.id.Dollar? then Ok((Dollar, p + 1))
    else if t.id.Number? then Ok((Number(t.number), p + 1))
    else if t.id.LBracket? then MemoryRead(c, "b", p + 1)
    else if t.id.Ident? then
      var next := c.tokens[p + 1].id;
      if next.At? then
        if !c.tokens[p + 2].id.LBracket? then Err(MissingLBracketAfterAt)
        else MemoryRead(c, t.text, p + 3)
      else if next.LParen? then FunctionCall(c, t.text, p + 2)
      else
        var e :- Variable(c.resolver, t.text);
        Ok((e, p + 1))
    else Err(SyntaxError)
  }

  /**
   * The `mem:` part of `primaryExpression`, entered after `[`: the address,
   * then `]`, and only then the data type tag.
   */
  function MemoryRead(c: Context, tag: string, p: nat): (r: Result<(Expr, nat)>)
    requires c.Valid() && p < |c.tokens|
    ensures Advances(c, p, r)
    decreases |c.tokens| - p, 25
  {
    var (address, q) :- Expression(c, p);
    if !c.tokens[q].id.RBracket? then Err(MissingRBracket)
    else if tag == "b" then Ok((MemByte(address), q + 1))
    else if tag == "w" then Ok((MemWord(address), q + 1))
    else if tag == "d" then Ok((MemDword(address), q + 1))
    else Err(UnknownDataType(tag))
  }

  /** A binding `resolveVariable` may return: a reader, or a pointer to 1 to 4 bytes, never both. */
  predicate WellFormed(ptr: ValuePtr)
  {
    || (ptr.readValue.Some? && ptr.ptr.None?)
    || (ptr.readValue.None? && ptr.ptr.Some? && 1 <= ptr.sizeInBytes <= 4)
  }

  /** The number of bytes a direct variable node reads; 0 for the other nodes. */
  function ReadSize(e: Expr): nat
  {
    match e
    case ByteValue(_) => 1
    case WordValue(_) => 2
    case U24Value(_) => 3
    case DwordValue(_) => 4
    case _ => 0
  }

  /**
   * A name that is neither a function call nor a data type tag: a resolved
   * variable. An unknown name is reported by name; a binding that is not
   * well formed is an internal error.
   */
  function Variable(r: Resolver, name: string): (v: Result<Expr>)
    ensures r.variable(name).None? ==> v == Err(UnknownIdentifier(name))
    ensures r.variable(name).Some? ==> (v.Ok? <==> WellFormed(r.variable(name).value))
    ensures r.variable(name).Some? && v.Err? ==> v.error == InternalError
    ensures v.Ok? && r.variable(name).value.ptr.Some? ==> ReadSize(v.value) == r.variable(name).value.sizeInBytes
    ensures v.Ok? && r.variable(name).value.readValue.Some? ==> v.value == CallbackValue(r.variable(name).value.readValue.value)
    ensures v.Ok? && r.variable(name).value.ptr.Some? ==>
      (v.value.ByteValue? || v.value.WordValue? || v.value.U24Value? || v.value.DwordValue?)
      && v.value.at == r.variable(name).value.ptr.value
  {
    match r.variable(name)
    case None => Err(UnknownIdentifier(name))
    case Some(ptr) =>
      if ptr.readValue.Some? then
        if ptr.ptr.Some? then Err(InternalError) else Ok(CallbackValue(ptr.readValue.value))
      else if ptr.ptr.None? then Err(InternalError)
      else if ptr.sizeInBytes == 1 then Ok(ByteValue(ptr.ptr.value))
      else if ptr.sizeInBytes == 2 then Ok(WordValue(ptr.ptr.value))
      else if ptr.sizeInBytes == 3 then Ok(U24Value(ptr.ptr.value))
      else if ptr.sizeInBytes == 4 then Ok(DwordValue(ptr.ptr.value))
      else Err(InternalError)
  }

  /** The lowest arity the resolver offers for `name` (`expectedArgs`), if it offers any. */
  function LowestArity(r: Resolver, name: string): Option<nat>
  {
    if r.func0(name).Some? then Some(0)
    else if r.func1(name).Some? then Some(1)
    else if r.func2(name).Some? then Some(2)
    else if r.func3(name).Some? then Some(3)
    else None
  }

  /** Whether the resolver offers `name` with `n` arguments. */
  predicate Offers(r: Resolver, name: string, n: nat)
  {
    (n == 0 && r.func0(name).Some?) || (n == 1 && r.func1(name).Some?)
    || (n == 2 && r.func2(name).Some?) || (n == 3 && r.func3(name).Some?)
  }

  /**
   * `e` is a call node whose arity is `|args|`, whose callback is the one
   * the resolver returns for `name` at that arity, and whose argument trees
   * are `args`, in order.
   */
  predicate IsCallOf(r: Resolver, name: string, args: seq<Expr>, e: Expr)
  {
    match e
    case Func0(f) => args == [] && r.func0(name) == Some(f)
    case Func1(f, a) => args == [a] && r.func1(name) == Some(f)
    case Func2(f, a, b) => args == [a, b] && r.func2(name) == Some(f)
    case Func3(f, a, b, d) => args == [a, b, d] && r.func3(name) == Some(f)
    case _ => false
  }

  /** The call node for `args`, if the resolver offers exactly that arity; `mismatch` otherwise. */
  function Callee(r: Resolver, name: string, args: seq<Expr>, mismatch: Error): (e: Result<Expr>)
    requires |args| <= 3
    ensures e.Ok? <==> Offers(r, name, |args|)
    ensures e.Ok? ==> IsCallOf(r, name, args, e.value)
    ensures e.Err? ==> e.error == mismatch
  {
    if |args| == 0 then
      match r.func0(name) case Some(f) => Ok(Func0(f)) case None => Err(mismatch)
    else if |args| == 1 then
      match r.func1(name) case Some(f) => Ok(Func1(f, args[0])) case None => Err(mismatch)
    else if |args| == 2 then
      match r.func2(name) case Some(f) => Ok(Func2(f, args[0], args[1])) case None => Err(mismatch)
    else
      match r.func3(name) case Some(f) => Ok(Func3(f, args[0], args[1], args[2])) case None => Err(mismatch)
  }

  /**
   * `name(` has been read and `p` is the next token. The tagged-union copy
   * resolves the name before it parses the arguments; the other two parse
   * the arguments first. Each copy words the arity errors its own way.
   */
  function FunctionCall(c: Context, name: string, p: nat): (r: Result<(Expr, nat)>)
    requires c.Valid() && p < |c.tokens|
    ensures Advances(c, p, r)
    decreases |c.tokens| - p, 27
  {
    var lowest := LowestArity(c.resolver, name);
    match c.variant
    case LessOop =>
      if lowest.None? then Err(UnknownFunction(name))
      else
        var (args, q) :- Arguments(c, p, TooManyArgumentsExpected(name, lowest.value));
        var e :- Callee(c.resolver, name, args, ArgumentCountMismatch(name, lowest.value, |args|));
        Ok((e, q + 1))
    case Oop =>
      var (args, q) :- Arguments(c, p, TooManyArgumentsFor(name));
      if lowest.None? then Err(UnknownFunction(name))
      else
        var e :- Callee(c.resolver, name, args, ArgumentCountMismatch(name, lowest.value, |args|));
        Ok((e, q + 1))
    case Original =>
      var (args, q) :- Arguments(c, p, TooManyFunctionArguments);
      if lowest.None? then Err(UnknownFunction(name))
      else
        var e :- Callee(c.resolver, name, args, InvalidNumberOfArguments(name));
        Ok((e, q + 1))
  }

  /** The argument list up to its `)`: the arguments and the position of the `)`. */
  function Arguments(c: Context, p: nat, tooMany: Error): (r: Result<(seq<Expr>, nat)>)
    requires c.Valid() && p < |c.tokens|
    ensures r.Ok? ==> p <= r.value.1 && r.value.1 + 1 < |c.tokens| && c.tokens[r.value.1].id.RParen?
    ensures r.Ok? ==> |r.value.0| <= 3
    decreases |c.tokens| - p, 26
  {
    if c.tokens[p].id.RParen? then Ok(([], p)) else MoreArguments(c, p, [], tooMany)
  }

  /** The `for (;;)` loop over the arguments, with `args` those parsed so far. */
  function MoreArguments(c: Context, p: nat, args: seq<Expr>, tooMany: Error): (r: Result<(seq<Expr>, nat)>)
    requires c.Valid() && p < |c.tokens| && |args| <= 3
    ensures r.Ok? ==> p < r.value.1 && r.value.1 + 1 < |c.tokens| && c.tokens[r.value.1].id.RParen?
    ensures r.Ok? ==> |args| < |r.value.0| <= 3 && r.value.0[..|args|] == args
    decreases |c.tokens| - p, 25
  {
    if |args| >= 3 then Err(tooMany)
    else
      var (arg, q) :- Expression(c, p);
      if c.tokens[q].id.RParen? then Ok((args + [arg], q))
      else if !c.tokens[q].id.Comma? then Err(MissingComma)
      else MoreArguments(c, q + 1, args + [arg], tooMany)
  }

  /**
   * `exprParse` / `Expr::parse` on a token list: an expression that must end
   * on `TOK_END`. On a list the scanner produced, success means that the
   * expression used every token before the end marker.
   */
  function ParseTokens(c: Context): (r: Result<Expr>)
    requires c.Valid()
    ensures r.Ok? && Lexer.Terminated(c.tokens) ==> Expression(c, 0).Ok? && Expression(c, 0).value.1 == |c.tokens| - 1
  {
    var (e, q) :- Expression(c, 0);
    if !c.tokens[q].id.End? then Err(SyntaxError) else Ok(e)
  }

  /**
   * `exprParse` / `Expr::parse`: scan the string, then parse its tokens. A
   * lexical error is reported before any parsing, and a parse succeeds only
   * when its expression spans every token of the input.
   */
  function Parse(v: Variant, resolver: Resolver, input: string): (r: Result<Expr>)
    ensures Lexer.Scan(input).Err? ==> r == Err(Lexer.Scan(input).error)
    ensures r.Ok? ==>
      && Lexer.Scan(input).Ok?
      && var c := Context(v, resolver, Lexer.Scan(input).value);
         Expression(c, 0).Ok? && Expression(c, 0).value.1 == |c.tokens| - 1
  {
    var tokens :- Lexer.Scan(input);
    ParseTokens(Context(v, resolver, tokens))
  }
}
