/**
 * The parsers as the source writes them: functions that read the current
 * token and move a cursor along the token list (`Token** tokens` in the
 * tagged-union copy, `Context::curToken` in the other two). Each method is
 * proved to follow the production of the same name in module Grammar: it
 * fails with the same error, or it builds the same tree and leaves the
 * cursor where the production stops.
 */
module Parsing {
  import opened Errors
  import opened Syntax
  import Lexer
  import Grammar

  /** A method result and the cursor it left, against a production's result. */
  predicate Agrees<T(==)>(r: Result<T>, cur: nat, g: Result<(T, nat)>)
  {
    match g
    case Ok(v) => r == Ok(v.0) && cur == v.1
    case Err(e) => r == Err(e)
  }

  class Parser {
    const c: Grammar.Context
    var cur: nat

    constructor (c: Grammar.Context)
      requires c.Valid()
      ensures this.c == c && cur == 0
    {
      this.c := c;
      cur := 0;
    }

    /** `expression`. */
    method Expression() returns (r: Result<Expr>)
      requires c.Valid() && cur < |c.tokens|
      modifies this
      ensures Agrees(r, cur, Grammar.Expression(c, old(cur)))
      decreases |c.tokens| - cur, 24
    {
      r := Conditional();
    }

    /** `conditionalExpression`. */
    method Conditional() returns (r: Result<Expr>)
      requires c.Valid() && cur < |c.tokens|
      modifies this
      ensures Agrees(r, cur, Grammar.ConditionalExpression(c, old(cur)))
      decreases |c.tokens| - cur, 23
    {
      var test :- Level(Grammar.LogicalOr);
      if !c.tokens[cur].id.Question? {
        return Ok(test);
      }
      cur := cur + 1;
      var ifTrue :- Expression();
      if !c.tokens[cur].id.Colon? {
        return Err(MissingColon);
      }
      cur := cur + 1;
      var ifFalse :- Expression();
      return Ok(Cond(test, ifTrue, ifFalse));
    }

    /** One of the ten binary levels, `multiplicativeExpression` … `logicalOrExpression`. */
    method Level(lv: Grammar.Level) returns (r: Result<Expr>)
      requires c.Valid() && cur < |c.tokens|
      modifies this
      ensures Agrees(r, cur, Grammar.LevelExpression(c, lv, old(cur)))
      decreases |c.tokens| - cur, 2 * Grammar.Rank(lv) + 3
    {
      var left :- Operand(lv);
      r := Rest(lv, left);
    }

    /** The `while` loop of a level, entered with the first operand parsed. */
    method Rest(lv: Grammar.Level, first: Expr) returns (r: Result<Expr>)
      requires c.Valid() && cur < |c.tokens|
      modifies this
      ensures Agrees(r, cur, Grammar.LevelRest(c, lv, first, old(cur)))
      decreases |c.tokens| - cur, 0
    {
      ghost var start := cur;
      var left := first;
      var op := Grammar.LevelOp(lv, c.tokens[cur].id);
      while op.Some?
        invariant start <= cur < |c.tokens|
        invariant op == Grammar.LevelOp(lv, c.tokens[cur].id)
        invariant Grammar.LevelRest(c, lv, left, cur) == Grammar.LevelRest(c, lv, first, start)
        decreases |c.tokens| - cur
      {
        cur := cur + 1;
        var right :- Operand(lv);
        left := Binary(op.value, left, right);
        op := Grammar.LevelOp(lv, c.tokens[cur].id);
      }
      return Ok(left);
    }

    /** What a level's loop parses between its operators (its `NEXT`). */
    method Operand(lv: Grammar.Level) returns (r: Result<Expr>)
      requires c.Valid() && cur < |c.tokens|
      modifies this
      ensures Agrees(r, cur, Grammar.Operand(c, lv, old(cur)))
      decreases |c.tokens| - cur, 2 * Grammar.Rank(lv) + 2
    {
      if lv == Grammar.Multiplicative {
        r := Unary();
      } else {
        r := Level(Grammar.Lower(lv));
      }
    }

    /** `unaryExpression`. */
    method Unary() returns (r: Result<Expr>)
      requires c.Valid() && cur < |c.tokens|
      modifies this
      ensures Agrees(r, cur, Grammar.UnaryExpression(c, old(cur)))
      decreases |c.tokens| - cur, 1
    {
      var op := Grammar.PrefixOp(c.tokens[cur].id);
      if op.None? {
        r := Primary();
        return;
      }
      cur := cur + 1;
      var operand :- Unary();
      return Ok(Syntax.Unary(op.value, operand));
    }

    /** `primaryExpression`. */
    method Primary() returns (r: Result<Expr>)
      requires c.Valid() && cur < |c.tokens|
      modifies this
      ensures Agrees(r, cur, Grammar.PrimaryExpression(c, old(cur)))
      decreases |c.tokens| - cur, 0
    {
      var t := c.tokens[cur];
      if t.id.LParen? {
        cur := cur + 1;
        var e :- Expression();
        if !c.tokens[cur].id.RParen? {
          return Err(MissingRParen);
        }
        cur := cur + 1;
        return Ok(e);
      } else if t.id.Dollar? {
        cur := cur + 1;
        return Ok(Dollar);
      } else if t.id.Number? {
        cur := cur + 1;
        return Ok(Number(t.number));
      } else if t.id.LBracket? {
        cur := cur + 1;
        r := MemoryRead("b");
      } else if t.id.Ident? {
        var next := c.tokens[cur + 1].id;
        if next.At? {
          cur := cur + 2;
          if !c.tokens[cur].id.LBracket? {
            return Err(MissingLBracketAfterAt);
          }
          cur := cur + 1;
          r := MemoryRead(t.text);
        } else if next.LParen? {
          cur := cur + 2;
          r := FunctionCall(t.text);
        } else {
          var e :- Grammar.Variable(c.resolver, t.text);
          cur := cur + 1;
          return Ok(e);
        }
      } else {
        return Err(SyntaxError);
      }
    }

    /** The `mem:` label of `primaryExpression`, with the cursor after `[`. */
    method MemoryRead(tag: string) returns (r: Result<Expr>)
      requires c.Valid() && cur < |c.tokens|
      modifies this
      ensures Agrees(r, cur, Grammar.MemoryRead(c, tag, old(cur)))
      decreases |c.tokens| - cur, 25
    {
      var address :- Expression();
      if !c.tokens[cur].id.RBracket? {
        return Err(MissingRBracket);
      }
      cur := cur + 1;
      if tag == "b" {
        return Ok(MemByte(address));
      } else if tag == "w" {
        return Ok(MemWord(address));
      } else if tag == "d" {
        return Ok(MemDword(address));
      }
      return Err(UnknownDataType(tag));
    }

    /** The function-call branch of `primaryExpression`, with the cursor after `name(`. */
    method FunctionCall(name: string) returns (r: Result<Expr>)
      requires c.Valid() && cur < |c.tokens|
      modifies this
      ensures Agrees(r, cur, Grammar.FunctionCall(c, name, old(cur)))
      decreases |c.tokens| - cur, 27
    {
      var lowest := Grammar.LowestArity(c.resolver, name);
      var args: seq<Expr>;
      var e: Expr;
      match c.variant {
        case LessOop =>
          if lowest.None? {
            return Err(UnknownFunction(name));
          }
          args :- Arguments(TooManyArgumentsExpected(name, lowest.value));
          cur := cur + 1;
          e :- Grammar.Callee(c.resolver, name, args, ArgumentCountMismatch(name, lowest.value, |args|));
        case Oop =>
          args :- Arguments(TooManyArgumentsFor(name));
          cur := cur + 1;
          if lowest.None? {
            return Err(UnknownFunction(name));
          }
          e :- Grammar.Callee(c.resolver, name, args, ArgumentCountMismatch(name, lowest.value, |args|));
        case Original =>
          args :- Arguments(TooManyFunctionArguments);
          cur := cur + 1;
          if lowest.None? {
            return Err(UnknownFunction(name));
          }
          e :- Grammar.Callee(c.resolver, name, args, InvalidNumberOfArguments(name));
      }
      return Ok(e);
    }

    /** The argument loop; on success the cursor is on the closing `)`. */
    method Arguments(tooMany: Error) returns (r: Result<seq<Expr>>)
      requires c.Valid() && cur < |c.tokens|
      modifies this
      ensures Agrees(r, cur, Grammar.Arguments(c, old(cur), tooMany))
      ensures r.Ok? ==> |r.value| <= 3 && cur + 1 < |c.tokens|
      decreases |c.tokens| - cur, 26
    {
      if c.tokens[cur].id.RParen? {
        return Ok([]);
      }
      ghost var start := cur;
      var args: seq<Expr> := [];
      while true
        invariant start <= cur < |c.tokens| && |args| <= 3
        invariant Grammar.MoreArguments(c, cur, args, tooMany) == Grammar.Arguments(c, start, tooMany)
        decreases |c.tokens| - cur
      {
        if |args| >= 3 {
          return Err(tooMany);
        }
        var arg :- Expression();
        if c.tokens[cur].id.RParen? {
          return Ok(args + [arg]);
        }
        if !c.tokens[cur].id.Comma? {
          return Err(MissingComma);
        }
        cur := cur + 1;
        args := args + [arg];
      }
    }
  }

  /** `exprParse` / `Expr::parse`: scan `input`, then parse an expression that must use up every token. */
  method ExprParse(v: Variant, resolver: Resolver, input: string) returns (r: Result<Expr>)
    ensures r == Grammar.Parse(v, resolver, input)
  {
    var tokens :- Lexer.ExprLexer(input);
    var parser := new Parser(Grammar.Context(v, resolver, tokens));
    var e :- parser.Expression();
    if !tokens[parser.cur].id.End? {
      return Err(SyntaxError);
    }
    return Ok(e);
  }
}
