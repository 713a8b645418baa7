/**
 * The error kinds the lexer, the parsers and the evaluator raise, the
 * failure-compatible `Result` that carries them, and the message text
 * `ExprError` / `Expr::Error` formats for each.
 */
module Errors {

  datatype Option<T> = None | Some(value: T)

  /** One constructor per distinct message format; the arguments are what the format string receives. */
  datatype Error =
    // lexer
    | HexSyntax
    | BinarySyntax
    | OctalSyntax
    | LeadingZero
    | NumberSyntax
    | IdentifierTooLong
    | UnexpectedCharacter(c: char)
    | InternalError
    // parser: punctuation and syntax
    | MissingRParen
    | MissingRBracket
    | MissingColon
    | MissingComma
    | MissingLBracketAfterAt
    | SyntaxError
    // parser: names
    | UnknownDataType(name: string)
    | UnknownFunction(name: string)
    | UnknownIdentifier(name: string)
    // parser: function arguments, worded differently by the three parsers
    | TooManyArgumentsExpected(name: string, expected: nat)
    | TooManyArgumentsFor(name: string)
    | TooManyFunctionArguments
    | ArgumentCountMismatch(name: string, expected: nat, got: nat)
    | InvalidNumberOfArguments(name: string)
    // evaluator
    | DivisionByZero

  datatype Result<T> = Ok(value: T) | Err(error: Error)
  {
    predicate IsFailure() {
      Err?
    }

    function PropagateFailure<U>(): Result<U>
      requires Err?
    {
      Err(error)
    }

    function Extract(): T
      requires Ok?
    {
      value
    }
  }

  /** The number a string of decimal digits denotes, most significant digit first. */
  function DecimalValue(s: string): int
  {
    if |s| == 0 then 0 else DecimalValue(s[..|s| - 1]) * 10 + (s[|s| - 1] as int - '0' as int)
  }

  /**
   * The decimal text of `n`, as `%d` prints a non-negative number: digits
   * only, no leading zero, denoting `n`.
   */
  function NatToString(n: nat): (s: string)
    ensures |s| >= 1
    ensures forall k :: 0 <= k < |s| ==> '0' <= s[k] <= '9'
    ensures s[0] == '0' <==> n == 0
    ensures DecimalValue(s) == n
    decreases n
  {
    var digit := [(('0' as int) + n % 10) as char];
    if n < 10 then digit
    else
      var t := NatToString(n / 10) + digit;
      assert t[..|t| - 1] == NatToString(n / 10);
      t
  }

  function Quoted(name: string): string
  {
    "'" + name + "'"
  }

  /** The errors the lexer raises, as opposed to the parsers and the evaluator. */
  predicate IsLexical(e: Error)
  {
    e.HexSyntax? || e.BinarySyntax? || e.OctalSyntax? || e.LeadingZero? || e.NumberSyntax?
    || e.IdentifierTooLong? || e.UnexpectedCharacter?
  }

  /** The message each error carries: its text, ending in a full stop. */
  function Message(e: Error): (m: string)
    ensures |m| >= 1 && m[|m| - 1] == '.'
  {
    Text(e) + "."
  }

  /** The text of each error's message, without its final full stop. */
  function Text(e: Error): string
  {
    match e
    case HexSyntax => "syntax error in hexadecimal number"
    case BinarySyntax => "syntax error in binary number"
    case OctalSyntax => "syntax error in octal number"
    case LeadingZero => "numbers starting with '0' are not supported, use '0o' prefix for octal numbers"
    case NumberSyntax => "syntax error in number"
    case IdentifierTooLong => "identifier too long"
    case UnexpectedCharacter(c) => "unexpected character " + Quoted([c])
    case InternalError => "internal error"
    case MissingRParen => "missing ')'"
    case MissingRBracket => "missing ']'"
    case MissingColon => "missing ':'"
    case MissingComma => "missing ','"
    case MissingLBracketAfterAt => "missing '[' after '@'"
    case SyntaxError => "syntax error in expression"
    case UnknownDataType(name) => "unknown data type " + Quoted(name)
    case UnknownFunction(name) => "unknown function " + Quoted(name)
    case UnknownIdentifier(name) => "unknown identifier " + Quoted(name)
    case TooManyArgumentsExpected(name, expected) =>
      "too many arguments for function " + Quoted(name) + " (expected " + NatToString(expected) + ")"
    case TooManyArgumentsFor(name) => "too many arguments for function " + Quoted(name)
    case TooManyFunctionArguments => "too many function arguments"
    case ArgumentCountMismatch(name, expected, got) =>
      "invalid number of arguments for function " + Quoted(name)
      + " (expected " + NatToString(expected) + ", got " + NatToString(got) + ")"
    case InvalidNumberOfArguments(name) => "invalid number of arguments for function " + Quoted(name)
    case DivisionByZero => "division by zero"
  }

  /**
   * "unknown identifier" quotes exactly the name it was given: two names
   * give the same message only when they are the same text, so `var.` and
   * `var` are told apart.
   */
  lemma {:induction false} UnknownIdentifierQuotesName(a: string, b: string)
    ensures Message(UnknownIdentifier(a)) == "unknown identifier " + Quoted(a) + "."
    ensures Message(UnknownIdentifier(a)) == Message(UnknownIdentifier(b)) <==> a == b
  {
    QuotedFramed("unknown identifier ", a, b, ".");
  }

  /** A quoted name between a fixed prefix and a fixed suffix is recovered from the whole. */
  lemma {:induction false} QuotedFramed(p: string, a: string, b: string, q: string)
    ensures p + Quoted(a) + q == p + Quoted(b) + q ==> a == b
  {
    if p + Quoted(a) + q == p + Quoted(b) + q {
      assert a == (p + Quoted(a) + q)[|p| + 1..|p| + 1 + |a|];
    }
  }
}
