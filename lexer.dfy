/**
 * The scanner `exprLexer` (parser/lexer.cpp, copied verbatim as `scan` in
 * parser.cpp): a C string becomes a list of typed tokens ending in `End`.
 *
 * The input is a `string` read as a C string: `Peek` returns NUL past the
 * end, and the scan stops at the first NUL, wherever it is.
 * `ScanFrom` is the specification; `ExprLexer` is the character loop
 * of the source, proved equal to it.
 */
module Lexer {
  import opened Values
  import opened Errors

  datatype TokenId =
    | End | Number | Ident | At | Comma | Plus | Minus | Asterisk | Slash | Percent
    | LParen | RParen | Question | Colon | Ampersand | DoubleAmpersand | VBar | DoubleVBar
    | Caret | Tilde | Exclamation | Hash | Dollar | Equal | DoubleEqual | NotEqual
    | Less | LessEqual | Greater | GreaterEqual | Shr | Shl | LBracket | RBracket

  /** `number` is meaningful for `Number` tokens and `text` for `Ident` tokens; both are 0 / empty otherwise. */
  datatype Token = Token(id: TokenId, number: Value, text: string)

  function Simple(id: TokenId): Token
  {
    Token(id, 0, "")
  }

  const NUL: char := 0 as char

  /** Size of the identifier buffer `buf[128]`, the apostrophe included. */
  const MaxIdentifierLength: nat := 128

  /** `*input` at offset `i`: past the end of the string there is its terminating NUL. */
  function Peek(s: string, i: nat): char
  {
    if i < |s| then s[i] else NUL
  }

  predicate IsDigit(c: char) { '0' <= c <= '9' }
  predicate IsBinDigit(c: char) { c == '0' || c == '1' }
  predicate IsOctDigit(c: char) { '0' <= c <= '7' }
  predicate IsHexDigit(c: char) { IsDigit(c) || 'a' <= c <= 'f' || 'A' <= c <= 'F' }
  predicate IsLetter(c: char) { 'a' <= c <= 'z' || 'A' <= c <= 'Z' }
  predicate IsIdent(c: char) { IsLetter(c) || IsDigit(c) || c == '_' || c == '.' }
  predicate IsIdentStart(c: char) { IsLetter(c) || c == '_' || c == '.' }
  predicate IsSpace(c: char) { c == ' ' || c == '\t' || c == '\r' || c == '\n' }

  /** The value of a hexadecimal digit; anything else is an internal error. */
  function HexValue(c: char): (r: Result<nat>)
    ensures r.Ok? <==> IsHexDigit(c)
    ensures r.Ok? ==> r.value < 16
    ensures IsOctDigit(c) ==> r.value < 8
    ensures IsBinDigit(c) ==> r.value < 2
    ensures IsDigit(c) ==> r.value == c as int - '0' as int
    ensures 'a' <= c <= 'f' ==> r == Ok(c as int - 'a' as int + 10)
    ensures 'A' <= c <= 'F' ==> r == Ok(c as int - 'A' as int + 10)
  {
    if IsDigit(c) then Ok(c as int - '0' as int)
    else if 'a' <= c <= 'f' then Ok(c as int - 'a' as int + 10)
    else if 'A' <= c <= 'F' then Ok(c as int - 'A' as int + 10)
    else Err(InternalError)
  }

  /** The four kinds of number literal. */
  datatype Base = Binary | Octal | Decimal | Hexadecimal

  function Radix(b: Base): nat
  {
    match b
    case Binary => 2
    case Octal => 8
    case Decimal => 10
    case Hexadecimal => 16
  }

  predicate InBase(c: char, b: Base)
  {
    match b
    case Binary => IsBinDigit(c)
    case Octal => IsOctDigit(c)
    case Decimal => IsDigit(c)
    case Hexadecimal => IsHexDigit(c)
  }

  /** The syntax error of a malformed literal in base `b`. */
  function BaseError(b: Base): (e: Error)
    ensures IsLexical(e)
  {
    match b
    case Binary => BinarySyntax
    case Octal => OctalSyntax
    case Decimal => NumberSyntax
    case Hexadecimal => HexSyntax
  }

  /** `hexValue` of a digit of base `b` (0 for a character that is not a hex digit). */
  function DigitValue(c: char, b: Base): (d: nat)
    ensures InBase(c, b) ==> d < Radix(b)
  {
    if HexValue(c).Ok? then HexValue(c).value else 0
  }

  /**
   * One iteration of a digit loop: `value = value << k; value += digit;`
   * (`value * 10` for decimal), each statement wrapping to 32 bits.
   */
  function FoldStep(v: Value, c: char, b: Base): Value
  {
    Wrap(Wrap(v * Radix(b)) + DigitValue(c, b))
  }

  /** All of `s[i..j]` are digits of base `b`. */
  predicate AllInBase(s: string, i: nat, j: nat, b: Base)
    requires i <= j <= |s|
  {
    forall k :: i <= k < j ==> InBase(s[k], b)
  }

  /** The value the digit loop accumulates over the characters `s[i..j]`. */
  function Fold(s: string, i: nat, j: nat, b: Base): Value
    requires i <= j <= |s|
    decreases j - i
  {
    if j == i then 0 else FoldStep(Fold(s, i, j - 1, b), s[j - 1], b)
  }

  /** The exact value of the numeral `s[i..j]` in base `b`. */
  function Numeral(s: string, i: nat, j: nat, b: Base): nat
    requires i <= j <= |s|
    decreases j - i
  {
    if j == i then 0 else Numeral(s, i, j - 1, b) * Radix(b) + DigitValue(s[j - 1], b)
  }

  /**
   * A literal's value is its numeral reduced modulo 2^32 into `int`: the
   * digit loop wraps, it never saturates or fails.
   */
  lemma {:induction false} FoldIsNumeral(s: string, i: nat, j: nat, b: Base)
    requires i <= j <= |s|
    ensures Fold(s, i, j, b) == Wrap(Numeral(s, i, j, b))
    decreases j - i
  {
    if j > i {
      FoldIsNumeral(s, i, j - 1, b);
      FoldStepNumeral(Fold(s, i, j - 1, b), Numeral(s, i, j - 1, b), s[j - 1], b);
    }
  }

  /** A literal whose numeral fits in `int` has exactly that value. */
  lemma {:induction false} FoldFits(s: string, i: nat, j: nat, b: Base)
    requires i <= j <= |s| && Numeral(s, i, j, b) <= MaxValue
    ensures Fold(s, i, j, b) == Numeral(s, i, j, b)
  {
    FoldIsNumeral(s, i, j, b);
  }

  /** One digit step keeps the accumulator congruent to the numeral. */
  lemma {:induction false} FoldStepNumeral(f: Value, n: int, c: char, b: Base)
    requires f == Wrap(n)
    ensures FoldStep(f, c, b) == Wrap(n * Radix(b) + DigitValue(c, b))
  {
    WrapMulAdd(n, Radix(b), DigitValue(c, b));
  }

  /** The character classes whose maximal runs the scanner consumes. */
  datatype CharClass = DigitsOf(base: Base) | IdentChars

  predicate InClass(c: char, cls: CharClass)
  {
    match cls
    case DigitsOf(b) => InBase(c, b)
    case IdentChars => IsIdent(c)
  }

  /** The end of the maximal run of `cls` characters starting at `i`. */
  function RunEnd(s: string, i: nat, cls: CharClass): (r: nat)
    requires i <= |s|
    ensures i <= r <= |s|
    ensures forall k :: i <= k < r ==> InClass(s[k], cls)
    ensures !InClass(Peek(s, r), cls)
    decreases |s| - i
  {
    if i < |s| && InClass(s[i], cls) then RunEnd(s, i + 1, cls) else i
  }

  /**
   * The digits of a literal from `j`, which is known to start with one: a
   * maximal digit run that no identifier character may follow. (For decimal
   * literals the source leaves out the digit test, which cannot succeed
   * after a maximal run of decimal digits.)
   */
  function LexDigits(s: string, j: nat, b: Base): (r: Result<(Token, nat)>)
    requires j < |s| && InBase(s[j], b)
    ensures r.Ok? ==> r.value.0.id == Number && j < r.value.1 <= |s|
    ensures r.Err? ==> r.error == BaseError(b)
  {
    var k := RunEnd(s, j, DigitsOf(b));
    if IsIdent(Peek(s, k)) then Err(BaseError(b))
    else Ok((Token(Number, Fold(s, j, k, b), ""), k))
  }

  /** The digits after a `0x`, `0b` or `0o` prefix: at least one is required. */
  function LexPrefixed(s: string, j: nat, b: Base): (r: Result<(Token, nat)>)
    requires j <= |s|
    ensures r.Ok? ==> r.value.0.id == Number && j < r.value.1 <= |s|
    ensures r.Err? ==> r.error == BaseError(b)
    ensures !InBase(Peek(s, j), b) ==> r == Err(BaseError(b))
  {
    if InBase(Peek(s, j), b) then LexDigits(s, j, b) else Err(BaseError(b))
  }

  /**
   * An identifier: a maximal run of letters, digits, `_` and `.`, then at
   * most one `'`, at most `MaxIdentifierLength` characters in all.
   */
  function LexIdentifier(s: string, i: nat): (r: Result<(Token, nat)>)
    requires i < |s| && IsIdentStart(s[i])
    ensures r.Ok? ==> i < r.value.1 <= |s| && r.value.0 == Token(Ident, 0, s[i..r.value.1])
    ensures r.Ok? ==> r.value.1 - i <= MaxIdentifierLength
    ensures r.Err? ==> r.error == IdentifierTooLong
  {
    var k := RunEnd(s, i + 1, IdentChars);
    if k - i > MaxIdentifierLength then Err(IdentifierTooLong)
    else if Peek(s, k) == '\'' then
      if k - i >= MaxIdentifierLength then Err(IdentifierTooLong)
      else Ok((Token(Ident, 0, s[i..k + 1]), k + 1))
    else Ok((Token(Ident, 0, s[i..k]), k))
  }

  /** The single characters that are tokens by themselves, and their tokens. */
  function Punctuation(c: char): Option<TokenId>
  {
    match c
    case ',' => Some(Comma)
    case '@' => Some(At)
    case '(' => Some(LParen)
    case ')' => Some(RParen)
    case '[' => Some(LBracket)
    case ']' => Some(RBracket)
    case '?' => Some(Question)
    case ':' => Some(Colon)
    case '+' => Some(Plus)
    case '-' => Some(Minus)
    case '*' => Some(Asterisk)
    case '/' => Some(Slash)
    case '%' => Some(Percent)
    case '^' => Some(Caret)
    case '~' => Some(Tilde)
    case _ => None
  }

  predicate IsOperatorStart(c: char)
  {
    c == '&' || c == '|' || c == '=' || c == '!' || c == '<' || c == '>'
  }

  /**
   * The operator starting with `c` when `next` follows it: a two-character
   * operator is taken greedily, otherwise the one-character one; the width
   * is the number of characters consumed.
   */
  function Operator(c: char, next: char): (r: (TokenId, nat))
    requires IsOperatorStart(c)
  {
    if c == '&' then (if next == '&' then (DoubleAmpersand, 2) else (Ampersand, 1))
    else if c == '|' then (if next == '|' then (DoubleVBar, 2) else (VBar, 1))
    else if c == '=' then (if next == '=' then (DoubleEqual, 2) else (Equal, 1))
    else if c == '!' then (if next == '=' then (NotEqual, 2) else (Exclamation, 1))
    else if c == '<' then (if next == '=' then (LessEqual, 2) else if next == '<' then (Shl, 2) else (Less, 1))
    else (if next == '=' then (GreaterEqual, 2) else if next == '>' then (Shr, 2) else (Greater, 1))
  }

  function One(r: Result<(Token, nat)>): (o: Result<(seq<Token>, nat)>)
    ensures o.Ok? <==> r.Ok?
    ensures o.Ok? ==> o.value == ([r.value.0], r.value.1)
    ensures o.Err? ==> o.error == r.error
  {
    var (t, j) :- r;
    Ok(([t], j))
  }

  predicate NoEnd(ts: seq<Token>)
  {
    forall k :: 0 <= k < |ts| ==> ts[k].id != End
  }

  /** Every identifier token holds 1 to `MaxIdentifierLength` characters. */
  predicate IdentifiersFit(ts: seq<Token>)
  {
    forall k :: 0 <= k < |ts| && ts[k].id == Ident ==> 1 <= |ts[k].text| <= MaxIdentifierLength
  }

  /** A `$` or `#` followed by a hex digit, or a decimal digit, starts a number. */
  predicate NumberStart(s: string, i: nat)
    requires i < |s|
  {
    ((s[i] == '$' || s[i] == '#') && IsHexDigit(Peek(s, i + 1))) || IsDigit(s[i])
  }

  /**
   * The numeric cases of the `switch`: `$`/`#` with hex digits, `0x`, `0b`,
   * `0o`, the rejected leading zero, and decimal digits (a lone `0` among
   * them).
   */
  function LexNumber(s: string, i: nat): (r: Result<(Token, nat)>)
    requires i < |s| && NumberStart(s, i)
    ensures r.Ok? ==> r.value.0.id == Number && i < r.value.1 <= |s|
    ensures r.Err? ==> IsLexical(r.error)
  {
    var c := s[i];
    var next := Peek(s, i + 1);
    if c == '$' || c == '#' then LexDigits(s, i + 1, Hexadecimal)
    else if c == '0' && (next == 'x' || next == 'X') then LexPrefixed(s, i + 2, Hexadecimal)
    else if c == '0' && (next == 'b' || next == 'B') then LexPrefixed(s, i + 2, Binary)
    else if c == '0' && (next == 'o' || next == 'O') then LexPrefixed(s, i + 2, Octal)
    else if c == '0' && IsDigit(next) then Err(LeadingZero)
    else LexDigits(s, i, Decimal)
  }

  /**
   * One pass of the scanner's `switch` on the non-NUL character at `i`: the
   * tokens it emits (none for white space) and where the next pass starts.
   */
  function LexToken(s: string, i: nat): (r: Result<(seq<Token>, nat)>)
    requires i < |s| && s[i] != NUL
    ensures r.Ok? ==> i < r.value.1 <= |s| && |r.value.0| <= 1
    ensures r.Ok? ==> NoEnd(r.value.0) && IdentifiersFit(r.value.0)
    ensures r.Err? ==> IsLexical(r.error)
  {
    var c := s[i];
    var next := Peek(s, i + 1);
    if IsSpace(c) then Ok(([], i + 1))
    else if Punctuation(c).Some? then Ok(([Simple(Punctuation(c).value)], i + 1))
    else if IsOperatorStart(c) then
      var (id, width) := Operator(c, next);
      Ok(([Simple(id)], i + width))
    else if (c == '$' || c == '#') && !IsHexDigit(next) then Ok(([Simple(if c == '$' then Dollar else Hash)], i + 1))
    else if NumberStart(s, i) then One(LexNumber(s, i))
    else if IsIdentStart(c) then One(LexIdentifier(s, i))
    else Err(UnexpectedCharacter(c))
  }

  /** A token list as the scanner returns it: one `End`, at the end. */
  predicate Terminated(ts: seq<Token>)
  {
    |ts| >= 1 && ts[|ts| - 1] == Simple(End) && NoEnd(ts[..|ts| - 1])
  }

  lemma {:induction false} TerminatedPrepend(toks: seq<Token>, rest: seq<Token>)
    requires NoEnd(toks) && IdentifiersFit(toks)
    requires Terminated(rest) && IdentifiersFit(rest)
    ensures Terminated(toks + rest) && IdentifiersFit(toks + rest)
  {
    assert (toks + rest)[..|toks + rest| - 1] == toks + rest[..|rest| - 1];
  }

  function Prepend(ts: seq<Token>, r: Result<seq<Token>>): Result<seq<Token>>
  {
    if r.Ok? then Ok(ts + r.value) else r
  }

  /** The tokens of the C string starting at `i`, or the first error the scanner meets. */
  function ScanFrom(s: string, i: nat): (r: Result<seq<Token>>)
    requires i <= |s|
    ensures r.Ok? ==> Terminated(r.value) && IdentifiersFit(r.value)
    ensures r.Err? ==> IsLexical(r.error)
    decreases |s| - i
  {
    if Peek(s, i) == NUL then Ok([Simple(End)])
    else
      var (toks, j) :- LexToken(s, i);
      var rest :- ScanFrom(s, j);
      TerminatedPrepend(toks, rest);
      Ok(toks + rest)
  }

  /**
   * `exprLexer`: the tokens of the whole C string, ending in exactly one
   * `End`, or the lexical error that stopped the scan.
   */
  function Scan(s: string): (r: Result<seq<Token>>)
    ensures r.Ok? ==> Terminated(r.value) && IdentifiersFit(r.value)
    ensures r.Err? ==> IsLexical(r.error)
  {
    ScanFrom(s, 0)
  }

  /** A pass that emits `toks` and moves to `j` leaves the rest of the scan to start at `j`. */
  lemma {:induction false} ScanAdvance(s: string, i: nat, ts: seq<Token>, toks: seq<Token>, j: nat)
    requires i < |s| && s[i] != NUL && LexToken(s, i) == Ok((toks, j))
    ensures Prepend(ts, ScanFrom(s, i)) == Prepend(ts + toks, ScanFrom(s, j))
  {
    PrependAssoc(ts, toks, ScanFrom(s, j));
  }

  /** A pass that fails makes the whole scan fail with its error. */
  lemma {:induction false} ScanFails(s: string, i: nat, ts: seq<Token>)
    requires i < |s| && s[i] != NUL && LexToken(s, i).Err?
    ensures Prepend(ts, ScanFrom(s, i)) == Err(LexToken(s, i).error)
  {
  }

  lemma {:induction false} PrependNil(r: Result<seq<Token>>)
    ensures Prepend([], r) == r
  {
    if r.Ok? {
      assert [] + r.value == r.value;
    }
  }

  lemma {:induction false} PrependAssoc(ts: seq<Token>, toks: seq<Token>, r: Result<seq<Token>>)
    ensures Prepend(ts, Prepend(toks, r)) == Prepend(ts + toks, r)
  {
    if r.Ok? {
      assert ts + (toks + r.value) == (ts + toks) + r.value;
    }
  }

  /** The token list the scanner builds; `emitToken` appends at its end. */
  class TokenList {
    var tokens: seq<Token>

    constructor ()
      ensures tokens == []
    {
      tokens := [];
    }

    method Emit(t: Token)
      modifies this
      ensures tokens == old(tokens) + [t]
    {
      tokens := tokens + [t];
    }
  }

  /** A digit loop: the source's `do { ... } while (isXDigit(*input))`. */
  method ScanDigits(s: string, start: nat, b: Base) returns (value: Value, j: nat)
    requires start < |s| && InBase(s[start], b)
    ensures j == RunEnd(s, start, DigitsOf(b))
    ensures value == Fold(s, start, j, b)
  {
    value := 0;
    j := start;
    while true
      invariant start <= j < |s| && InBase(s[j], b)
      invariant value == Fold(s, start, j, b)
      invariant RunEnd(s, start, DigitsOf(b)) == RunEnd(s, j, DigitsOf(b))
      decreases |s| - j
    {
      RunEndStep(s, j, DigitsOf(b));
      value := FoldStep(value, s[j], b);
      j := j + 1;
      if !InBase(Peek(s, j), b) {
        return;
      }
    }
  }

  /** A run that continues at `j` ends where the run from `j + 1` ends. */
  lemma {:induction false} RunEndStep(s: string, j: nat, cls: CharClass)
    requires j < |s| && InClass(s[j], cls)
    ensures RunEnd(s, j, cls) == RunEnd(s, j + 1, cls)
  {
  }

  /** An identifier character at offset 128 or later makes the identifier too long. */
  lemma {:induction false} IdentifierOverflows(s: string, start: nat, j: nat)
    requires start < j < |s| && IsIdentStart(s[start]) && IsIdent(s[j]) && j - start >= MaxIdentifierLength
    requires RunEnd(s, start + 1, IdentChars) == RunEnd(s, j, IdentChars)
    ensures LexIdentifier(s, start) == Err(IdentifierTooLong)
  {
    RunEndStep(s, j, IdentChars);
  }

  lemma {:induction false} IdentifierRunEnds(s: string, start: nat, j: nat)
    requires start < j <= |s| && !IsIdent(Peek(s, j))
    requires RunEnd(s, start + 1, IdentChars) == RunEnd(s, j, IdentChars)
    ensures RunEnd(s, start + 1, IdentChars) == j
  {
  }

  /** The identifier loop, copying characters into the fixed buffer `buf[128]`. */
  method ScanIdentifier(s: string, start: nat) returns (r: Result<(Token, nat)>)
    requires start < |s| && IsIdentStart(s[start])
    ensures r == LexIdentifier(s, start)
  {
    var buf := new char[MaxIdentifierLength];
    var n := 0;
    buf[n] := s[start];
    n := n + 1;
    var j := start + 1;
    while IsIdent(Peek(s, j))
      invariant start < j <= |s| && n == j - start && n <= MaxIdentifierLength
      invariant forall k :: 0 <= k < n ==> buf[k] == s[start + k]
      invariant RunEnd(s, start + 1, IdentChars) == RunEnd(s, j, IdentChars)
      decreases |s| - j
    {
      if n >= MaxIdentifierLength {
        IdentifierOverflows(s, start, j);
        return Err(IdentifierTooLong);
      }
      RunEndStep(s, j, IdentChars);
      buf[n] := s[j];
      n := n + 1;
      j := j + 1;
    }
    IdentifierRunEnds(s, start, j);
    IdentifierAfterRun(s, start, j);
    if Peek(s, j) == '\'' {
      if n >= MaxIdentifierLength {
        return Err(IdentifierTooLong);
      }
      buf[n] := s[j];
      n := n + 1;
      j := j + 1;
    }
    var text := buf[..n];
    CopiedText(text, s, start, j);
    return Ok((Token(Ident, 0, text), j));
  }

  /** Once the run of identifier characters ends at `j`, only an apostrophe can follow. */
  lemma {:induction false} IdentifierAfterRun(s: string, start: nat, j: nat)
    requires start < j <= |s| && IsIdentStart(s[start]) && j - start <= MaxIdentifierLength
    requires RunEnd(s, start + 1, IdentChars) == j
    ensures LexIdentifier(s, start)
         == if Peek(s, j) != '\'' then Ok((Token(Ident, 0, s[start..j]), j))
            else if j - start >= MaxIdentifierLength then Err(IdentifierTooLong)
            else Ok((Token(Ident, 0, s[start..j + 1]), j + 1))
  {
  }

  /** Characters copied one by one from `s[start..j]` are that slice. */
  lemma {:induction false} CopiedText(text: string, s: string, start: nat, j: nat)
    requires start <= j <= |s| && |text| == j - start
    requires forall k :: 0 <= k < |text| ==> text[k] == s[start + k]
    ensures text == s[start..j]
  {
  }


  /**
   * A literal's digits from `start`: the first-digit check (which only a
   * prefixed literal can fail), the digit loop and the trailing check.
   */
  method ScanLiteral(input: string, start: nat, b: Base) returns (r: Result<(Token, nat)>)
    requires start <= |input|
    ensures r == LexPrefixed(input, start, b)
  {
    if !InBase(Peek(input, start), b) {
      return Err(BaseError(b));
    }
    var value, j := ScanDigits(input, start, b);
    if IsIdent(Peek(input, j)) {
      return Err(BaseError(b));
    }
    return Ok((Token(Number, value, ""), j));
  }

  /**
   * The numeric cases of the scanner's `switch`: `$`/`#` followed by a hex
   * digit, `0x`, `0b`, `0o`, a rejected leading zero, and decimal digits.
   */
  method ScanNumber(input: string, i: nat) returns (r: Result<(Token, nat)>)
    requires i < |input| && NumberStart(input, i)
    ensures r == LexNumber(input, i)
  {
    var c := input[i];
    var next := Peek(input, i + 1);
    if c == '$' || c == '#' {
      r := ScanLiteral(input, i + 1, Hexadecimal);
    } else if c == '0' && (next == 'x' || next == 'X') {
      r := ScanLiteral(input, i + 2, Hexadecimal);
    } else if c == '0' && (next == 'b' || next == 'B') {
      r := ScanLiteral(input, i + 2, Binary);
    } else if c == '0' && (next == 'o' || next == 'O') {
      r := ScanLiteral(input, i + 2, Octal);
    } else if c == '0' && IsDigit(next) {
      r := Err(LeadingZero);
    } else {
      r := ScanLiteral(input, i, Decimal);
    }
  }

  /** One pass of the scanner's `switch` on a character other than NUL. */
  method ScanToken(input: string, i: nat) returns (r: Result<(seq<Token>, nat)>)
    requires i < |input| && input[i] != NUL
    ensures r == LexToken(input, i)
  {
    var c := input[i];
    var next := Peek(input, i + 1);
    if IsSpace(c) {
      return Ok(([], i + 1));
    } else if Punctuation(c).Some? {
      return Ok(([Simple(Punctuation(c).value)], i + 1));
    } else if IsOperatorStart(c) {
      var (id, width) := Operator(c, next);
      return Ok(([Simple(id)], i + width));
    } else if (c == '$' || c == '#') && !IsHexDigit(next) {
      return Ok(([Simple(if c == '$' then Dollar else Hash)], i + 1));
    } else if NumberStart(input, i) {
      var number := ScanNumber(input, i);
      r := One(number);
    } else if IsIdentStart(c) {
      var ident := ScanIdentifier(input, i);
      r := One(ident);
    } else {
      return Err(UnexpectedCharacter(c));
    }
  }

  /**
   * One pass of the `for (;;)` loop on a character other than NUL: the
   * `switch`, then `emitToken` for the token it produced, if any.
   */
  method Pass(input: string, i: nat, list: TokenList) returns (r: Result<nat>)
    requires i < |input| && input[i] != NUL
    modifies list
    ensures r.Err? ==> Prepend(old(list.tokens), ScanFrom(input, i)) == Err(r.error)
    ensures r.Ok? ==> i < r.value <= |input|
    ensures r.Ok? ==> Prepend(old(list.tokens), ScanFrom(input, i)) == Prepend(list.tokens, ScanFrom(input, r.value))
  {
    var step := ScanToken(input, i);
    if step.Err? {
      ScanFails(input, i, list.tokens);
      return Err(step.error);
    }
    var (toks, j) := step.value;
    ScanAdvance(input, i, list.tokens, toks, j);
    AtMostOne(list.tokens, toks);
    if |toks| == 1 {
      list.Emit(toks[0]);
    }
    return Ok(j);
  }

  /** Appending a pass's tokens is emitting the one token it produced, if any. */
  lemma {:induction false} AtMostOne(ts: seq<Token>, toks: seq<Token>)
    requires |toks| <= 1
    ensures ts + toks == if |toks| == 1 then ts + [toks[0]] else ts
  {
    if |toks| == 1 {
      assert toks == [toks[0]];
    }
  }

  /** `exprLexer`: the scanner's `for (;;) switch (*input)` loop. */
  method ExprLexer(input: string) returns (r: Result<seq<Token>>)
    ensures r == Scan(input)
  {
    var list := new TokenList();
    var i := 0;
    PrependNil(ScanFrom(input, 0));
    while true
      invariant i <= |input|
      invariant Scan(input) == Prepend(list.tokens, ScanFrom(input, i))
      decreases |input| - i
    {
      if Peek(input, i) == NUL {
        list.Emit(Simple(End));
        return Ok(list.tokens);
      }
      var next := Pass(input, i, list);
      if next.Err? {
        return Err(next.error);
      }
      i := next.value;
    }
  }
}
