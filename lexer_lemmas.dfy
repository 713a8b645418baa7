/**
 * What the scanner promises about the tokens it emits: white space and
 * punctuation, greedy operators, the values and errors of number literals,
 * the identifier limit and the characters it refuses.
 */
module LexerLemmas {
  import opened Values
  import opened Errors
  import opened Lexer

  /** White space emits no token: the scan goes on from the next character. */
  lemma {:induction false} SpaceEmitsNothing(s: string, i: nat)
    requires i < |s| && IsSpace(s[i])
    ensures ScanFrom(s, i) == ScanFrom(s, i + 1)
  {
    SpaceToken(s, i);
    ScanAdvance(s, i, [], [], i + 1);
    PrependNil(ScanFrom(s, i));
    PrependNil(ScanFrom(s, i + 1));
  }

  lemma {:induction false} SpaceToken(s: string, i: nat)
    requires i < |s| && IsSpace(s[i])
    ensures s[i] != NUL && LexToken(s, i).Ok? && LexToken(s, i).value.0 == [] && LexToken(s, i).value.1 == i + 1
  {
  }

  /** A punctuation character is one token by itself and the scan goes on from the next character. */
  lemma {:induction false} PunctuationEmitsOne(s: string, i: nat)
    requires i < |s| && Punctuation(s[i]).Some?
    ensures ScanFrom(s, i) == Prepend([Simple(Punctuation(s[i]).value)], ScanFrom(s, i + 1))
  {
    PunctuationToken(s, i);
    ScanAdvance(s, i, [], [Simple(Punctuation(s[i]).value)], i + 1);
    PrependNil(ScanFrom(s, i));
  }

  lemma {:induction false} PunctuationToken(s: string, i: nat)
    requires i < |s| && Punctuation(s[i]).Some?
    ensures s[i] != NUL && LexToken(s, i) == Ok(([Simple(Punctuation(s[i]).value)], i + 1))
  {
  }

  /** The two-character operators, spelled out. */
  function TwoCharOperator(c: char, next: char): Option<TokenId>
  {
    if [c, next] == "&&" then Some(DoubleAmpersand)
    else if [c, next] == "||" then Some(DoubleVBar)
    else if [c, next] == "==" then Some(DoubleEqual)
    else if [c, next] == "!=" then Some(NotEqual)
    else if [c, next] == "<=" then Some(LessEqual)
    else if [c, next] == ">=" then Some(GreaterEqual)
    else if [c, next] == "<<" then Some(Shl)
    else if [c, next] == ">>" then Some(Shr)
    else None
  }

  /** The one-character operators that also start a two-character one. */
  function OneCharOperator(c: char): TokenId
    requires IsOperatorStart(c)
  {
    match c
    case '&' => Ampersand
    case '|' => VBar
    case '=' => Equal
    case '!' => Exclamation
    case '<' => Less
    case '>' => Greater
  }

  /**
   * Operators are taken greedily: a two-character operator is one token of
   * width 2, and only when none matches is the one-character token emitted.
   */
  lemma {:induction false} OperatorGreedy(s: string, i: nat)
    requires i < |s| && IsOperatorStart(s[i])
    ensures TwoCharOperator(s[i], Peek(s, i + 1)).Some? ==>
      ScanFrom(s, i) == Prepend([Simple(TwoCharOperator(s[i], Peek(s, i + 1)).value)], ScanFrom(s, i + 2))
    ensures TwoCharOperator(s[i], Peek(s, i + 1)).None? ==>
      ScanFrom(s, i) == Prepend([Simple(OneCharOperator(s[i]))], ScanFrom(s, i + 1))
  {
    OperatorTable(s[i], Peek(s, i + 1));
    OperatorScan(s, i);
  }

  /** An operator is one token, as wide as `Operator` says. */
  lemma {:induction false} OperatorScan(s: string, i: nat)
    requires i < |s| && IsOperatorStart(s[i])
    ensures i + Operator(s[i], Peek(s, i + 1)).1 <= |s|
    ensures ScanFrom(s, i) == Prepend([Simple(Operator(s[i], Peek(s, i + 1)).0)], ScanFrom(s, i + Operator(s[i], Peek(s, i + 1)).1))
  {
    OperatorToken(s, i);
    ScanAdvance(s, i, [], [Simple(Operator(s[i], Peek(s, i + 1)).0)], i + Operator(s[i], Peek(s, i + 1)).1);
    PrependNil(ScanFrom(s, i));
  }

  lemma {:induction false} OperatorToken(s: string, i: nat)
    requires i < |s| && IsOperatorStart(s[i])
    ensures s[i] != NUL && i + Operator(s[i], Peek(s, i + 1)).1 <= |s|
    ensures LexToken(s, i) == Ok(([Simple(Operator(s[i], Peek(s, i + 1)).0)], i + Operator(s[i], Peek(s, i + 1)).1))
  {
  }

  /** The scanner's operator decision agrees with the spelled-out table. */
  lemma {:induction false} OperatorTable(c: char, next: char)
    requires IsOperatorStart(c)
    ensures TwoCharOperator(c, next).Some? ==> Operator(c, next) == (TwoCharOperator(c, next).value, 2)
    ensures TwoCharOperator(c, next).None? ==> Operator(c, next) == (OneCharOperator(c), 1)
  {
  }

  /** All of `s[i..j]` are the character `d`. */
  predicate AllAre(s: string, i: nat, j: nat, d: char)
    requires i <= j <= |s|
  {
    forall k :: i <= k < j ==> s[k] == d
  }

  /** `n` binary ones are the numeral 2^n - 1. */
  lemma {:induction false} OnesNumeral(s: string, i: nat, j: nat)
    requires i <= j <= |s| && AllAre(s, i, j, '1')
    ensures Numeral(s, i, j, Binary) == Pow2(j - i) - 1
    decreases j - i
  {
    if j > i {
      OnesNumeral(s, i, j - 1);
    }
  }

  lemma {:induction false} Pow2Split(n: nat)
    requires n >= 32
    ensures Pow2(n) == Pow2(n - 32) * Modulus
    decreases n
  {
    if n == 32 {
      Pow2Values();
    } else {
      Pow2Split(n - 1);
    }
  }

  /**
   * The digit loop wraps: 32 or more binary ones accumulate to all bits
   * set, which is -1 as an `int` (`0xffffffff`).
   */
  lemma {:induction false} AllOnesWrap(s: string, i: nat, j: nat)
    requires i <= j <= |s| && j - i >= 32 && AllAre(s, i, j, '1')
    ensures Fold(s, i, j, Binary) == -1
  {
    FoldIsNumeral(s, i, j, Binary);
    OnesNumeral(s, i, j);
    Pow2Split(j - i);
    var c := Pow2(j - i - 32);
    WrapShift(-1, c);
    assert Numeral(s, i, j, Binary) == -1 + c * Modulus;
  }

  /** A `0b` literal of 32 ones, with nothing that continues it, is the token for -1. */
  lemma {:induction false} BinaryAllOnesLiteral(s: string, i: nat, j: nat)
    requires i + 2 < j <= |s| && s[i] == '0' && s[i + 1] == 'b'
    requires j - (i + 2) >= 32 && AllAre(s, i + 2, j, '1') && !IsIdent(Peek(s, j))
    ensures LexNumber(s, i) == Ok((Token(Number, -1, ""), j))
  {
    OnesRun(s, i + 2, j);
    AllOnesWrap(s, i + 2, j);
    BinaryPrefix(s, i);
    DigitsAt(s, i + 2, Binary, j);
  }

  lemma {:induction false} BinaryPrefix(s: string, i: nat)
    requires i + 2 < |s| && s[i] == '0' && s[i + 1] == 'b' && IsBinDigit(s[i + 2])
    ensures NumberStart(s, i) && LexNumber(s, i) == LexDigits(s, i + 2, Binary)
  {
  }

  /** The digit run from `j` ends at `end`: the literal is refused or is the value of that run. */
  lemma {:induction false} DigitsAt(s: string, j: nat, b: Base, end: nat)
    requires j < |s| && InBase(s[j], b) && end == RunEnd(s, j, DigitsOf(b))
    ensures LexDigits(s, j, b)
         == if IsIdent(Peek(s, end)) then Err(BaseError(b)) else Ok((Token(Number, Fold(s, j, end, b), ""), end))
  {
  }

  /** A run of ones followed by a character that is no binary digit ends there. */
  lemma {:induction false} OnesRun(s: string, i: nat, j: nat)
    requires i <= j <= |s| && AllAre(s, i, j, '1') && !IsBinDigit(Peek(s, j))
    ensures RunEnd(s, i, DigitsOf(Binary)) == j
    decreases j - i
  {
    if i < j {
      OnesRun(s, i + 1, j);
    }
  }

  /** The value of a literal is its numeral modulo 2^32, and its digits are a maximal run of that base. */
  lemma {:induction false} LiteralValue(s: string, j: nat, b: Base)
    requires j < |s| && InBase(s[j], b) && LexDigits(s, j, b).Ok?
    ensures var (t, k) := LexDigits(s, j, b).value;
      t.number == Wrap(Numeral(s, j, k, b)) && AllInBase(s, j, k, b) && !IsIdent(Peek(s, k))
  {
    FoldIsNumeral(s, j, RunEnd(s, j, DigitsOf(b)), b);
  }

  /** The base a `0x`, `0b` or `0o` prefix (either case) selects. */
  function PrefixBase(next: char): Option<Base>
  {
    if next == 'x' || next == 'X' then Some(Hexadecimal)
    else if next == 'b' || next == 'B' then Some(Binary)
    else if next == 'o' || next == 'O' then Some(Octal)
    else None
  }

  /**
   * The errors of a literal that starts with a decimal digit: a base prefix
   * with no digit of that base after it, a `0` before another digit, and a
   * digit run that a letter, digit, `_` or `.` continues, each reported with
   * its own message.
   */
  lemma {:induction false} LiteralErrors(s: string, i: nat)
    requires i < |s| && IsDigit(s[i])
    ensures s[i] == '0' && PrefixBase(Peek(s, i + 1)).Some? && !InBase(Peek(s, i + 2), PrefixBase(Peek(s, i + 1)).value) ==>
      LexNumber(s, i) == Err(BaseError(PrefixBase(Peek(s, i + 1)).value))
    ensures s[i] == '0' && PrefixBase(Peek(s, i + 1)).Some? && InBase(Peek(s, i + 2), PrefixBase(Peek(s, i + 1)).value) ==>
      (LexNumber(s, i).Err? <==> IsIdent(Peek(s, RunEnd(s, i + 2, DigitsOf(PrefixBase(Peek(s, i + 1)).value)))))
    ensures s[i] == '0' && IsDigit(Peek(s, i + 1)) ==> LexNumber(s, i) == Err(LeadingZero)
    ensures !(s[i] == '0' && (PrefixBase(Peek(s, i + 1)).Some? || IsDigit(Peek(s, i + 1)))) ==>
      (LexNumber(s, i).Err? <==> IsIdent(Peek(s, RunEnd(s, i, DigitsOf(Decimal)))))
    ensures s[i] == '0' && PrefixBase(Peek(s, i + 1)).Some? && LexNumber(s, i).Err? ==>
      LexNumber(s, i).error == BaseError(PrefixBase(Peek(s, i + 1)).value)
    ensures !(s[i] == '0' && (PrefixBase(Peek(s, i + 1)).Some? || IsDigit(Peek(s, i + 1)))) && LexNumber(s, i).Err? ==>
      LexNumber(s, i).error == NumberSyntax
  {
  }

  /** Where an identifier starting at `i` ends: its run of identifier characters and at most one `'`. */
  function IdentifierEnd(s: string, i: nat): (k: nat)
    requires i < |s|
    ensures i < k <= |s|
  {
    var run := RunEnd(s, i + 1, IdentChars);
    if Peek(s, run) == '\'' then run + 1 else run
  }

  /**
   * The identifier limit: the text of an identifier is everything up to its
   * end, and it is refused exactly when that is more than
   * `MaxIdentifierLength` characters (128 are accepted, 129 are not).
   */
  lemma {:induction false} IdentifierLimit(s: string, i: nat)
    requires i < |s| && IsIdentStart(s[i])
    ensures LexIdentifier(s, i).Err? <==> IdentifierEnd(s, i) - i > MaxIdentifierLength
    ensures LexIdentifier(s, i).Ok? ==>
      LexIdentifier(s, i).value == (Token(Ident, 0, s[i..IdentifierEnd(s, i)]), IdentifierEnd(s, i))
  {
  }

  /** The characters the scanner has a case for. */
  predicate Handled(c: char)
  {
    IsSpace(c) || Punctuation(c).Some? || IsOperatorStart(c) || c == '$' || c == '#' || IsDigit(c) || IsIdentStart(c)
  }

  /** A character the scanner has no case for is refused by name, and only such a character. */
  lemma {:induction false} UnexpectedCharacterRefused(s: string, i: nat)
    requires i < |s| && s[i] != NUL
    ensures LexToken(s, i) == Err(UnexpectedCharacter(s[i])) <==> !Handled(s[i])
    ensures !Handled(s[i]) ==> ScanFrom(s, i) == Err(UnexpectedCharacter(s[i]))
  {
    if !Handled(s[i]) {
      ScanFails(s, i, []);
      PrependNil(ScanFrom(s, i));
    }
  }

  /** `$` or `#` not followed by a hex digit is a token of its own. */
  lemma {:induction false} DollarAlone(s: string, i: nat)
    requires i < |s| && (s[i] == '$' || s[i] == '#') && !IsHexDigit(Peek(s, i + 1))
    ensures ScanFrom(s, i) == Prepend([Simple(if s[i] == '$' then Dollar else Hash)], ScanFrom(s, i + 1))
  {
    DollarToken(s, i);
    ScanAdvance(s, i, [], [Simple(if s[i] == '$' then Dollar else Hash)], i + 1);
    PrependNil(ScanFrom(s, i));
  }

  lemma {:induction false} DollarToken(s: string, i: nat)
    requires i < |s| && (s[i] == '$' || s[i] == '#') && !IsHexDigit(Peek(s, i + 1))
    ensures s[i] != NUL && LexToken(s, i) == Ok(([Simple(if s[i] == '$' then Dollar else Hash)], i + 1))
  {
  }

  /** Looking `m` characters on is the same in two strings with the same tail. */
  lemma {:induction false} PeekShift(s: string, i: nat, t: string, k: nat, m: nat)
    requires i <= |s| && k <= |t| && s[i..] == t[k..]
    ensures Peek(s, i + m) == Peek(t, k + m)
  {
    if i + m < |s| {
      assert s[i + m] == s[i..][m];
    }
  }

  /** A run of one class has the same length in two strings with the same tail. */
  lemma {:induction false} RunEndShift(s: string, i: nat, t: string, k: nat, cls: CharClass)
    requires i <= |s| && k <= |t| && s[i..] == t[k..]
    ensures RunEnd(s, i, cls) - i == RunEnd(t, k, cls) - k
    decreases |s| - i
  {
    if i < |s| {
      assert s[i] == s[i..][0];
      assert s[i + 1..] == s[i..][1..];
      assert t[k + 1..] == t[k..][1..];
      RunEndShift(s, i + 1, t, k + 1, cls);
    }
  }

  /** The digit loop gives the same value on the same characters wherever they stand. */
  lemma {:induction false} FoldShift(s: string, i: nat, j: nat, t: string, k: nat, b: Base)
    requires i <= j <= |s| && k <= |t| && s[i..] == t[k..]
    ensures k + (j - i) <= |t| && Fold(s, i, j, b) == Fold(t, k, k + (j - i), b)
    decreases j - i
  {
    if j > i {
      FoldShift(s, i, j - 1, t, k, b);
      assert s[j - 1] == s[i..][j - 1 - i];
    }
  }

  /** The digits of a literal give the same token in two strings with the same tail. */
  lemma {:induction false} DigitsShift(s: string, i: nat, t: string, k: nat, b: Base)
    requires i < |s| && k < |t| && s[i..] == t[k..] && InBase(s[i], b)
    ensures InBase(t[k], b)
    ensures LexDigits(s, i, b).Ok? <==> LexDigits(t, k, b).Ok?
    ensures LexDigits(s, i, b).Ok? ==>
      LexDigits(t, k, b).value.0 == LexDigits(s, i, b).value.0
      && LexDigits(t, k, b).value.1 - k == LexDigits(s, i, b).value.1 - i
  {
    HeadShift(s, i, t, k);
    var end := RunEnd(s, i, DigitsOf(b));
    RunEndShift(s, i, t, k, DigitsOf(b));
    PeekShift(s, i, t, k, end - i);
    FoldShift(s, i, end, t, k, b);
    DigitsAgree(s, i, t, k, b, end, RunEnd(t, k, DigitsOf(b)));
  }

  /** Two digit runs of the same length, value and follower lex alike. */
  lemma {:induction false} DigitsAgree(s: string, i: nat, t: string, k: nat, b: Base, end: nat, end': nat)
    requires i < |s| && k < |t| && InBase(s[i], b) && InBase(t[k], b)
    requires end == RunEnd(s, i, DigitsOf(b)) && end' == RunEnd(t, k, DigitsOf(b)) && end' - k == end - i
    requires Peek(s, end) == Peek(t, end') && Fold(s, i, end, b) == Fold(t, k, end', b)
    ensures LexDigits(s, i, b).Ok? <==> LexDigits(t, k, b).Ok?
    ensures LexDigits(s, i, b).Ok? ==>
      LexDigits(t, k, b).value.0 == LexDigits(s, i, b).value.0
      && LexDigits(t, k, b).value.1 - k == LexDigits(s, i, b).value.1 - i
  {
  }

  lemma {:induction false} HeadShift(s: string, i: nat, t: string, k: nat)
    requires i < |s| && k < |t| && s[i..] == t[k..]
    ensures s[i] == t[k]
  {
    assert s[i] == s[i..][0] && t[k] == t[k..][0];
  }

  /**
   * `$` and `#` before a hex digit are another spelling of `0x`: `$1234`
   * and `0x1234` give the same token, and a literal that fails fails alike.
   */
  lemma {:induction false} DollarIsHexPrefix(s: string, t: string)
    requires |s| >= 2 && (s[0] == '$' || s[0] == '#') && IsHexDigit(s[1])
    requires |t| >= 2 && t[0] == '0' && (t[1] == 'x' || t[1] == 'X') && s[1..] == t[2..]
    ensures LexToken(s, 0).Ok? <==> LexToken(t, 0).Ok?
    ensures LexToken(s, 0).Ok? ==>
      LexToken(t, 0).value.0 == LexToken(s, 0).value.0 && LexToken(t, 0).value.1 == LexToken(s, 0).value.1 + 1
    ensures LexToken(s, 0).Err? ==> LexToken(s, 0).error == HexSyntax && LexToken(t, 0).error == HexSyntax
  {
    DigitsShift(s, 1, t, 2, Hexadecimal);
  }
}
