# Expression compiler: a Dafny model

The repository compiles assembler-style integer expressions (`9+4*3`,
`[w@ptr + 2]`, `fn(1, $) ? 1 : 0`) into a syntax tree and evaluates that
tree on 32-bit signed integers. A host program supplies a resolver for
variables and functions, and an evaluator for `$` (the program counter)
and for memory reads. The compiler exists in three copies:

- the tagged-union copy, `parser/parser_lessoop.cpp`;
- the class-per-node copy, `parser/parser_oop.cpp`;
- the original single-file copy, `parser.cpp`.

All three share one lexer, `parser/lexer.cpp`. The original copy's
internal `scan` is the same code, and this model treats the two as one
lexer. In the same way, the class-per-node copy and the original copy have
identical `evaluate` bodies, so one model serves both;
`Evaluation.OopMatchesOriginal` holds by that construction.

Two details of the code that the model follows as written:

- `&&`, `||` and `?:` evaluate only the operands they need, as the C++
  operators do (parser/parser_lessoop.cpp:52-54).
- An identifier, a trailing apostrophe included, is at most 128
  characters (parser/lexer.cpp:357-375).

The model is organised by the program's layers:

- `values.dfy` (module `Values`): the C++ `int` as an integer subset type.
  It wraps modulo 2^32, uses C++'s truncating `/` and `%`, and defines
  bitwise operators on the two's-complement pattern, an arithmetic and a
  logical `>>`, and `<<`.
- `errors.dfy` (module `Errors`): each `ExprError` the source throws, as a
  datatype constructor, with the message text it carries.
- `syntax.dfy` (module `Syntax`): the syntax tree every copy builds, and the
  resolver interface. The tagged record and the node classes are one
  datatype whose constructors carry exactly the live fields.
- `lexer.dfy` (module `Lexer`): `exprLexer` twice over.
  - As functions: one token at a time (`LexToken`), then the whole input
    (`Scan`).
  - As the source writes it: a loop over the input that appends to a token
    list object (`TokenList`). The loop is proved to return exactly
    `Scan(input)`.
- `lexer_lemmas.dfy`: what the lexer promises. This covers white space,
  longest-match operators, numeric literals and their error cases, `$`
  and `#` as hexadecimal prefixes, and the identifier length limit.
- `eval.dfy` (module `Evaluation`): `exprEvaluate` and the `evaluate`
  methods, parameterised by which copy runs. Its lemmas cover
  short-circuiting, division, memory reads, the one place where the copies
  disagree (`>>` on negative values), and agreement everywhere else.
- `grammar.dfy` (module `Grammar`): the recursive-descent ladder as
  functions over the token list and a cursor. The ten binary levels, from
  `multiplicativeExpression` to `logicalOrExpression`, are one
  table-driven production.
- `grammar_lemmas.dfy`: precedence and associativity, the shape of `?:`,
  memory reads, function-call arity checking in each copy's order, and
  whole-input parsing.
- `parser.dfy` (module `Parsing`): the parser as the source writes it. A
  class holds the token cursor, and each production is a method that
  advances the cursor. `ExprParse` is proved equal to `Grammar.Parse`.
- `scenarios.dfy`: a few of the repository's test expressions, parsed and
  evaluated.

Behaviour that C++ leaves undefined is its own evaluation outcome,
`Undefined`, so the model names the inputs that reach it. These are:

- a shift count outside 0..31;
- a left shift of a negative value;
- a left shift whose exact product is 2^32 or more, such as `3 << 31`;
- `INT_MIN / -1` and `INT_MIN % -1`.

For `<<` this is the rule of C++ before C++20. Under it, a product that
fits 32 unsigned bits, such as `1 << 31`, is defined, and it wraps to an
`int`.

This replaces preconditions on the evaluator. A precondition on a whole
tree's evaluation would need a predicate that is itself an evaluator, and
it would hide which operator is at fault.

## Model

| member | source | states |
|---|---|---|
| Errors.NatToString | parser/parser_lessoop.cpp:182 | `%d` of a non-negative count: decimal digits only, no leading zero, denoting the count |
| Errors.Message | parser.cpp:29-36 | every error's message is a sentence ending in a full stop |
| Errors.UnknownIdentifierQuotesName | parser.cpp:1154-1155 | "unknown identifier" quotes the name exactly, so different names give different messages, as `var.` and `var` do |
| Values.Wrap | parser/parser_lessoop.cpp:68-71 | the result is congruent to the exact integer modulo 2^32 and equals it whenever it fits in an `int` |
| Values.ToU32 | parser.cpp:918-932 | the `uint32_t` cast keeps the value modulo 2^32 |
| Values.FromU32 | parser/parser_lessoop.cpp:43 | a `uint32_t` read back as `int` is its wrap-around |
| Values.FromBool | parser/parser_lessoop.cpp:60-65 | a C++ truth value is 0 or 1, and is 1 exactly when the condition holds |
| Values.Complement | parser/parser_lessoop.cpp:59 | `~a` flips every one of the 32 bits |
| Values.BitwiseValue | parser/parser_lessoop.cpp:56-58 | bitwise and, or and exclusive or act bit by bit on the 32-bit two's-complement patterns |
| Values.TruncDivRem | parser/parser_lessoop.cpp:72-73 | C++ `/` and `%`: `q*d + r == n`, the quotient is truncated toward zero with the sign of `n` times `d`, and the remainder is smaller than the divisor and has the sign of `n` |
| Values.Quotient | parser.cpp:997-1014 | `/` away from the overflow case is the truncated quotient |
| Values.QuotientFits | parser.cpp:997-1014 | outside `INT_MIN / -1`, the truncated quotient always fits in an `int` |
| Values.Remainder | parser.cpp:1016-1033 | `%` away from the overflow case is the truncated remainder |
| Values.ShiftLeft | parser/parser_lessoop.cpp:66 | `a << b` is `a * 2^b` modulo 2^32 |
| Values.HalveDivides | parser/parser_lessoop.cpp:67 | halving `n` times, rounding down each time, is one floor division by 2^n |
| Values.ShiftRightArithmetic | parser/parser_lessoop.cpp:67 | the signed `>>` by `b` is the floor of `a / 2^b`: it keeps the sign and never grows the magnitude |
| Values.ShiftRightLogical | parser/parser_oop.cpp:481-495 | the `uint32_t` `>>` by `b` divides the unsigned pattern by 2^b, rounding down |
| Values.ShiftRightAgreement | parser.cpp:918-932 | both right shifts agree on non-negative values; on a negative value shifted at least once, the signed one stays negative and the unsigned one does not |
| Lexer.HexValue | parser/lexer.cpp:85-106 | `hexValue` succeeds exactly on hex digits; `0`-`9` have values 0 to 9, and `a`-`f` and `A`-`F` have values 10 to 15 |
| Lexer.Fold | parser/lexer.cpp:296-333 | the digit loop's running value: each digit shifts the value by the base and adds the digit, wrapping to 32 bits; its closed form is stated by `Lexer.FoldIsNumeral` |
| Lexer.FoldIsNumeral | parser/lexer.cpp:296-333 | the digit loop's running value is the literal's exact value, wrapped to 32 bits |
| Lexer.FoldFits | parser/lexer.cpp:340-344 | a literal that fits in an `int` reads as its exact value |
| Lexer.RunEnd | parser/lexer.cpp:297-301 | a maximal run of characters of one class, ending at the first character outside the class |
| Lexer.LexDigits | parser/lexer.cpp:296-305 | a prefixed literal's digits give a number token that consumes input, or the base's syntax error |
| Lexer.LexPrefixed | parser/lexer.cpp:292-295 | after `0x`, `0b` or `0o`, a missing digit is that base's syntax error, and every error it gives is that base's |
| Lexer.LexIdentifier | parser/lexer.cpp:357-375 | an identifier token holds exactly the text it spans, at most 128 characters, or its lexing fails with "identifier too long." |
| Lexer.LexNumber | parser/lexer.cpp:291-349 | a number start yields a number token that consumes input, or an error |
| Lexer.LexToken | parser/lexer.cpp:130-380 | each step consumes input and yields at most one token, never the end marker, and identifiers within the limit |
| Lexer.ScanFrom | parser/lexer.cpp:129-133 | a successful scan ends with exactly one end-of-input token, and every identifier fits the limit; a failed one fails with a lexical error |
| Lexer.Scan | parser/lexer.cpp:123-382 | `exprLexer`: the token list ends in exactly one end-of-input token and every identifier fits the limit, or the scan fails with a lexical error, never a parser or evaluator error |
| Lexer.TokenList.Emit | parser/lexer.cpp:108-121 | `emitToken` appends one token to the list |
| Lexer.ScanDigits | parser/lexer.cpp:297-301 | the digit loop stops at the run's end with the folded value |
| Lexer.ScanIdentifier | parser/lexer.cpp:357-375 | the identifier loop with its buffer computes `LexIdentifier` |
| Lexer.ScanLiteral | parser/lexer.cpp:307-319 | the prefixed-literal branch computes `LexPrefixed` |
| Lexer.ScanNumber | parser/lexer.cpp:291-349 | the number branches compute `LexNumber` |
| Lexer.ScanToken | parser/lexer.cpp:130-379 | one iteration of the lexer's `switch` computes `LexToken` |
| Lexer.Pass | parser/lexer.cpp:129-380 | one pass of the loop appends exactly the tokens the scan predicts, and an error ends the whole scan with that error |
| Lexer.ExprLexer | parser/lexer.cpp:123-382 | `exprLexer` returns exactly `Scan(input)` |
| LexerLemmas.SpaceEmitsNothing | parser/lexer.cpp:135-140 | blanks, tabs and line breaks produce no token |
| LexerLemmas.PunctuationEmitsOne | parser/lexer.cpp:142-215 | each single-character punctuator produces exactly its token |
| LexerLemmas.OperatorGreedy | parser/lexer.cpp:217-275 | an operator is lexed as a two-character operator whenever the next character completes one, and otherwise as one character |
| LexerLemmas.OperatorTable | parser/lexer.cpp:217-275 | the operator table pairs each two-character spelling with its token, and falls back to the one-character token |
| LexerLemmas.AllOnesWrap | parser/lexer.cpp:311-315 | thirty-two or more binary ones fold to -1, the value 0xffffffff |
| LexerLemmas.BinaryAllOnesLiteral | tests/test.cpp:164 | `0b` followed by 32 ones lexes as the number 0xffffffff |
| LexerLemmas.LiteralValue | parser/lexer.cpp:296-305 | a literal's token value is its exact numeral, wrapped to 32 bits |
| LexerLemmas.LiteralErrors | parser/lexer.cpp:291-346 | the number errors and when each is raised: a missing digit after a prefix, a leading zero, and a trailing letter, `_` or `.` |
| LexerLemmas.IdentifierLimit | parser/lexer.cpp:357-375 | an identifier fails exactly when its run is longer than 128 characters; otherwise the token holds the run |
| LexerLemmas.UnexpectedCharacterRefused | parser/lexer.cpp:378-379 | the lexer refuses exactly the characters no case handles, with "unexpected character", and that error ends the scan |
| LexerLemmas.DollarAlone | parser/lexer.cpp:277-289 | `$` or `#` not followed by a hex digit is a token of its own |
| LexerLemmas.DollarIsHexPrefix | tests/test.cpp:168-169 | before a hex digit, `$` and `#` lex exactly like `0x`: same token, same length, same errors |
| Evaluation.ApplyUnary | parser/parser_lessoop.cpp:55-69 | `-x` is congruent to minus `x` modulo 2^32 and equals it except for `INT_MIN`; `!x` is 1 exactly when `x` is 0, and 0 otherwise; `~x` flips every bit |
| Evaluation.Operate | parser/parser_oop.cpp:259-591 | only `/` and `%` by zero raise an error, always "division by zero."; only shifts and `INT_MIN / -1` are undefined; `>>` is undefined exactly for a bad count; truth-valued operators yield 0 or 1; `/` and `%` give the truncated quotient and remainder |
| Evaluation.Combine | parser/parser_lessoop.cpp:53-71 | the operators defined on every pair of operands; comparisons, `&&` and `||` yield 0 or 1 |
| Evaluation.Arithmetic | parser/parser_lessoop.cpp:66-67 | outside `>>` in the tagged-union copy every copy applies an operator alike; even there, the copies succeed, raise and are undefined on the same operands |
| Evaluation.Eval | parser/parser_lessoop.cpp:35-76 | `exprEvaluate` and the `evaluate` methods: the only error an evaluation raises is "division by zero." |
| Evaluation.EvalBinary | parser/parser_lessoop.cpp:52-73 | a binary node's evaluation raises no error but "division by zero." |
| Evaluation.U24IsOr | parser/parser_lessoop.cpp:42 | a 24-bit variable is its word or-ed with its third byte shifted by 16 |
| Evaluation.BooleanResults | parser/parser_lessoop.cpp:52-65 | comparisons, logical not, logical and, and logical or yield only 0 or 1 |
| Evaluation.ShortCircuit | parser/parser_lessoop.cpp:53-54 | logical or with a true left operand gives 1, and logical and with a false left operand gives 0, whatever the right operand does |
| Evaluation.ShortCircuitMatchesEager | parser/parser_oop.cpp:259-289 | when both operands evaluate, short-circuit logical and and logical or equal the eager operators |
| Evaluation.CondSelectsOneBranch | parser/parser_oop.cpp:239-257 | `?:` evaluates to the chosen branch, whatever the other branch is |
| Evaluation.DivisorFirst | parser/parser_lessoop.cpp:72-73 | `/` and `%` evaluate the divisor first: its failure, or a zero, decides the result before the dividend is read |
| Evaluation.DivisionTruncates | parser.cpp:997-1033 | evaluated `/` and `%` satisfy `q*d + m == n`, with the truncated quotient and a remainder that has the dividend's sign |
| Evaluation.LeftShiftOutcomes | parser/parser_lessoop.cpp:66 | `<<` is undefined exactly for a bad count, a negative operand or a product of 2^32 or more; otherwise its bit pattern is the exact product |
| Evaluation.DivisionOverflowIsUndefined | parser/parser_oop.cpp:560-597 | `INT_MIN / -1` and `INT_MIN % -1` are undefined behaviour |
| Evaluation.MemoryReadsZeroExtend | parser/parser_oop.cpp:183-226 | `[b …]`, `[w …]` and `[d …]` return the evaluator's unsigned reads zero-extended, and the `uint32_t` read wrapped |
| Evaluation.DirectVariablesLittleEndian | parser.cpp:494-550 | 1-, 2-, 3- and 4-byte variables read host memory least significant byte first |
| Evaluation.DoubleNegate | parser/parser_oop.cpp:529-542 | `--a` is `a`, even for `INT_MIN` |
| Evaluation.DoubleComplement | parser/parser_lessoop.cpp:59 | `~~a` is `a` |
| Evaluation.DoubleLogicNot | parser/parser_lessoop.cpp:55 | `!!a` is 1 when `a` is non-zero, and 0 otherwise |
| Evaluation.OopMatchesOriginal | parser.cpp:466-1033 | the class-per-node copy and the original copy evaluate every tree alike; the two share one model, so this holds by construction |
| Evaluation.LessOopMatchesWithoutShr | parser/parser_lessoop.cpp:35-76 | the tagged-union copy evaluates every tree without `>>` like the other two |
| Evaluation.ShrDivergence | parser/parser_lessoop.cpp:67 | `-8 >> 1` is -4 in the tagged-union copy and 0x7ffffffc in the other two |
| Evaluation.ShrAgreesOnNonNegative | parser/parser_oop.cpp:481-495 | a `>>` node whose operands evaluate alike in all copies, with a non-negative left value, evaluates alike too |
| Evaluation.LessOopMatchesOnNonNegativeShifts | parser/parser_lessoop.cpp:35-76 | the tagged-union copy evaluates like the other two every tree in which no `>>` is applied to a negative value, nested shifts included |
| Grammar.Lower | parser/parser_lessoop.cpp:300-523 | each binary level's operands belong to the level just below it |
| Grammar.LevelOp | parser/parser_oop.cpp:857-875 | a level accepts exactly its own operator tokens; equality accepts `=` and `==` as `Equal`, and `!=` as `NotEqual` |
| Grammar.Expression | parser/parser_lessoop.cpp:550-555 | `expression` moves the cursor forward and stays inside the token list |
| Grammar.ConditionalExpression | parser/parser_lessoop.cpp:525-548 | `conditionalExpression` moves the cursor forward |
| Grammar.LevelExpression | parser/parser_lessoop.cpp:300-523 | each binary level moves the cursor forward |
| Grammar.LevelRest | parser/parser_lessoop.cpp:300-523 | a level's operator loop never moves the cursor back |
| Grammar.Operand | parser/parser_lessoop.cpp:300-523 | a level's operand moves the cursor forward |
| Grammar.UnaryExpression | parser/parser_lessoop.cpp:268-298 | `unaryExpression` moves the cursor forward |
| Grammar.PrimaryExpression | parser/parser_lessoop.cpp:89-265 | `primaryExpression` moves the cursor forward |
| Grammar.MemoryRead | parser/parser_lessoop.cpp:116-149 | a memory read moves the cursor forward |
| Grammar.Variable | parser/parser_lessoop.cpp:230-258 | an unknown name is "unknown identifier"; a bound one succeeds exactly when it is well-formed, with a reader node for its callback or a direct read of its byte size at its resolved address, and fails otherwise with "internal error" |
| Grammar.Callee | parser/parser_lessoop.cpp:192-229 | a call succeeds exactly when the resolver offers that arity; the node is the call node of that arity, holding the callback the resolver returned and the arguments in order; otherwise it raises the copy's mismatch error |
| Grammar.FunctionCall | parser/parser_lessoop.cpp:158-229 | a function call moves the cursor forward |
| Grammar.Arguments | parser/parser_lessoop.cpp:177-191 | the argument list stops on its `)` and holds at most three arguments |
| Grammar.MoreArguments | parser/parser_lessoop.cpp:180-189 | the arguments already parsed stay, in order, at the front of the result, at least one more is added, at most three in all, and the list stops on `)` |
| Grammar.ParseTokens | parser/parser_lessoop.cpp:559-573 | on a token list the scanner produced, a successful parse used every token before the end marker |
| Grammar.Parse | parser/parser_lessoop.cpp:559-573 | a lexical error is reported before any parsing, and a successful parse spans every token of the input |
| GrammarLemmas.LevelStops | parser/parser_lessoop.cpp:300-523 | a level stops only before an operator of a looser level, so tighter operators bind first |
| GrammarLemmas.OperandStops | parser/parser_lessoop.cpp:300-523 | an operand stops before any operator of its own level or a looser one |
| GrammarLemmas.RestStops | parser/parser_lessoop.cpp:300-523 | a level's loop consumes every operator of its own level |
| GrammarLemmas.ExpressionStops | parser/parser_lessoop.cpp:525-555 | an expression stops only at a token that is neither a binary operator nor `?` |
| GrammarLemmas.LevelLiftsFrom | parser/parser_lessoop.cpp:300-523 | when only a looser operator or no operator follows, a lower level's result is also a higher level's result |
| GrammarLemmas.LevelLifts | parser/parser_lessoop.cpp:300-523 | a unary expression followed by no operator is every level's result |
| GrammarLemmas.ExpressionLifts | parser/parser_lessoop.cpp:550-555 | a unary expression followed by no operator and no `?` is a whole expression |
| GrammarLemmas.LeftNested | parser/parser_lessoop.cpp:300-323 | `a op b op d` at one level nests to the left, as `(a op b) op d` |
| GrammarLemmas.RestStep | parser/parser_lessoop.cpp:305-319 | one turn of a level's loop folds the next operand into the left operand |
| GrammarLemmas.PrefixRun | parser/parser_oop.cpp:755-775 | a run of prefix operators nests right to left around the primary expression after it |
| GrammarLemmas.ConditionalShape | parser/parser_lessoop.cpp:525-548 | `a ? b` without `:` is "missing ':'"; with it, the result is `Cond(a, b, c)`, or the error of `c` |
| GrammarLemmas.ConditionalRightNested | parser/parser_lessoop.cpp:525-548 | `a ? b : d ? e : f` nests to the right |
| GrammarLemmas.TrailingTokenRejected | parser/parser_lessoop.cpp:559-573 | a parse succeeds exactly when the expression ends at the end of input; leftover tokens give "syntax error in expression", and an expression's error passes through |
| GrammarLemmas.EmptyInputRejected | test.cpp:288 | the empty input is a syntax error |
| GrammarLemmas.AdjacentNumbersRejected | test.cpp:289 | the tokens of `8 9` are a syntax error |
| GrammarLemmas.AdjacentDollarsRejected | test.cpp:324 | the tokens of `$$` are a syntax error |
| GrammarLemmas.UnknownFunctionOrder | parser/parser_oop.cpp:666-690 | an unknown function name is rejected before its arguments in the tagged-union copy, and after them in the other two, so an argument error wins there |
| GrammarLemmas.CallArity | parser/parser_lessoop.cpp:192-229 | a call to a known function succeeds exactly when the resolver offers the number of arguments given, building the call node with the resolver's callback and the parsed arguments, and otherwise raises the copy's own wording |
| GrammarLemmas.MoreArgumentsStep | parser/parser_lessoop.cpp:180-189 | one turn of the argument loop appends the argument after those already read; `)` ends the list, `,` goes round again, anything else is "missing ','." |
| GrammarLemmas.FourthArgumentRejected | parser/parser_lessoop.cpp:180-183 | a fourth argument is "too many arguments" |
| GrammarLemmas.MemoryForms | parser/parser_lessoop.cpp:116-149 | `b`, `w` and `d` give byte, word and dword reads; any other tag is "unknown data type" |
| GrammarLemmas.MemoryErrorsFirst | parser/parser_lessoop.cpp:129-131 | the address's error, then a missing `]`, are reported before the tag is checked |
| GrammarLemmas.MemoryPrimary | parser/parser_lessoop.cpp:151-157 | `[` reads a byte; `tag@[` reads with that tag; `tag@` without `[` is "missing '[' after '@'" |
| Parsing.Parser.Expression | parser/parser_lessoop.cpp:550-555 | the method follows `Grammar.Expression`: same tree and cursor, or same error |
| Parsing.Parser.Conditional | parser/parser_lessoop.cpp:525-548 | the method follows `Grammar.ConditionalExpression` |
| Parsing.Parser.Level | parser/parser_lessoop.cpp:300-323 | the method follows `Grammar.LevelExpression` for every level |
| Parsing.Parser.Rest | parser/parser_lessoop.cpp:305-319 | the operator loop follows `Grammar.LevelRest` |
| Parsing.Parser.Operand | parser/parser_lessoop.cpp:300-523 | the method follows `Grammar.Operand` |
| Parsing.Parser.Unary | parser/parser_lessoop.cpp:268-298 | the method follows `Grammar.UnaryExpression` |
| Parsing.Parser.Primary | parser/parser_lessoop.cpp:89-265 | the method follows `Grammar.PrimaryExpression` |
| Parsing.Parser.MemoryRead | parser/parser_lessoop.cpp:116-149 | the method follows `Grammar.MemoryRead` |
| Parsing.Parser.FunctionCall | parser/parser_oop.cpp:666-719 | the method follows `Grammar.FunctionCall` in each copy's order |
| Parsing.Parser.Arguments | parser.cpp:1107-1127 | the argument loop follows `Grammar.Arguments` and collects at most three arguments |
| Parsing.ExprParse | parser/parser_lessoop.cpp:559-573 | `exprParse` returns exactly `Grammar.Parse` of the input |
| Scenarios.MultiplicationBindsTighter | tests/test.cpp:175 | the tokens of `9+4 * 3` parse as `9 + (4 * 3)` |
| Scenarios.NinePlusFourTimesThreeIs21 | tests/test.cpp:175 | the tokens of `9+4 * 3` parse, and the parsed tree evaluates to 21 in every copy |
| Scenarios.NestedConditionalParses | tests/test.cpp:184 | the tokens of `0?1?4:8:3` parse as `0 ? (1 ? 4 : 8) : 3` |
| Scenarios.NestedConditionalIs3 | tests/test.cpp:184 | the tokens of `0?1?4:8:3` parse, and the parsed tree evaluates to 3 in every copy |
| Scenarios.ComparedComparisonsParse | tests/test.cpp:209 | the tokens of `4<5=5<4` parse as `(4 < 5) == (5 < 4)` |
| Scenarios.ComparedComparisonsIs0 | tests/test.cpp:209 | the tokens of `4<5=5<4` parse, and the parsed tree evaluates to 0 in every copy |
| Scenarios.TwicePrefixedParses | tests/test.cpp:229-233 | a prefix operator written twice before a number nests, the first one outermost |
| Scenarios.DoublePrefixes | tests/test.cpp:229-233 | the tokens of `--3` and `!!0` parse, and the parsed trees evaluate to 3 and 0 in every copy |

## Left out

- Memory management is not modelled: `exprFree`, `exprFreeTokens`, node destructors and the token list's heap cells become immutable values.
- The `vsnprintf` formatting inside `ExprError` is not modelled. `Errors.Message` writes out each message's text instead.
- The commented-out `type:` syntax (parser.cpp:1074-1082) is not compiled by the source, so it is not modelled.
- Host callbacks, the resolver and the evaluator are parameters: pure functions from their arguments to their results. They have no side effects, and the model does not record how many times or in what order they are called.
- C++ leaves unspecified the order in which the two operands of most binary operators, and the arguments of a callback, are evaluated. The model evaluates left to right, which matters only for which of two failing operands reports its error.
- Raw pointer reads of direct variables are modelled as reads of a byte map, least significant byte first. An x86 host behaves this way; alignment and aliasing are not modelled.
- Evaluation.Eval: signed overflow in `+`, `-`, `*` and unary `-` is modelled as wrap-around modulo 2^32. C++ leaves it undefined.
- Lexer.Fold: the lexer's `value << k` and `value * 10` on an overflowing literal are modelled as wrap-around. The repository's tests expect `0b` followed by 32 ones to be 0xffffffff.
- Evaluation.Eval: neither requires clauses nor a value express undefined shift counts, undefined left shifts and `INT_MIN / -1`. They give the `Undefined` outcome instead.
- Values.ShiftRightArithmetic: C++ leaves the result of `>>` on a negative `int` to the implementation (parser/parser_lessoop.cpp:67). The model takes the arithmetic shift that common compilers produce.
- Lexer.LexToken: a Dafny `char` is a Unicode scalar value, while the lexer reads bytes. An `UnexpectedCharacter` error carries a whole character, where `'%c'` (parser/lexer.cpp:379) prints a single byte.
- GrammarLemmas.AdjacentNumbersRejected and GrammarLemmas.AdjacentDollarsRejected are stated on the token lists of `8 9` and `$$`, not on the character strings. The lexer lemmas cover the step from the string to the tokens.
- Scenarios.NinePlusFourTimesThreeIs21, Scenarios.NestedConditionalIs3, Scenarios.ComparedComparisonsIs0 and Scenarios.DoublePrefixes start from the token lists of their test expressions, not from the character strings. Lexing those strings is covered only by the general lexer lemmas.
- tests/test.cpp:306 expects the wording "too many arguments for function 'fn3' (expected 3)." Only the tagged-union copy produces it. The class-per-node copy's "too many arguments for function 'fn3'." (parser/parser_oop.cpp:675) is modelled as written.
